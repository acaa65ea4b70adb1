/**
 The ring of fs/pipe.c and the locking of its readers and writers: what is read is what was written, in order, and a
 write of at most PIPE_BUF bytes goes in whole and in one piece.
 */
module Pipes {
  type Byte = bv8

  const PIPE_BUF: nat := 4096

  // ---------- the ring ----------

  /** n bytes of the page from place s on, round its end. */
  function Ring(page: seq<Byte>, s: nat, n: nat): (r: seq<Byte>)
    requires |page| == 4096
    ensures |r| == n && forall i :: 0 <= i < n ==> r[i] == page[(s + i) % 4096]
  {
    if n == 0 then [] else Ring(page, s, n - 1) + [page[(s + n - 1) % 4096]]
  }

  lemma RoundOnce(s: nat, i: nat)
    requires s < 4096 && i < 4096
    ensures (s + i) % 4096 == if s + i < 4096 then s + i else s + i - 4096
  {
  }

  /** Bytes written behind the ring, up to the end of the page, are added to it. */
  lemma {:induction false} RingPut(page: seq<Byte>, s: nat, n: nat, data: seq<Byte>, page': seq<Byte>)
    requires |page| == |page'| == 4096 && s < 4096 && n + |data| <= 4096 && |data| > 0 && (s + n) % 4096 + |data| <= 4096
    requires var e := (s + n) % 4096; page' == page[..e] + data + page[e + |data|..]
    ensures Ring(page', s, n + |data|) == Ring(page, s, n) + data
  {
    var e := (s + n) % 4096;
    RoundOnce(s, n);
    forall i | 0 <= i < n + |data|
      ensures Ring(page', s, n + |data|)[i] == (Ring(page, s, n) + data)[i]
    {
      RoundOnce(s, i);
    }
  }

  /** Bytes taken from the front, up to the end of the page, leave the rest. */
  lemma {:induction false} RingTake(page: seq<Byte>, s: nat, n: nat, k: nat)
    requires |page| == 4096 && s < 4096 && k <= n <= 4096 && s + k <= 4096
    ensures Ring(page, s, n) == page[s..s + k] + Ring(page, (s + k) % 4096, n - k)
  {
    forall i | 0 <= i < n
      ensures Ring(page, s, n)[i] == (page[s..s + k] + Ring(page, (s + k) % 4096, n - k))[i]
    {
      RoundOnce(s, i);
      if i >= k {
        Wrapped(s + k, i - k);
      }
    }
  }

  lemma Wrapped(a: nat, b: nat)
    ensures (a % 4096 + b) % 4096 == (a + b) % 4096
  {
  }

  function Min(a: nat, b: nat): nat { if a < b then a else b }

  // ---------- readers and writers ----------

  /** A call of `pipe_write`: how much it has put in, from which place of the log on, and the room it waits for. */
  datatype Write = Write(buf: seq<Byte>, put: nat, at: nat, room: nat, over: bool)

  datatype Holder = Nobody | Writing(op: nat) | Reading

  /** A byte that went in, and the call that put it there. */
  datatype Logged = Logged(op: nat, byte: Byte)

  datatype State = State(queue: seq<Byte>, holder: Holder, ops: map<nat, Write>, log: seq<Logged>, out: seq<Byte>)

  datatype Event = Call(op: nat, buf: seq<Byte>) | Grab(op: nat) | Put(op: nat, n: nat) | Release(op: nat) | Return(op: nat)
                 | ReadGrab | Take(n: nat) | ReadRelease

  /** May the event happen? */
  predicate Enabled(s: State, e: Event) {
    match e
    case Call(op, buf) => op !in s.ops
    case Grab(op) =>
      && op in s.ops && !s.ops[op].over && s.ops[op].put < |s.ops[op].buf| && s.holder == Nobody
      && |s.queue| + s.ops[op].room <= PIPE_BUF
    case Put(op, n) =>
      op in s.ops && s.holder == Writing(op) && n >= 1 && s.ops[op].put + n <= |s.ops[op].buf| && |s.queue| + n <= PIPE_BUF
    case Release(op) =>
      op in s.ops && s.holder == Writing(op) && (s.ops[op].put == |s.ops[op].buf| || |s.queue| == PIPE_BUF)
    case Return(op) => op in s.ops && !s.ops[op].over && s.holder != Writing(op)
    case ReadGrab => s.holder == Nobody && s.queue != []
    case Take(n) => s.holder == Reading && 1 <= n <= |s.queue|
    case ReadRelease => s.holder == Reading
  }

  /** The state after n bytes more of the call. */
  function Puts(s: State, op: nat, n: nat): State
    requires op in s.ops && s.ops[op].put + n <= |s.ops[op].buf|
  {
    PutData(s, op, s.ops[op].buf[s.ops[op].put..s.ops[op].put + n])
  }

  function PutData(s: State, op: nat, data: seq<Byte>): State
    requires op in s.ops
  {
    s.(queue := s.queue + data, log := s.log + Log(op, data),
       ops := s.ops[op := s.ops[op].(put := s.ops[op].put + |data|)])
  }

  /** One step between two places where a process may sleep. */
  function Step(s: State, e: Event): State
    requires Enabled(s, e)
  {
    match e
    case Call(op, buf) => s.(ops := s.ops[op := Write(buf, 0, 0, if |buf| <= PIPE_BUF then |buf| else 1, false)])
    case Grab(op) =>
      var w := s.ops[op];
      s.(holder := Writing(op), ops := s.ops[op := w.(at := if w.put == 0 then |s.log| else w.at)])
    case Put(op, n) => Puts(s, op, n)
    case Release(op) => s.(holder := Nobody, ops := s.ops[op := s.ops[op].(room := 1)])
    case Return(op) => s.(ops := s.ops[op := s.ops[op].(over := true)])
    case ReadGrab => s.(holder := Reading)
    case Take(n) => s.(queue := s.queue[n..], out := s.out + s.queue[..n])
    case ReadRelease => s.(holder := Nobody)
  }

  function Log(op: nat, data: seq<Byte>): (r: seq<Logged>)
    ensures |r| == |data| && forall i :: 0 <= i < |r| ==> r[i] == Logged(op, data[i])
  {
    seq(|data|, i requires 0 <= i < |data| => Logged(op, data[i]))
  }

  function Bytes(log: seq<Logged>): (r: seq<Byte>)
    ensures |r| == |log| && forall i :: 0 <= i < |r| ==> r[i] == log[i].byte
  {
    seq(|log|, i requires 0 <= i < |log| => log[i].byte)
  }

  /** The bytes a call has put in. */
  function BytesBy(log: seq<Logged>, op: nat): seq<Byte> {
    if log == [] then [] else (if log[0].op == op then [log[0].byte] else []) + BytesBy(log[1..], op)
  }

  lemma {:induction false} BytesByConcat(a: seq<Logged>, b: seq<Logged>, op: nat)
    ensures BytesBy(a + b, op) == BytesBy(a, op) + BytesBy(b, op)
  {
    if a == [] {
      assert a + b == b;
    } else {
      assert (a + b)[1..] == a[1..] + b;
      BytesByConcat(a[1..], b, op);
      var h := if a[0].op == op then [a[0].byte] else [];
      assert h + (BytesBy(a[1..], op) + BytesBy(b, op)) == (h + BytesBy(a[1..], op)) + BytesBy(b, op);
    }
  }

  lemma {:induction false} BytesByLog(op: nat, data: seq<Byte>, o: nat)
    ensures BytesBy(Log(op, data), o) == if o == op then data else []
  {
    if data != [] {
      BytesByLog(op, data[1..], o);
      assert Log(op, data)[1..] == Log(op, data[1..]);
    }
  }

  lemma {:induction false} BytesByNobody(log: seq<Logged>, op: nat)
    requires forall i :: 0 <= i < |log| ==> log[i].op != op
    ensures BytesBy(log, op) == []
  {
    if log != [] {
      BytesByNobody(log[1..], op);
    }
  }

  /** What a call has put in lies in one piece from place a on. */
  ghost predicate OnePiece(log: seq<Logged>, op: nat, a: nat, n: nat) {
    a + n <= |log| && forall i :: 0 <= i < |log| ==> (log[i].op == op <==> a <= i < a + n)
  }

  /** A call of at most PIPE_BUF bytes: in one piece; while it holds the lock it has room for the rest, and when it does
      not it has put in nothing yet, or all. */
  ghost predicate Atomic(s: State, op: nat, w: Write) {
    && OnePiece(s.log, op, w.at, w.put)
    && (s.holder == Writing(op) ==> w.at + w.put == |s.log| && |s.queue| + |w.buf| - w.put <= PIPE_BUF)
    && (s.holder != Writing(op) ==> w.put == |w.buf| || (w.put == 0 && w.room == |w.buf|))
  }

  ghost predicate OpOk(s: State, op: nat, w: Write) {
    && w.put <= |w.buf| && BytesBy(s.log, op) == w.buf[..w.put] && (w.over ==> s.holder != Writing(op))
    && (|w.buf| <= PIPE_BUF ==> Atomic(s, op, w))
  }

  ghost predicate Invariant(s: State) {
    && s.out + s.queue == Bytes(s.log) && |s.queue| <= PIPE_BUF
    && (forall i :: 0 <= i < |s.log| ==> s.log[i].op in s.ops)
    && (s.holder.Writing? ==> s.holder.op in s.ops)
    && (forall op :: op in s.ops ==> OpOk(s, op, s.ops[op]))
  }

  lemma {:induction false} BytesConcat(a: seq<Logged>, b: seq<Logged>)
    ensures Bytes(a + b) == Bytes(a) + Bytes(b)
  {
  }

  lemma {:induction false} BytesLog(op: nat, data: seq<Byte>)
    ensures Bytes(Log(op, data)) == data
  {
  }

  lemma {:induction false} PutSelf(s: State, op: nat, n: nat)
    requires Enabled(s, Put(op, n)) && OpOk(s, op, s.ops[op])
    ensures var t := Step(s, Put(op, n)); OpOk(t, op, t.ops[op])
  {
    var w := s.ops[op];
    var data := w.buf[w.put..w.put + n];
    OwnGrows(s.log, op, w.buf, w.put, n);
    if |w.buf| <= PIPE_BUF {
      PieceGrows(s.log, op, w.at, w.put, data);
    }
  }

  lemma {:induction false} OwnGrows(log: seq<Logged>, op: nat, buf: seq<Byte>, put: nat, n: nat)
    requires put + n <= |buf| && BytesBy(log, op) == buf[..put]
    ensures BytesBy(log + Log(op, buf[put..put + n]), op) == buf[..put + n]
  {
    var data := buf[put..put + n];
    BytesByConcat(log, Log(op, data), op);
    BytesByLog(op, data, op);
    assert buf[..put] + data == buf[..put + n];
  }

  lemma {:induction false} PieceGrows(log: seq<Logged>, op: nat, a: nat, n: nat, data: seq<Byte>)
    requires OnePiece(log, op, a, n) && a + n == |log|
    ensures OnePiece(log + Log(op, data), op, a, n + |data|)
  {
  }

  lemma {:induction false} PieceStays(log: seq<Logged>, op: nat, a: nat, n: nat, other: nat, data: seq<Byte>)
    requires OnePiece(log, op, a, n) && other != op
    ensures OnePiece(log + Log(other, data), op, a, n)
  {
  }

  lemma {:induction false} PutOther(s: State, op: nat, n: nat, o: nat)
    requires Enabled(s, Put(op, n)) && o in s.ops && o != op && OpOk(s, o, s.ops[o])
    ensures var t := Step(s, Put(op, n)); OpOk(t, o, s.ops[o])
  {
    var w, v := s.ops[op], s.ops[o];
    var data := w.buf[w.put..w.put + n];
    BytesByConcat(s.log, Log(op, data), o);
    BytesByLog(op, data, o);
    if |v.buf| <= PIPE_BUF {
      PieceStays(s.log, o, v.at, v.put, op, data);
    }
  }

  lemma {:induction false} PutQueue(s: State, op: nat, n: nat)
    requires Enabled(s, Put(op, n)) && s.out + s.queue == Bytes(s.log)
    ensures var t := Step(s, Put(op, n)); t.out + t.queue == Bytes(t.log)
  {
    var w := s.ops[op];
    QueueGrows(s.out, s.queue, s.log, op, w.buf[w.put..w.put + n]);
  }

  lemma {:induction false} QueueGrows(out: seq<Byte>, queue: seq<Byte>, log: seq<Logged>, op: nat, data: seq<Byte>)
    requires out + queue == Bytes(log)
    ensures out + (queue + data) == Bytes(log + Log(op, data))
  {
    BytesConcat(log, Log(op, data));
    BytesLog(op, data);
    Assoc(out, queue, data);
  }

  lemma Assoc(a: seq<Byte>, b: seq<Byte>, c: seq<Byte>)
    ensures a + (b + c) == (a + b) + c
  {
  }

  lemma {:induction false} PutKeeps(s: State, op: nat, n: nat)
    requires Invariant(s) && Enabled(s, Put(op, n))
    ensures Invariant(Step(s, Put(op, n)))
  {
    var t := Step(s, Put(op, n));
    PutQueue(s, op, n);
    forall o | o in t.ops
      ensures OpOk(t, o, t.ops[o])
    {
      if o == op {
        PutSelf(s, op, n);
      } else {
        PutOther(s, op, n, o);
      }
    }
  }

  /** Every step keeps the invariant. */
  lemma {:induction false} StepKeeps(s: State, e: Event)
    requires Invariant(s) && Enabled(s, e)
    ensures Invariant(Step(s, e))
  {
    match e
    case Put(op, n) => PutKeeps(s, op, n);
    case Call(op, buf) => CallKeeps(s, op, buf);
    case Take(n) => TakeKeeps(s, n);
    case _ => OtherKeeps(s, e);
  }

  lemma {:induction false} CallKeeps(s: State, op: nat, buf: seq<Byte>)
    requires Invariant(s) && op !in s.ops
    ensures Invariant(Step(s, Call(op, buf)))
  {
    var t := Step(s, Call(op, buf));
    BytesByNobody(s.log, op);
    forall o | o in t.ops
      ensures OpOk(t, o, t.ops[o])
    {
      if o != op {
        assert OpOk(s, o, s.ops[o]);
      }
    }
  }

  lemma {:induction false} TakeKeeps(s: State, n: nat)
    requires Invariant(s) && Enabled(s, Take(n))
    ensures Invariant(Step(s, Take(n)))
  {
    var t := Step(s, Take(n));
    assert s.queue == s.queue[..n] + s.queue[n..];
    assert (s.out + s.queue[..n]) + s.queue[n..] == s.out + s.queue;
    forall o | o in t.ops
      ensures OpOk(t, o, t.ops[o])
    {
      assert OpOk(s, o, s.ops[o]);
    }
  }

  lemma {:induction false} OtherKeeps(s: State, e: Event)
    requires Invariant(s) && Enabled(s, e) && !e.Put? && !e.Call? && !e.Take?
    ensures Invariant(Step(s, e))
  {
    var t := Step(s, e);
    forall o | o in t.ops
      ensures OpOk(t, o, t.ops[o])
    {
      OtherKeepsOp(s, e, o);
    }
  }

  lemma {:induction false} OtherKeepsOp(s: State, e: Event, o: nat)
    requires Enabled(s, e) && !e.Put? && !e.Call? && !e.Take? && o in s.ops && OpOk(s, o, s.ops[o])
    ensures OpOk(Step(s, e), o, Step(s, e).ops[o])
  {
  }

  // ---------- whole runs ----------

  /** A run of steps that may happen, each after the other. */
  ghost predicate Runs(s: State, events: seq<Event>, t: State)
    decreases |events|
  {
    if events == [] then s == t else Enabled(s, events[0]) && Runs(Step(s, events[0]), events[1..], t)
  }

  lemma {:induction false} RunKeeps(s: State, events: seq<Event>, t: State)
    requires Invariant(s) && Runs(s, events, t)
    ensures Invariant(t)
    decreases |events|
  {
    if events != [] {
      StepKeeps(s, events[0]);
      RunKeeps(Step(s, events[0]), events[1..], t);
    }
  }

  /** Whatever readers and writers do: the bytes read, and then those in the pipe, are the bytes written in order; each
      call has put in a prefix of its bytes in order; and a call of at most PIPE_BUF bytes that has returned put in all
      or nothing, in one piece. */
  lemma {:induction false} PipeKeepsOrder(events: seq<Event>, t: State)
    requires Runs(Start(), events, t)
    ensures t.out + t.queue == Bytes(t.log)
    ensures forall op :: op in t.ops ==> Whole(t.log, op, t.ops[op])
  {
    RunKeeps(Start(), events, t);
    forall op | op in t.ops
      ensures Whole(t.log, op, t.ops[op])
    {
      assert OpOk(t, op, t.ops[op]);
    }
  }

  /** A call has put in a prefix of its bytes, in order; if it is of at most PIPE_BUF bytes, in one piece, and all or
      nothing once it has returned. */
  ghost predicate Whole(log: seq<Logged>, op: nat, w: Write) {
    && w.put <= |w.buf| && BytesBy(log, op) == w.buf[..w.put]
    && (|w.buf| <= PIPE_BUF ==> OnePiece(log, op, w.at, w.put) && (w.over ==> w.put == 0 || w.put == |w.buf|))
  }

  function Start(): State {
    State([], Nobody, map[], [], [])
  }

  lemma {:induction false} RunsOn(s: State, events: seq<Event>, t: State, e: Event)
    requires Runs(s, events, t) && Enabled(t, e)
    ensures Runs(s, events + [e], Step(t, e))
    decreases |events|
  {
    if events == [] {
      assert events + [e] == [e] && [e][1..] == [];
    } else {
      assert (events + [e])[1..] == events[1..] + [e];
      RunsOn(Step(s, events[0]), events[1..], t, e);
    }
  }

  // ---------- the pipe ----------

  /** The pipe of an inode.  Its methods are the stretches of `pipe_read` and `pipe_write`, from any state in which they
      may begin; whoever has the lock keeps it while the copy of a chunk sleeps. */
  class Pipe {
    const base: array<Byte>
    var start: nat
    var len: nat
    var lock: nat
    /** The run so far, and the state it has come to. */
    ghost var trace: seq<Event>
    ghost var state: State

    ghost predicate Valid()
      reads this, base
    {
      && base.Length == 4096 && start < 4096 && len <= 4096
      && state.queue == Contents() && lock == (if state.holder == Nobody then 0 else 1)
      && Runs(Start(), trace, state)
    }

    ghost function Contents(): seq<Byte>
      requires base.Length == 4096
      reads this, base
    {
      Ring(base[..], start, len)
    }

    constructor ()
      ensures Valid() && state == Start() && fresh(base)
    {
      base := new Byte[4096](_ => 0);
      start, len, lock := 0, 0, 0;
      trace, state := [], Start();
    }

    /** Order and atomicity of the ring: the bytes read, and then those in the ring, are the bytes written in order; each
        call has put in a prefix of its bytes in order, and one of at most PIPE_BUF bytes in one piece, all or nothing
        once it has returned. */
    lemma {:induction false} RingKeepsOrder()
      requires Valid()
      ensures state.out + Contents() == Bytes(state.log)
      ensures forall op :: op in state.ops ==> Whole(state.log, op, state.ops[op])
    {
      PipeKeepsOrder(trace, state);
    }

    /** The event is the next of the run. */
    ghost method Happens(e: Event)
      requires Runs(Start(), trace, state) && Enabled(state, e)
      modifies this`trace, this`state
      ensures state == Step(old(state), e) && trace == old(trace) + [e] && Runs(Start(), trace, state)
    {
      RunsOn(Start(), trace, state, e);
      trace, state := trace + [e], Step(state, e);
    }

    /** A call of `pipe_write`, and the room it first waits for. */
    method BeginWrite(op: nat, buf: seq<Byte>) returns (free: nat)
      requires Valid() && op !in state.ops
      modifies this`trace, this`state
      ensures Valid() && state == Step(old(state), Call(op, buf)) && free == state.ops[op].room
    {
      free := if |buf| <= PIPE_BUF then |buf| else 1;
      Happens(Call(op, buf));
    }

    /** The test before a writer takes the lock. */
    method GrabWrite(op: nat, free: nat) returns (got: bool)
      requires Valid() && op in state.ops && !state.ops[op].over && state.ops[op].put < |state.ops[op].buf| && state.ops[op].room == free
      modifies this`lock, this`trace, this`state
      ensures Valid() && (got <==> PIPE_BUF - len >= free && old(lock) == 0)
      ensures state == if got then Step(old(state), Grab(op)) else old(state)
    {
      got := !(PIPE_BUF - len < free || lock > 0);
      if got {
        lock := lock + 1;
        Happens(Grab(op));
      }
    }

    /** One turn of the inner loop of `pipe_write`, with the bytes that are left to write. */
    method PutChunk(op: nat, buf: seq<Byte>) returns (chars: nat)
      requires Valid() && MayPut(state, op, buf) && buf != [] && len < PIPE_BUF
      modifies this`len, this`trace, this`state, base
      ensures Valid() && 1 <= chars <= |buf| && len == old(len) + chars && Contents() == old(Contents()) + buf[..chars]
      ensures Enabled(old(state), Put(op, chars)) && state == Step(old(state), Put(op, chars)) && MayPut(state, op, buf[chars..])
    {
      chars := PutBytes(buf);
      PutsNext(state, op, buf, chars);
      Happens(Put(op, chars));
    }

    /** Up to the end of the page, behind what is there. */
    method PutBytes(buf: seq<Byte>) returns (chars: nat)
      requires base.Length == 4096 && start < 4096 && len < 4096 && buf != []
      modifies this`len, base
      ensures 1 <= chars <= |buf| && len == old(len) + chars <= 4096 && Contents() == old(Contents()) + buf[..chars]
    {
      var end := (start + len) % 4096;
      chars := Min(Min(PIPE_BUF - end, |buf|), PIPE_BUF - len);
      Store(end, buf[..chars]);
      RingPut(old(base[..]), start, len, buf[..chars], base[..]);
      len := len + chars;
    }

    method Store(at: nat, data: seq<Byte>)
      requires at + |data| <= base.Length
      modifies base
      ensures base[..] == old(base[..])[..at] + data + old(base[..])[at + |data|..]
    {
      forall i | 0 <= i < |data| {
        base[at + i] := data[i];
      }
    }

    /** What a writer puts in while it holds the lock: all there is room for. */
    method PutLocked(op: nat, buf: seq<Byte>) returns (n: nat)
      requires Valid() && MayPut(state, op, buf)
      modifies this`len, this`trace, this`state, base
      ensures Valid() && n == Min(|buf|, PIPE_BUF - old(len)) && len == old(len) + n
      ensures state == Puts(old(state), op, n)
    {
      n := 0;
      PutsNone(state, op);
      while n < |buf| && len < PIPE_BUF
        invariant Valid() && n <= |buf| && len == old(len) + n && state == Puts(old(state), op, n)
        decreases |buf| - n
      {
        PutsLeft(old(state), op, buf, n);
        var chars := PutChunk(op, buf[n..]);
        PutsMore(old(state), op, n, chars);
        n := n + chars;
      }
    }

    method ReleaseWrite(op: nat)
      requires Valid() && Enabled(state, Release(op))
      modifies this`lock, this`trace, this`state
      ensures Valid() && state == Step(old(state), Release(op))
    {
      lock := lock - 1;
      Happens(Release(op));
    }

    /** One turn of the outer loop of `pipe_write` that finds the lock free and the room it waits for: `written` bytes of buf
        have been written before it, and more after it. */
    method WriteTurn(op: nat, buf: seq<Byte>, written: nat, free: nat) returns (slept: bool, n: nat)
      requires Valid() && op in state.ops && state.ops[op] == state.ops[op].(buf := buf, put := written, room := free, over := false)
      requires written < |buf|
      modifies this`len, this`lock, this`trace, this`state, base
      ensures Valid() && (slept <==> PIPE_BUF - old(len) < free || old(lock) > 0)
      ensures slept ==> n == 0 && state == old(state)
      ensures !slept ==> n == Min(|buf| - written, PIPE_BUF - old(len)) && Contents() == old(Contents()) + buf[written..written + n]
      ensures !slept ==> state == Turned(old(state), op, n)
    {
      n := 0;
      var got := GrabWrite(op, free);
      if !got {
        return true, 0;
      }
      n := PutLocked(op, buf[written..]);
      PutAll(old(state), op, n);
      ReleaseWrite(op);
      return false, n;
    }

    /** The call returns, complete or not. */
    method EndWrite(op: nat)
      requires Valid() && Enabled(state, Return(op))
      modifies this`trace, this`state
      ensures Valid() && state == Step(old(state), Return(op))
    {
      Happens(Return(op));
    }

    /** The test before a reader takes the lock. */
    method GrabRead() returns (got: bool)
      requires Valid()
      modifies this`lock, this`trace, this`state
      ensures Valid() && (got <==> len > 0 && old(lock) == 0)
      ensures state == if got then Step(old(state), ReadGrab) else old(state)
    {
      got := !(len == 0 || lock > 0);
      if got {
        lock := lock + 1;
        Happens(ReadGrab);
      }
    }

    /** One turn of the loop of `pipe_read`. */
    method TakeChunk(count: nat) returns (out: seq<Byte>)
      requires Valid() && state.holder == Reading && count > 0 && len > 0
      modifies this`start, this`len, this`trace, this`state
      ensures Valid() && 1 <= |out| <= count && len == old(len) - |out| && out + Contents() == old(Contents())
      ensures Enabled(old(state), Take(|out|)) && state == Step(old(state), Take(|out|)) && state.out == old(state).out + out
    {
      ghost var queue := Contents();
      out := TakeBytes(count);
      assert queue[..|out|] == out && queue[|out|..] == Contents();
      Happens(Take(|out|));
    }

    /** Up to the end of the page, from the front. */
    method TakeBytes(count: nat) returns (out: seq<Byte>)
      requires base.Length == 4096 && start < 4096 && 0 < len <= 4096 && count > 0
      modifies this`start, this`len
      ensures 1 <= |out| <= count && start < 4096 && len == old(len) - |out| && out + Contents() == old(Contents())
    {
      var chars := Min(Min(PIPE_BUF - start, count), len);
      RingTake(base[..], start, len, chars);
      out := base[start..start + chars];
      start := (start + chars) % 4096;
      len := len - chars;
    }

    /** What a reader takes out while it holds the lock. */
    method TakeLocked(count: nat) returns (out: seq<Byte>)
      requires Valid() && state.holder == Reading
      modifies this`start, this`len, this`trace, this`state
      ensures Valid() && |out| == Min(count, old(len)) && out + Contents() == old(Contents())
      ensures state.holder == Reading && state.out == old(state).out + out
    {
      out := [];
      while |out| < count && len > 0
        invariant Valid() && |out| <= count && len == old(len) - |out| && out + Contents() == old(Contents())
        invariant state.holder == Reading && state.out == old(state).out + out
        decreases count - |out|
      {
        ghost var rest := Contents();
        var more := TakeChunk(count - |out|);
        Assoc(out, more, Contents());
        Assoc(old(state).out, out, more);
        out := out + more;
      }
    }

    method ReleaseRead()
      requires Valid() && state.holder == Reading
      modifies this`lock, this`trace, this`state
      ensures Valid() && state == Step(old(state), ReadRelease)
    {
      lock := lock - 1;
      Happens(ReadRelease);
    }

    /** `pipe_read`, from where it finds the pipe neither empty nor locked. */
    method ReadTurn(count: nat) returns (slept: bool, out: seq<Byte>)
      requires Valid()
      modifies this`start, this`len, this`lock, this`trace, this`state
      ensures Valid() && (slept <==> old(len) == 0 || old(lock) > 0)
      ensures slept ==> out == [] && state == old(state)
      ensures !slept ==> |out| == Min(count, old(len)) && out + Contents() == old(Contents())
                         && state.out == old(state).out + out && state.holder == Nobody
    {
      out := [];
      var got := GrabRead();
      if !got {
        return true, [];
      }
      out := TakeLocked(count);
      ReleaseRead();
      return false, out;
    }
  }

  /** The call holds the lock and has these bytes left to write. */
  ghost predicate MayPut(s: State, op: nat, buf: seq<Byte>) {
    op in s.ops && s.holder == Writing(op) && s.ops[op].put <= |s.ops[op].buf| && s.ops[op].buf[s.ops[op].put..] == buf
  }

  lemma PutsNext(s: State, op: nat, buf: seq<Byte>, n: nat)
    requires MayPut(s, op, buf) && 1 <= n <= |buf| && |s.queue| + n <= PIPE_BUF
    ensures Enabled(s, Put(op, n)) && MayPut(Step(s, Put(op, n)), op, buf[n..])
    ensures Step(s, Put(op, n)).queue == s.queue + buf[..n]
  {
    var w := s.ops[op];
    assert w.buf[w.put..w.put + n] == buf[..n];
    assert w.buf[w.put + n..] == buf[n..];
  }

  lemma PutsNone(s: State, op: nat)
    requires op in s.ops && s.ops[op].put <= |s.ops[op].buf|
    ensures Puts(s, op, 0) == s
  {
    var w := s.ops[op];
    assert w.buf[w.put..w.put] == [] && Log(op, []) == [];
    assert s.queue + [] == s.queue && s.log + [] == s.log;
    assert s.ops[op := w] == s.ops;
  }

  lemma PutsMore(s: State, op: nat, a: nat, b: nat)
    requires op in s.ops && s.ops[op].put + a + b <= |s.ops[op].buf|
    ensures Puts(Puts(s, op, a), op, b) == Puts(s, op, a + b)
  {
    var buf, put := s.ops[op].buf, s.ops[op].put;
    DataInTwo(s, op, buf[put..put + a], buf[put + a..put + a + b]);
    assert buf[put..put + a] + buf[put + a..put + a + b] == buf[put..put + (a + b)];
  }

  lemma DataInTwo(s: State, op: nat, x: seq<Byte>, y: seq<Byte>)
    requires op in s.ops
    ensures PutData(PutData(s, op, x), op, y) == PutData(s, op, x + y)
  {
    assert s.queue + x + y == s.queue + (x + y);
    assert s.log + Log(op, x) + Log(op, y) == s.log + Log(op, x + y);
  }

  lemma PutsLeft(s: State, op: nat, buf: seq<Byte>, n: nat)
    requires MayPut(s, op, buf) && n <= |buf|
    ensures MayPut(Puts(s, op, n), op, buf[n..])
  {
    var w := s.ops[op];
    assert w.buf[w.put + n..] == w.buf[w.put..][n..];
  }

  /** The state after a turn that puts in n bytes of the call. */
  function Turned(s: State, op: nat, n: nat): State
    requires op in s.ops && s.ops[op].put + n <= |s.ops[op].buf|
  {
    var w := s.ops[op];
    var data := w.buf[w.put..w.put + n];
    s.(queue := s.queue + data, log := s.log + Log(op, data),
       ops := s.ops[op := w.(put := w.put + n, room := 1, at := if w.put == 0 then |s.log| else w.at)])
  }

  lemma PutAll(s: State, op: nat, n: nat)
    requires Enabled(s, Grab(op)) && s.ops[op].put + n <= |s.ops[op].buf|
    ensures var t := Puts(Step(s, Grab(op)), op, n);
            (s.ops[op].put + n == |s.ops[op].buf| || |t.queue| == PIPE_BUF ==>
               Enabled(t, Release(op)) && Step(t, Release(op)) == Turned(s, op, n))
  {
    var w := s.ops[op];
    var v := w.(at := if w.put == 0 then |s.log| else w.at);
    assert s.ops[op := v][op := v.(put := w.put + n)][op := v.(put := w.put + n, room := 1)] == s.ops[op := v.(put := w.put + n, room := 1)];
  }
}
