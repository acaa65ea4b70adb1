/**
 A semaphore set of ipc/sem.c: its values, its queue of sleepers, and its undo structures.

 Every call is proved to be a run of the events below on the values and adjustments, and to leave
 no sleeper in the queue whose operations could go through.
 */
module Semaphores {
  import opened SemSpec
  import opened Wrappers

  datatype Event =
    | MakeUndo(pid: nat)
    | Op(q: Request)
    | Fail(q: Request, why: Verdict)
    | Exit(pid: nat)
    | SetVal(num: nat, val: int)
    | SetAll(vals: seq<int>)

  function Zeros(n: nat): (r: seq<int>)
    ensures |r| == n && forall i :: 0 <= i < n ==> r[i] == 0
  {
    seq(n, _ => 0)
  }

  function ClearAdj(undo: seq<Undo>, num: nat): (r: seq<Undo>)
    requires forall k :: 0 <= k < |undo| ==> num < |undo[k].adj|
    ensures |r| == |undo|
    ensures forall k :: 0 <= k < |undo| ==> r[k] == Undo(undo[k].pid, undo[k].adj[num := 0])
  {
    if undo == [] then [] else [Undo(undo[0].pid, undo[0].adj[num := 0])] + ClearAdj(undo[1..], num)
  }

  function ClearAll(undo: seq<Undo>): (r: seq<Undo>)
    ensures |r| == |undo|
    ensures forall k :: 0 <= k < |undo| ==> r[k] == Undo(undo[k].pid, Zeros(|undo[k].adj|))
  {
    if undo == [] then [] else [Undo(undo[0].pid, Zeros(|undo[0].adj|))] + ClearAll(undo[1..])
  }

  /** One event, if it may happen. */
  function Step(s: Sems, e: Event): Option<Sems>
    requires SemsOk(s)
  {
    match e
    case MakeUndo(pid) =>
      if HasUndo(s.undo, pid) then None else Some(s.(undo := [Undo(pid, Zeros(|s.vals|))] + s.undo))
    case Op(q) =>
      if RequestOk(s, q) && Try(s.vals, q.sops) == Go then Some(Do(s, q)) else None
    case Fail(q, why) =>
      if RequestOk(s, q) && Try(s.vals, q.sops) == why && why != Go && why != Wait then Some(s) else None
    case Exit(pid) =>
      var k := IndexOf(s.undo, pid);
      if k < |s.undo| then Some(Sems(ExitVals(s.vals, s.undo[k].adj), Drop(s.undo, k))) else Some(s)
    case SetVal(num, val) =>
      if num < |s.vals| && 0 <= val <= SEMVMX then Some(Sems(s.vals[num := val], ClearAdj(s.undo, num))) else None
    case SetAll(vals) =>
      if |vals| == |s.vals| && ValuesOk(vals) then Some(Sems(vals, ClearAll(s.undo))) else None
  }

  lemma StepOk(s: Sems, e: Event)
    requires SemsOk(s) && Step(s, e).Some?
    ensures SemsOk(Step(s, e).value) && |Step(s, e).value.vals| == |s.vals|
  {
    match e
    case Op(q) => DoOk(s, q);
    case SetVal(num, _) => ClearAdjOk(s.undo, |s.vals|, num);
    case SetAll(_) => ClearAllOk(s.undo, |s.vals|);
    case Exit(pid) => DropOk(s.undo, |s.vals|, IndexOf(s.undo, pid));
    case MakeUndo(_) =>
    case Fail(_, _) =>
  }

  lemma DropOk(undo: seq<Undo>, nsems: nat, k: nat)
    requires UndoOk(undo, nsems) && k <= |undo|
    ensures k < |undo| ==> UndoOk(Drop(undo, k), nsems)
  {
  }

  lemma ClearAdjOk(undo: seq<Undo>, nsems: nat, num: nat)
    requires UndoOk(undo, nsems) && num < nsems
    ensures UndoOk(ClearAdj(undo, num), nsems)
  {
  }

  lemma ClearAllOk(undo: seq<Undo>, nsems: nat)
    requires UndoOk(undo, nsems)
    ensures UndoOk(ClearAll(undo), nsems)
  {
  }

  function Replay(s: Sems, events: seq<Event>): Option<Sems>
    requires SemsOk(s)
    decreases |events|
  {
    if events == [] then Some(s)
    else
      match Step(s, events[0])
      case None => None
      case Some(s1) =>
        StepOk(s, events[0]);
        Replay(s1, events[1..])
  }

  lemma {:induction false} ReplayConcat(s: Sems, p: seq<Event>, q: seq<Event>)
    requires SemsOk(s) && Replay(s, p).Some?
    ensures SemsOk(Replay(s, p).value) && |Replay(s, p).value.vals| == |s.vals|
    ensures Replay(s, p + q) == Replay(Replay(s, p).value, q)
    decreases |p|
  {
    if p == [] {
      assert p + q == q;
    } else {
      assert (p + q)[1..] == p[1..] + q;
      StepOk(s, p[0]);
      ReplayConcat(Step(s, p[0]).value, p[1..], q);
    }
  }

  lemma Extend(s: Sems, p: seq<Event>, last: Sems, e: Event, next: Sems)
    requires SemsOk(s) && Replay(s, p) == Some(last) && SemsOk(last) && Step(last, e) == Some(next)
    ensures Replay(s, p + [e]) == Some(next)
  {
    ReplayConcat(s, p, [e]);
    assert [e][1..] == [];
    StepOk(last, e);
    assert Replay(last, [e]) == Replay(next, []);
  }

  // ---------- the ledger over every run ----------

  /** By how much an event moves the total of semaphore i: operations without SEM_UNDO, SETVAL and SETALL,
      and what an exit could not adjust in full. */
  function NetChange(s: Sems, e: Event, i: nat): int
    requires SemsOk(s) && Step(s, e).Some? && i < |s.vals|
  {
    match e
    case MakeUndo(_) => 0
    case Op(q) => NetPlain(q.sops, i)
    case Fail(_, _) => 0
    case Exit(pid) =>
      var k := IndexOf(s.undo, pid);
      if k < |s.undo| then ExitValue(s.vals[i], s.undo[k].adj[i]) - (s.vals[i] + s.undo[k].adj[i]) else 0
    case SetVal(num, val) => if num == i then val - Total(s, i) else 0
    case SetAll(vals) => vals[i] - Total(s, i)
  }

  lemma {:induction false} SumCleared(undo: seq<Undo>, nsems: nat, num: nat, i: nat)
    requires UndoOk(undo, nsems) && num < nsems && i < nsems
    ensures SumAdj(ClearAdj(undo, num), i) == if i == num then 0 else SumAdj(undo, i)
    ensures SumAdj(ClearAll(undo), i) == 0
    decreases |undo|
  {
    if undo != [] {
      SumCleared(undo[1..], nsems, num, i);
      assert ClearAdj(undo, num)[1..] == ClearAdj(undo[1..], num);
      assert ClearAll(undo)[1..] == ClearAll(undo[1..]);
    }
  }

  /** The total after the event, exactly, for all events but operations. */
  lemma ExactStep(s: Sems, e: Event, i: nat)
    requires SemsOk(s) && !e.Op? && Step(s, e).Some? && i < |s.vals| == |Step(s, e).value.vals|
    requires SemsOk(Step(s, e).value)
    ensures Total(Step(s, e).value, i) == Total(s, i) + NetChange(s, e, i)
  {
    match e
    case MakeUndo(pid) => assert Step(s, e).value.undo[1..] == s.undo;
    case Fail(_, _) =>
    case Exit(pid) => ExactExit(s, pid, i);
    case SetVal(num, val) => SumCleared(s.undo, |s.vals|, num, i);
    case SetAll(vals) => SumCleared(s.undo, |s.vals|, i, i);
  }

  lemma ExactExit(s: Sems, pid: nat, i: nat)
    requires SemsOk(s) && i < |s.vals| == |Step(s, Exit(pid)).value.vals| && SemsOk(Step(s, Exit(pid)).value)
    ensures Total(Step(s, Exit(pid)).value, i) == Total(s, i) + NetChange(s, Exit(pid), i)
  {
    if IndexOf(s.undo, pid) < |s.undo| {
      SumDrop(s.undo, IndexOf(s.undo, pid), i);
    }
  }

  /** The words that 16-bit adjustments add to that. */
  function CarryOf(s: Sems, e: Event, i: nat): int
    requires SemsOk(s) && i < |s.vals|
  {
    if e.Op? then Carry(s, e.q, i) else 0
  }

  lemma LedgerStep(s: Sems, e: Event, i: nat)
    requires SemsOk(s) && Step(s, e).Some? && i < |s.vals|
    ensures var s' := Step(s, e).value;
            SemsOk(s') && |s'.vals| == |s.vals| && Total(s', i) == Total(s, i) + NetChange(s, e, i) + 0x1_0000 * CarryOf(s, e, i)
  {
    StepOk(s, e);
    if e.Op? {
      DoTotal(s, e.q, i);
    } else {
      ExactStep(s, e, i);
    }
  }

  function NetOver(s: Sems, events: seq<Event>, i: nat): int
    requires SemsOk(s) && Replay(s, events).Some? && i < |s.vals|
    decreases |events|
  {
    if events == [] then 0
    else
      StepOk(s, events[0]);
      NetChange(s, events[0], i) + NetOver(Step(s, events[0]).value, events[1..], i)
  }

  function CarryOver(s: Sems, events: seq<Event>, i: nat): int
    requires SemsOk(s) && Replay(s, events).Some? && i < |s.vals|
    decreases |events|
  {
    if events == [] then 0
    else
      StepOk(s, events[0]);
      CarryOf(s, events[0], i) + CarryOver(Step(s, events[0]).value, events[1..], i)
  }

  /** The state after the first event, and what is left of the run from there. */
  lemma FirstEvent(s: Sems, events: seq<Event>, i: nat) returns (s1: Sems)
    requires SemsOk(s) && Replay(s, events).Some? && i < |s.vals| && events != []
    ensures Step(s, events[0]) == Some(s1) && SemsOk(s1) && |s1.vals| == |s.vals|
    ensures Replay(s, events) == Replay(s1, events[1..])
    ensures NetOver(s, events, i) == NetChange(s, events[0], i) + NetOver(s1, events[1..], i)
    ensures CarryOver(s, events, i) == CarryOf(s, events[0], i) + CarryOver(s1, events[1..], i)
  {
    StepOk(s, events[0]);
    s1 := Step(s, events[0]).value;
  }

  lemma {:induction false} ReplayOk(s: Sems, events: seq<Event>)
    requires SemsOk(s) && Replay(s, events).Some?
    ensures SemsOk(Replay(s, events).value) && |Replay(s, events).value.vals| == |s.vals|
  {
    ReplayConcat(s, events, []);
  }

  function TotalAfter(s: Sems, events: seq<Event>, i: nat): int
    requires SemsOk(s) && Replay(s, events).Some? && i < |s.vals|
  {
    ReplayOk(s, events);
    Total(Replay(s, events).value, i)
  }

  /** Over every run, a value plus all live adjustments moves as the ledger says, and by the carries. */
  lemma {:induction false} LedgerRun(s: Sems, events: seq<Event>, i: nat)
    requires SemsOk(s) && Replay(s, events).Some? && i < |s.vals|
    ensures TotalAfter(s, events, i) == Total(s, i) + NetOver(s, events, i) + 0x1_0000 * CarryOver(s, events, i)
    decreases |events|
  {
    if events != [] {
      var s1 := FirstEvent(s, events, i);
      LedgerStep(s, events[0], i);
      LedgerRun(s1, events[1..], i);
      assert TotalAfter(s1, events[1..], i) == TotalAfter(s, events, i);
    }
  }

  /** No operation of the run leaves an adjustment to semaphore i that is not a `short`. */
  ghost predicate NoneWraps(s: Sems, events: seq<Event>, i: nat)
    requires SemsOk(s) && Replay(s, events).Some? && i < |s.vals|
    decreases |events|
  {
    events == [] ||
    (StepOk(s, events[0]);
     CarryOf(s, events[0], i) == 0 && NoneWraps(Step(s, events[0]).value, events[1..], i))
  }

  lemma {:induction false} ReplayPrefix(s: Sems, events: seq<Event>, n: nat)
    requires SemsOk(s) && Replay(s, events).Some? && n <= |events|
    ensures Replay(s, events[..n]).Some?
    decreases |events|
  {
    if n > 0 {
      StepOk(s, events[0]);
      assert events[..n][1..] == events[1..][..n - 1];
      ReplayPrefix(Step(s, events[0]).value, events[1..], n - 1);
    }
  }

  /** After the first n events the total is what the ledger says, to the unit. */
  ghost predicate ExactAt(s: Sems, events: seq<Event>, i: nat, n: nat)
    requires SemsOk(s) && Replay(s, events).Some? && i < |s.vals| && n <= |events|
  {
    ReplayPrefix(s, events, n);
    TotalAfter(s, events[..n], i) == Total(s, i) + NetOver(s, events[..n], i)
  }

  /** The ledger is exact all along a run if and only if no adjustment wraps. */
  lemma {:induction false} LedgerExact(s: Sems, events: seq<Event>, i: nat)
    requires SemsOk(s) && Replay(s, events).Some? && i < |s.vals|
    ensures (forall n: nat :: n <= |events| ==> ExactAt(s, events, i, n)) <==> NoneWraps(s, events, i)
    decreases |events|
  {
    if events != [] {
      StepOk(s, events[0]);
      var s1 := Step(s, events[0]).value;
      LedgerExact(s1, events[1..], i);
      forall n: nat | n <= |events|
        ensures n == 0 ==> ExactAt(s, events, i, n)
        ensures n > 0 && CarryOf(s, events[0], i) == 0 ==> (ExactAt(s, events, i, n) <==> ExactAt(s1, events[1..], i, n - 1))
        ensures n == 1 ==> (ExactAt(s, events, i, n) <==> CarryOf(s, events[0], i) == 0)
      {
        ExactFrom(s, events, i, s1, n);
      }
      if CarryOf(s, events[0], i) == 0 && forall n: nat :: n <= |events| ==> ExactAt(s, events, i, n) {
        forall n: nat | n <= |events[1..]|
          ensures ExactAt(s1, events[1..], i, n)
        {
          assert ExactAt(s, events, i, n + 1);
        }
      }
      assert ExactAt(s, events, i, 1) <==> CarryOf(s, events[0], i) == 0;
    } else {
      assert events[..0] == [];
      assert ExactAt(s, events, i, 0);
    }
  }

  lemma {:induction false} ExactFrom(s: Sems, events: seq<Event>, i: nat, s1: Sems, n: nat)
    requires SemsOk(s) && SemsOk(s1) && Replay(s, events).Some? && i < |s.vals| == |s1.vals| && events != []
    requires Step(s, events[0]) == Some(s1) && Replay(s1, events[1..]).Some? && n <= |events|
    ensures n == 0 ==> ExactAt(s, events, i, n)
    ensures n > 0 && CarryOf(s, events[0], i) == 0 ==> (ExactAt(s, events, i, n) <==> ExactAt(s1, events[1..], i, n - 1))
    ensures n == 1 ==> (ExactAt(s, events, i, n) <==> CarryOf(s, events[0], i) == 0)
  {
    ReplayPrefix(s, events, n);
    LedgerRun(s, events[..n], i);
    if n > 0 {
      assert events[..n][1..] == events[1..][..n - 1];
      ReplayPrefix(s1, events[1..], n - 1);
      LedgerRun(s1, events[1..][..n - 1], i);
      assert events[1..][..0] == [];
    } else {
      assert events[..0] == [];
    }
  }

  /** What all events but the operations of process pid add to the total of semaphore i. */
  function Foreign(s: Sems, events: seq<Event>, pid: nat, i: nat): int
    requires SemsOk(s) && Replay(s, events).Some? && i < |s.vals|
    decreases |events|
  {
    if events == [] then 0
    else
      StepOk(s, events[0]);
      (if events[0].Op? && events[0].q.pid == pid then 0 else NetChange(s, events[0], i))
      + Foreign(Step(s, events[0]).value, events[1..], pid, i)
  }

  /** A process that used SEM_UNDO in all its operations. */
  ghost predicate AlwaysUndoes(events: seq<Event>, pid: nat) {
    forall k, j :: 0 <= k < |events| && events[k].Op? && events[k].q.pid == pid && 0 <= j < |events[k].q.sops| ==>
                     events[k].q.sops[j].undo
  }

  lemma {:induction false} OnlyForeign(s: Sems, events: seq<Event>, pid: nat, i: nat)
    requires SemsOk(s) && Replay(s, events).Some? && i < |s.vals| && AlwaysUndoes(events, pid)
    ensures NetOver(s, events, i) == Foreign(s, events, pid, i)
    decreases |events|
  {
    if events != [] {
      StepOk(s, events[0]);
      if events[0].Op? && events[0].q.pid == pid {
        NetParts(events[0].q.sops, i);
      }
      assert forall k :: 0 <= k < |events[1..]| ==> events[1..][k] == events[k + 1];
      OnlyForeign(Step(s, events[0]).value, events[1..], pid, i);
    }
  }

  /** The adjustment of semaphore i at the exit of pid gives a semaphore value. */
  ghost predicate AdjustsInFull(s: Sems, pid: nat, i: nat)
    requires SemsOk(s) && i < |s.vals|
  {
    0 <= s.vals[i] + AdjOf(s.undo, pid, i) <= SEMVMX
  }

  /** An exit moves the total exactly if it cannot adjust in full, and then by less than a word. */
  lemma ExitShortfall(s: Sems, pid: nat, i: nat)
    requires SemsOk(s) && i < |s.vals|
    ensures NetChange(s, Exit(pid), i) == 0 <==> AdjustsInFull(s, pid, i)
    ensures -0x1_0000 < NetChange(s, Exit(pid), i) < 0x1_0000
  {
    ExitValueExact(s.vals[i], AdjOf(s.undo, pid, i));
  }

  /** A process that always used SEM_UNDO leaves no trace: after its exit the total is what all other events made it,
      exactly if the carries cancel and the exit adjusts in full. */
  lemma {:induction false} UndoLeavesNoTrace(s: Sems, events: seq<Event>, pid: nat, i: nat, s1: Sems)
    requires SemsOk(s) && Replay(s, events) == Some(s1) && i < |s.vals| && AlwaysUndoes(events, pid)
    ensures SemsOk(s1) && |s1.vals| == |s.vals| && Replay(s, events + [Exit(pid)]).Some?
    ensures TotalAfter(s, events + [Exit(pid)], i) == Total(s, i) + Foreign(s, events, pid, i)
            <==> CarryOver(s, events, i) == 0 && AdjustsInFull(s1, pid, i)
  {
    LedgerRun(s, events, i);
    OnlyForeign(s, events, pid, i);
    ReplayOk(s, events);
    LedgerStep(s1, Exit(pid), i);
    ExitShortfall(s1, pid, i);
    Extend(s, events, s1, Exit(pid), Step(s1, Exit(pid)).value);
    NoCancel(CarryOver(s, events, i), NetChange(s1, Exit(pid), i));
  }

  lemma NoCancel(c: int, d: int)
    requires -0x1_0000 < d < 0x1_0000
    ensures 0x1_0000 * c + d == 0 <==> c == 0 && d == 0
  {
  }

  // ---------- the set and its calls ----------

  /** A sleeper that has been taken off the queue, with the status it will return. */
  datatype Finished = Finished(q: Request, status: Verdict)

  function FinishedRequests(done: seq<Finished>): (r: seq<Request>)
    ensures |r| == |done| && forall k :: 0 <= k < |done| ==> r[k] == done[k].q
  {
    seq(|done|, k requires 0 <= k < |done| => done[k].q)
  }

  /** The events that finishing these sleepers in this order makes. */
  function FinishedEvents(done: seq<Finished>): seq<Event> {
    if done == [] then []
    else [FinishedEvent(done[0])] + FinishedEvents(done[1..])
  }

  function FinishedEvent(f: Finished): Event {
    if f.status == Go then Op(f.q) else Fail(f.q, f.status)
  }

  /** Nothing in the queue could go through or fail: everyone has to wait. */
  ghost predicate Quiescent(vals: seq<int>, pending: seq<Request>) {
    forall k :: 0 <= k < |pending| ==> OpsFit(pending[k].sops, |vals|) && Try(vals, pending[k].sops) == Wait
  }

  ghost predicate QueueOk(s: Sems, pending: seq<Request>) {
    forall k :: 0 <= k < |pending| ==> RequestOk(s, pending[k])
  }

  /** The processes with undo structures are the same. */
  lemma DoKeepsQueue(s: Sems, q: Request, pending: seq<Request>)
    requires SemsOk(s) && RequestOk(s, q) && QueueOk(s, pending)
    ensures QueueOk(Do(s, q), pending)
  {
    var s' := Do(s, q);
    forall k | 0 <= k < |pending|
      ensures RequestOk(s', pending[k])
    {
      assert RequestOk(s, pending[k]);
      if HasUndo(s.undo, pending[k].pid) {
        var j :| 0 <= j < |s.undo| && s.undo[j].pid == pending[k].pid;
        assert s'.undo[j].pid == pending[k].pid;
      }
    }
  }

  const SEMOPM: nat := 32

  datatype Result = Done | Slept | Failed(why: Verdict) | BadCount | TooMany | TooBig | NoMemory

  /** The result of operations on which the dry run gives verdict v. */
  predicate Follows(r: Result, v: Verdict) {
    match r
    case Done => v == Go
    case Slept => v == Wait
    case NoMemory => v == Go || v == Wait
    case Failed(w) => v == w && w != Go && w != Wait
    case _ => false
  }

  /** A process's first operation with SEM_UNDO makes its undo structure. */
  ghost function FirstUndo(undo: seq<Undo>, q: Request): seq<Event> {
    if Undoes(q.sops) && !HasUndo(undo, q.pid) then [MakeUndo(q.pid)] else []
  }

  /** Sleepers leave the queue, finished, and none is lost. */
  ghost predicate Left(was: seq<Request>, done: seq<Finished>, now: seq<Request>) {
    multiset(now) + multiset(FinishedRequests(done)) == multiset(was)
  }

  /** The queue still finds its undo structures if every process keeps its own. */
  lemma QueueKept(s: Sems, s': Sems, pending: seq<Request>)
    requires QueueOk(s, pending) && |s'.vals| == |s.vals|
    requires forall k :: 0 <= k < |pending| && HasUndo(s.undo, pending[k].pid) ==> HasUndo(s'.undo, pending[k].pid)
    ensures QueueOk(s', pending)
  {
    forall k | 0 <= k < |pending|
      ensures RequestOk(s', pending[k])
    {
      assert RequestOk(s, pending[k]);
    }
  }

  /** Undo structures of the same processes, in the same order. */
  lemma SamePids(undo: seq<Undo>, undo': seq<Undo>, pid: nat)
    requires |undo| == |undo'| && forall k :: 0 <= k < |undo| ==> undo'[k].pid == undo[k].pid
    ensures HasUndo(undo, pid) ==> HasUndo(undo', pid)
  {
    if HasUndo(undo, pid) {
      var j :| 0 <= j < |undo| && undo[j].pid == pid;
      assert undo'[j].pid == pid;
    }
  }

  lemma NewUndoOk(s: Sems, pid: nat, pending: seq<Request>)
    requires SemsOk(s) && QueueOk(s, pending) && !HasUndo(s.undo, pid)
    ensures var s' := Step(s, MakeUndo(pid)).value;
            SemsOk(s') && QueueOk(s', pending) && HasUndo(s'.undo, pid)
  {
    var s' := Step(s, MakeUndo(pid)).value;
    StepOk(s, MakeUndo(pid));
    assert s'.undo[0].pid == pid;
    forall k | 0 <= k < |pending| && HasUndo(s.undo, pending[k].pid)
      ensures HasUndo(s'.undo, pending[k].pid)
    {
      var j :| 0 <= j < |s.undo| && s.undo[j].pid == pending[k].pid;
      assert s'.undo[j + 1].pid == pending[k].pid;
    }
    QueueKept(s, s', pending);
  }

  lemma ClearedOk(s: Sems, num: nat, pending: seq<Request>)
    requires SemsOk(s) && QueueOk(s, pending) && num < |s.vals|
    ensures forall val :: 0 <= val <= SEMVMX ==>
              var s' := Step(s, SetVal(num, val)).value; SemsOk(s') && QueueOk(s', pending)
  {
    forall val | 0 <= val <= SEMVMX
      ensures var s' := Step(s, SetVal(num, val)).value; SemsOk(s') && QueueOk(s', pending)
    {
      var s' := Step(s, SetVal(num, val)).value;
      StepOk(s, SetVal(num, val));
      forall pid
        ensures HasUndo(s.undo, pid) ==> HasUndo(s'.undo, pid)
      {
        SamePids(s.undo, s'.undo, pid);
      }
      QueueKept(s, s', pending);
    }
  }

  lemma AllClearedOk(s: Sems, vals: seq<int>, pending: seq<Request>)
    requires SemsOk(s) && QueueOk(s, pending) && |vals| == |s.vals| && ValuesOk(vals)
    ensures var s' := Step(s, SetAll(vals)).value; SemsOk(s') && QueueOk(s', pending)
  {
    var s' := Step(s, SetAll(vals)).value;
    StepOk(s, SetAll(vals));
    forall pid
      ensures HasUndo(s.undo, pid) ==> HasUndo(s'.undo, pid)
    {
      SamePids(s.undo, s'.undo, pid);
    }
    QueueKept(s, s', pending);
  }

  lemma DroppedOk(s: Sems, pid: nat, pending: seq<Request>)
    requires SemsOk(s) && QueueOk(s, pending) && forall k :: 0 <= k < |pending| ==> pending[k].pid != pid
    ensures var s' := Step(s, Exit(pid)).value; SemsOk(s') && QueueOk(s', pending) && !HasUndo(s'.undo, pid)
  {
    var s' := Step(s, Exit(pid)).value;
    StepOk(s, Exit(pid));
    var un := IndexOf(s.undo, pid);
    forall k | 0 <= k < |pending| && HasUndo(s.undo, pending[k].pid)
      ensures HasUndo(s'.undo, pending[k].pid)
    {
      var j :| 0 <= j < |s.undo| && s.undo[j].pid == pending[k].pid;
      if un < |s.undo| {
        assert s'.undo[if j < un then j else j - 1].pid == pending[k].pid;
      }
    }
    QueueKept(s, s', pending);
  }

  class SemSet {
    const semval: array<int>
    var pending: seq<Request>
    var undo: seq<Undo>

    ghost function State(): Sems
      reads this, semval
    {
      Sems(semval[..], undo)
    }

    /** The state between the parts of a call. */
    ghost predicate Sane()
      reads this, semval
    {
      SemsOk(State()) && QueueOk(State(), pending)
    }

    /** The state between calls: no sleeper could go on. */
    ghost predicate Valid()
      reads this, semval
    {
      Sane() && Quiescent(semval[..], pending)
    }

    constructor (nsems: nat)
      ensures Valid() && fresh(semval) && State() == Sems(Zeros(nsems), []) && pending == []
    {
      semval := new int[nsems](_ => 0);
      pending, undo := [], [];
    }

    /** `try_semop`: do the operations until one cannot be done, then take them back. */
    method TrySemop(sops: seq<SemOp>) returns (result: Verdict)
      requires SemsOk(State()) && OpsFit(sops, semval.Length)
      modifies semval
      ensures semval[..] == old(semval[..])
      ensures result == Try(semval[..], sops)
      ensures result == Go <==> Feasible(semval[..], sops)
    {
      ghost var vals := semval[..];
      TryIsFeasible(vals, sops);
      result := Go;
      var i := 0;
      assert sops[..0] == [];
      while i < |sops|
        invariant 0 <= i <= |sops|
        invariant semval[..] == Apply(vals, sops[..i]) && Try(vals, sops[..i]) == Go
        invariant ValuesOk(semval[..])
        invariant result == Go
      {
        var sop := sops[i];
        TryNext(vals, sops, i);
        if sop.op + semval[sop.num] > SEMVMX {
          result := ERange;
          break;
        }
        if sop.op == 0 && semval[sop.num] != 0 {
          result := Blocked(sop);
          break;
        }
        i := i + 1;
        assert IsShort(semval[sop.num] + sop.op);
        semval[sop.num] := semval[sop.num] + sop.op;
        if semval[sop.num] < 0 {
          result := Blocked(sop);
          break;
        }
      }
      assert sops[..|sops|] == sops;
      TakeBack(sops, i, vals);
    }

    /** The loop that takes the first n operations back. */
    method TakeBack(sops: seq<SemOp>, n: nat, ghost vals: seq<int>)
      requires |vals| == semval.Length && OpsFit(sops, |vals|) && n <= |sops| && semval[..] == Apply(vals, sops[..n])
      modifies semval
      ensures semval[..] == vals
    {
      var i := n;
      while i > 0
        invariant 0 <= i <= |sops|
        invariant semval[..] == Apply(vals, sops[..i])
      {
        i := i - 1;
        var sop := sops[i];
        StepForward(vals, sops, i);
        semval[sop.num] := semval[sop.num] - sop.op;
      }
      assert sops[..0] == [];
    }

    /** `do_semop`: the operations for good, with their undo charges.  It meets a race exactly when the dry run
        would not have said go. */
    method DoSemop(q: Request) returns (race: bool)
      requires SemsOk(State()) && RequestOk(State(), q)
      modifies semval, this`undo
      ensures race <==> Try(old(semval[..]), q.sops) != Go
      ensures !race ==> State() == Do(old(State()), q)
    {
      ghost var s := State();
      var sops := q.sops;
      var un := IndexOf(undo, q.pid);
      var i := 0;
      DoneFirst(s, q);
      while i < |sops|
        invariant 0 <= i <= |sops| && DoneTo(s, q, i, State())
      {
        DoNext(s, q, un, i, State());
        race := DoOne(sops[i], un);
        if race {
          return;
        }
        i := i + 1;
      }
      assert sops[..i] == sops;
      return false;
    }

    /** One operation of the loop of `do_semop`. */
    method DoOne(sop: SemOp, un: nat) returns (race: bool)
      requires sop.num < semval.Length && (sop.undo ==> un < |undo| && sop.num < |undo[un].adj|)
      modifies semval, this`undo
      ensures race <==> OpVerdict(old(semval[sop.num]), sop) != Go
      ensures !race ==> State() == AfterOp(old(State()), sop, un)
    {
      if sop.op + semval[sop.num] > SEMVMX {
        return true;
      }
      if sop.op == 0 {
        return semval[sop.num] != 0;
      }
      semval[sop.num] := semval[sop.num] + sop.op;
      if semval[sop.num] < 0 {
        return true;
      }
      if sop.undo {
        undo := undo[un := ChargeNext(undo[un], sop)];
      }
      return false;
    }

    /** The body of the loop of `update_queue`: entry i stays if it has to wait; else it is finished and leaves. */
    method UpdateEntry(i: nat) returns (stays: bool, f: Finished)
      requires Sane() && i < |pending|
      modifies semval, this`undo, this`pending
      ensures Sane() && f == Finished(old(pending)[i], Try(old(semval[..]), old(pending)[i].sops))
      ensures stays <==> f.status == Wait
      ensures stays ==> pending == old(pending) && State() == old(State())
      ensures !stays ==> pending == old(pending)[..i] + old(pending)[i + 1..]
      ensures !stays ==> State() == if f.status == Go then Do(old(State()), f.q) else old(State())
    {
      var q := pending[i];
      var error := TrySemop(q.sops);
      f := Finished(q, error);
      assert State() == old(State());
      if error == Wait {
        return true, f;
      }
      if error == Go {
        DoKeepsQueue(State(), q, pending);
        DoOk(State(), q);
        var _ := DoSemop(q);
      }
      pending := pending[..i] + pending[i + 1..];
      return false, f;
    }

    /** One pass of `update_queue` over the queue, in order: whoever need not wait is finished and leaves it. */
    method UpdatePass() returns (done: seq<Finished>)
      requires Sane()
      modifies semval, this`undo, this`pending
      ensures Sane() && |pending| + |done| == |old(pending)|
      ensures done == [] ==> Quiescent(semval[..], pending)
      ensures Left(old(pending), done, pending)
      ensures Replay(old(State()), FinishedEvents(done)) == Some(State())
    {
      done := [];
      var i := 0;
      while i < |pending|
        invariant 0 <= i <= |pending| && Sane() && |pending| + |done| == |old(pending)|
        invariant done == [] ==> Quiescent(semval[..], pending[..i])
        invariant Left(old(pending), done, pending)
        invariant Replay(old(State()), FinishedEvents(done)) == Some(State())
        decreases |pending| - i
      {
        ghost var was, queue := State(), pending;
        var stays, f := UpdateEntry(i);
        if stays {
          i := i + 1;
        } else {
          FinishOne(old(State()), done, was, f.q, f.status, State());
          RemoveOne(queue, i, done, f);
          done := done + [f];
        }
      }
    }

    /** `update_queue`: passes until one finishes nobody. */
    method UpdateQueue() returns (done: seq<Finished>)
      requires Sane()
      modifies semval, this`undo, this`pending
      ensures Valid()
      ensures Left(old(pending), done, pending)
      ensures Replay(old(State()), FinishedEvents(done)) == Some(State())
    {
      done := [];
      while true
        invariant Sane()
        invariant Left(old(pending), done, pending)
        invariant Replay(old(State()), FinishedEvents(done)) == Some(State())
        decreases |pending|
      {
        var more := UpdatePass();
        if more == [] {
          break;
        }
        FinishMore(old(State()), done, more);
        done := done + more;
      }
    }

    /** An undo structure of zeros for a process that has none. */
    method EnsureUndo(pid: nat) returns (ghost events: seq<Event>)
      requires Valid()
      modifies this`undo
      ensures Valid() && HasUndo(undo, pid) && Replay(old(State()), events) == Some(State())
      ensures events == if old(HasUndo(undo, pid)) then [] else [MakeUndo(pid)]
    {
      events := [];
      var un := IndexOf(undo, pid);
      if un == |undo| {
        ghost var was := State();
        NewUndoOk(was, pid, pending);
        undo := [Undo(pid, Zeros(semval.Length))] + undo;
        Extend(was, [], was, MakeUndo(pid), State());
        events := [] + [MakeUndo(pid)];
      }
    }

    /** The loop of `sys_semop` over the operations. */
    method CheckOps(sops: seq<SemOp>) returns (fit: bool, undos: bool)
      ensures fit <==> forall k :: 0 <= k < |sops| ==> sops[k].num < semval.Length
      ensures fit ==> (undos <==> Undoes(sops))
    {
      var i := 0;
      undos := false;
      while i < |sops|
        invariant 0 <= i <= |sops|
        invariant forall k :: 0 <= k < i ==> sops[k].num < semval.Length
        invariant undos <==> exists k :: 0 <= k < i && sops[k].undo
      {
        if sops[i].num >= semval.Length {
          return false, undos;
        }
        undos := undos || sops[i].undo;
        i := i + 1;
      }
      return true, undos;
    }

    /** `sys_semop`, up to its return or its sleep. */
    method SysSemop(q: Request, memory: bool) returns (r: Result, done: seq<Finished>)
      requires Valid() && forall k :: 0 <= k < |q.sops| ==> IsShort(q.sops[k].op)
      modifies semval, this
      ensures Valid()
      ensures r == BadCount <==> |q.sops| < 1
      ensures r == TooMany <==> |q.sops| > SEMOPM
      ensures r == TooBig <==> 1 <= |q.sops| <= SEMOPM && !OpsFit(q.sops, semval.Length)
      ensures !r.BadCount? && !r.TooMany? && !r.TooBig? ==> Follows(r, Try(old(semval[..]), q.sops))
      ensures r.NoMemory? || r.Done? || r.Slept? ==> (r.NoMemory? <==> !memory && FirstUndo(old(undo), q) != [])
      ensures !r.Done? && !r.Slept? ==> State() == old(State()) && pending == old(pending)
      ensures r.Slept? ==> pending == old(pending) + [q] && Replay(old(State()), FirstUndo(old(undo), q)) == Some(State())
      ensures r.Done? ==> Left(old(pending), done, pending)
                          && Replay(old(State()), FirstUndo(old(undo), q) + [Op(q)] + FinishedEvents(done)) == Some(State())
    {
      done := [];
      if |q.sops| < 1 {
        return BadCount, done;
      }
      if |q.sops| > SEMOPM {
        return TooMany, done;
      }
      var fit, undos := CheckOps(q.sops);
      if !fit {
        return TooBig, done;
      }
      var error := TrySemop(q.sops);
      if error != Go && error != Wait {
        return Failed(error), done;
      }
      ghost var events := [];
      if undos {
        var un := IndexOf(undo, q.pid);
        if un == |undo| && !memory {
          return NoMemory, done;
        }
        events := EnsureUndo(q.pid);
      }
      assert RequestOk(State(), q);
      if error == Wait {
        pending := pending + [q];
        return Slept, done;
      }
      ghost var was := State();
      GoThrough(q);
      Extend(old(State()), events, was, Op(q), State());
      done := UpdateQueue();
      ReplayConcat(old(State()), events + [Op(q)], FinishedEvents(done));
      return Done, done;
    }

    /** Operations that go through at once. */
    method GoThrough(q: Request)
      requires Sane() && RequestOk(State(), q) && Try(semval[..], q.sops) == Go
      modifies semval, this`undo
      ensures Sane() && State() == Do(old(State()), q)
    {
      DoKeepsQueue(State(), q, pending);
      DoOk(State(), q);
      var _ := DoSemop(q);
    }

    /** A signal takes a sleeper off the queue. */
    method Interrupt(k: nat)
      requires Valid() && k < |pending|
      modifies this`pending
      ensures Valid() && pending == old(pending)[..k] + old(pending)[k + 1..]
    {
      pending := pending[..k] + pending[k + 1..];
    }

    /** SETVAL. */
    method SetValue(num: nat, val: int) returns (ok: bool, done: seq<Finished>)
      requires Valid()
      modifies semval, this
      ensures Valid()
      ensures ok <==> num < semval.Length && 0 <= val <= SEMVMX
      ensures ok ==> Left(old(pending), done, pending)
                     && Replay(old(State()), [SetVal(num, val)] + FinishedEvents(done)) == Some(State())
      ensures !ok ==> State() == old(State()) && pending == old(pending)
    {
      done := [];
      if num >= semval.Length || val > SEMVMX || val < 0 {
        return false, done;
      }
      ghost var was := State();
      ClearedOk(was, num, pending);
      undo := ClearAdj(undo, num);
      semval[num] := val;
      assert State() == Step(was, SetVal(num, val)).value;
      done := UpdateAfter(was, SetVal(num, val));
      return true, done;
    }

    /** SETALL. */
    method SetAllValues(vals: seq<int>) returns (ok: bool, done: seq<Finished>)
      requires Valid() && |vals| == semval.Length && forall i :: 0 <= i < |vals| ==> 0 <= vals[i]
      modifies semval, this
      ensures Valid()
      ensures ok <==> ValuesOk(vals)
      ensures ok ==> Left(old(pending), done, pending)
                     && Replay(old(State()), [SetAll(vals)] + FinishedEvents(done)) == Some(State())
      ensures !ok ==> State() == old(State()) && pending == old(pending)
    {
      done := [];
      var i := 0;
      while i < |vals|
        invariant 0 <= i <= |vals|
        invariant forall k :: 0 <= k < i ==> vals[k] <= SEMVMX
      {
        if vals[i] > SEMVMX {
          return false, done;
        }
        i := i + 1;
      }
      ghost var was := State();
      AllClearedOk(was, vals, pending);
      forall k | 0 <= k < semval.Length {
        semval[k] := vals[k];
      }
      undo := ClearAll(undo);
      assert semval[..] == vals;
      done := UpdateAfter(was, SetAll(vals));
      return true, done;
    }

    /** `update_queue` after an event. */
    method UpdateAfter(ghost was: Sems, ghost e: Event) returns (done: seq<Finished>)
      requires Sane() && SemsOk(was) && Step(was, e) == Some(State())
      modifies semval, this`undo, this`pending
      ensures Valid() && Left(old(pending), done, pending)
      ensures Replay(was, [e] + FinishedEvents(done)) == Some(State())
    {
      ghost var now := State();
      Extend(was, [], was, e, now);
      assert [] + [e] == [e];
      done := UpdateQueue();
      ReplayConcat(was, [e], FinishedEvents(done));
    }

    /** The loop of `sem_exit` that makes the adjustments. */
    method Adjust(adj: seq<int>)
      requires |adj| == semval.Length
      modifies semval
      ensures semval[..] == ExitVals(old(semval[..]), adj)
    {
      var i := 0;
      while i < semval.Length
        invariant 0 <= i <= semval.Length
        invariant forall k :: 0 <= k < semval.Length ==>
                    semval[k] == if k < i then ExitValue(old(semval[k]), adj[k]) else old(semval[k])
      {
        semval[i] := Wrap16(semval[i] + adj[i]);
        if semval[i] < 0 {
          semval[i] := 0;
        }
        i := i + 1;
      }
    }

    /** `sem_exit` for this set; `asleep` is the process's place in the queue, if it is in it. */
    method SemExit(pid: nat, asleep: Option<nat>) returns (done: seq<Finished>)
      requires Valid() && (asleep.Some? ==> asleep.value < |pending|)
      requires forall k :: 0 <= k < |pending| && pending[k].pid == pid ==> asleep == Some(k)
      modifies semval, this
      ensures Valid() && Replay(old(State()), [Exit(pid)] + FinishedEvents(done)) == Some(State())
      ensures match asleep
              case None => Left(old(pending), done, pending)
              case Some(k) => Left(old(pending)[..k] + old(pending)[k + 1..], done, pending)
    {
      if asleep.Some? {
        Interrupt(asleep.value);
      }
      ghost var was := State();
      var un := IndexOf(undo, pid);
      DroppedOk(was, pid, pending);
      if un < |undo| {
        var adj := undo[un].adj;
        undo := Drop(undo, un);
        Adjust(adj);
        done := UpdateAfter(was, Exit(pid));
      } else {
        done := [];
        Extend(was, [], was, Exit(pid), State());
        assert [Exit(pid)] + FinishedEvents(done) == [] + [Exit(pid)];
      }
    }
  }

  /** One more operation applied. */
  lemma {:induction false} StepForward(vals: seq<int>, sops: seq<SemOp>, i: nat)
    requires OpsFit(sops, |vals|) && i < |sops|
    ensures var before := Apply(vals, sops[..i]);
            Apply(vals, sops[..i + 1]) == before[sops[i].num := before[sops[i].num] + sops[i].op]
  {
    assert sops[..i + 1] == sops[..i] + [sops[i]];
    ApplySnoc(vals, sops[..i], sops[i]);
  }

  /** The verdict on one operation that finds the value v. */
  function OpVerdict(v: int, s: SemOp): Verdict {
    if s.op + v > SEMVMX then ERange
    else if s.op == 0 && v != 0 then Blocked(s)
    else if v + s.op < 0 then Blocked(s)
    else Go
  }

  lemma TryOne(vals: seq<int>, sops: seq<SemOp>)
    requires OpsFit(sops, |vals|) && sops != []
    ensures var r := OpVerdict(vals[sops[0].num], sops[0]); Try(vals, [sops[0]]) == r && (r != Go ==> Try(vals, sops) == r)
  {
    assert [sops[0]][1..] == [];
  }

  /** The verdict as seen at operation i, when all before it could be done. */
  lemma {:induction false} TryNext(vals: seq<int>, sops: seq<SemOp>, i: nat)
    requires OpsFit(sops, |vals|) && i < |sops| && Try(vals, sops[..i]) == Go
    ensures var before, s := Apply(vals, sops[..i]), sops[i];
            var r := OpVerdict(before[s.num], s);
            && Try(vals, sops[..i + 1]) == r && (r != Go ==> Try(vals, sops) == r)
            && Apply(vals, sops[..i + 1]) == before[s.num := before[s.num] + s.op]
  {
    assert sops == sops[..i] + sops[i..];
    TrySplit(vals, sops[..i], sops[i..]);
    assert sops[..i + 1] == sops[..i] + [sops[i]];
    TrySplit(vals, sops[..i], [sops[i]]);
    TryOne(Apply(vals, sops[..i]), sops[i..]);
    StepForward(vals, sops, i);
  }

  /** The charges of the first i operations of a request. */
  function ChargeUpTo(undo: seq<Undo>, nsems: nat, q: Request, i: nat): (r: seq<Undo>)
    requires UndoOk(undo, nsems) && OpsFit(q.sops, nsems) && i <= |q.sops|
    ensures |r| == |undo|
    ensures forall k :: 0 <= k < |r| ==> |r[k].adj| == nsems && r[k].pid == undo[k].pid && forall j :: 0 <= j < nsems ==> IsShort(r[k].adj[j])
  {
    ChargeTo(undo, q.pid, q.sops[..i])
  }

  /** The first i operations of the request have been done. */
  ghost predicate DoneTo(s: Sems, q: Request, i: nat, now: Sems)
    requires SemsOk(s) && RequestOk(s, q) && i <= |q.sops|
  {
    && Try(s.vals, q.sops[..i]) == Go && now.vals == Apply(s.vals, q.sops[..i])
    && now.undo == ChargeUpTo(s.undo, |s.vals|, q, i)
  }

  /** The state after one operation of the process whose undo structure is number un. */
  function AfterOp(s: Sems, sop: SemOp, un: nat): Sems
    requires sop.num < |s.vals| && (sop.undo ==> un < |s.undo| && sop.num < |s.undo[un].adj|)
  {
    Sems(s.vals[sop.num := s.vals[sop.num] + sop.op],
         if sop.op != 0 && sop.undo then s.undo[un := ChargeNext(s.undo[un], sop)] else s.undo)
  }

  lemma {:induction false} DoneFirst(s: Sems, q: Request)
    requires SemsOk(s) && RequestOk(s, q)
    ensures DoneTo(s, q, 0, s)
  {
    assert q.sops[..0] == [];
    ChargeNothing(s.undo, q.pid);
  }

  lemma {:induction false} DoNext(s: Sems, q: Request, un: nat, i: nat, now: Sems)
    requires SemsOk(s) && RequestOk(s, q) && i < |q.sops| && DoneTo(s, q, i, now) && un == IndexOf(s.undo, q.pid)
    ensures OpVerdict(now.vals[q.sops[i].num], q.sops[i]) != Go ==> Try(s.vals, q.sops) != Go
    ensures q.sops[i].undo ==> un < |now.undo| && q.sops[i].num < |now.undo[un].adj|
    ensures OpVerdict(now.vals[q.sops[i].num], q.sops[i]) == Go ==> DoneTo(s, q, i + 1, AfterOp(now, q.sops[i], un))
  {
    TryNext(s.vals, q.sops, i);
    ChargeOne(s.undo, |s.vals|, q, un, i);
    if q.sops[i].op == 0 {
      ChargeZero(s.undo, |s.vals|, q, i);
    }
  }

  lemma ChargeNothing(undo: seq<Undo>, pid: nat)
    ensures ChargeTo(undo, pid, []) == undo
  {
  }

  lemma {:induction false} ChargeSnoc(adj: seq<int>, sops: seq<SemOp>, s: SemOp)
    requires OpsFit(sops, |adj|) && s.num < |adj| && IsShort(s.op)
    ensures var c := Charge(adj, sops);
            Charge(adj, sops + [s]) == if s.undo then c[s.num := Wrap16(c[s.num] - s.op)] else c
    decreases |sops|
  {
    if sops == [] {
      assert sops + [s] == [s] && [s][1..] == [];
    } else {
      assert (sops + [s])[1..] == sops[1..] + [s];
      var h := sops[0];
      ChargeSnoc(if h.undo then adj[h.num := Wrap16(adj[h.num] - h.op)] else adj, sops[1..], s);
    }
  }

  function ChargeNext(u: Undo, s: SemOp): Undo
    requires s.num < |u.adj|
  {
    if s.undo then Undo(u.pid, u.adj[s.num := Wrap16(u.adj[s.num] - s.op)]) else u
  }

  lemma {:induction false} ChargedSnoc(u: Undo, pid: nat, sops: seq<SemOp>, i: nat)
    requires OpsFit(sops, |u.adj|) && i < |sops| && u.pid == pid
    ensures Charged(u, pid, sops[..i + 1]) == ChargeNext(Charged(u, pid, sops[..i]), sops[i])
  {
    assert sops[..i + 1] == sops[..i] + [sops[i]];
    ChargeSnoc(u.adj, sops[..i], sops[i]);
  }

  /** The charge of one more operation changes the process's own structure, in one place. */
  lemma {:induction false} ChargeOne(undo: seq<Undo>, nsems: nat, q: Request, un: nat, i: nat)
    requires UndoOk(undo, nsems) && OpsFit(q.sops, nsems) && i < |q.sops| && un == IndexOf(undo, q.pid)
    requires Undoes(q.sops) ==> HasUndo(undo, q.pid)
    ensures q.sops[i].undo ==> un < |undo|
    ensures var c, s := ChargeUpTo(undo, nsems, q, i), q.sops[i];
            ChargeUpTo(undo, nsems, q, i + 1) == if un < |undo| then c[un := ChargeNext(c[un], s)] else c
  {
    assert q.sops[i].undo ==> Undoes(q.sops);
    var c, d := ChargeUpTo(undo, nsems, q, i), ChargeUpTo(undo, nsems, q, i + 1);
    if un < |undo| {
      ChargedSnoc(undo[un], q.pid, q.sops, i);
    }
    forall k | 0 <= k < |undo| && k != un
      ensures d[k] == c[k]
    {
      assert undo[k].pid != q.pid;
    }
  }

  lemma {:induction false} ChargeZero(undo: seq<Undo>, nsems: nat, q: Request, i: nat)
    requires UndoOk(undo, nsems) && OpsFit(q.sops, nsems) && i < |q.sops| && q.sops[i].op == 0
    requires Undoes(q.sops) ==> HasUndo(undo, q.pid)
    ensures ChargeUpTo(undo, nsems, q, i + 1) == ChargeUpTo(undo, nsems, q, i)
  {
    var un := IndexOf(undo, q.pid);
    ChargeOne(undo, nsems, q, un, i);
    var c, s := ChargeUpTo(undo, nsems, q, i), q.sops[i];
    if un < |undo| {
      SameCharge(c[un], s);
      assert c[un := c[un]] == c;
    }
  }

  lemma SameCharge(u: Undo, s: SemOp)
    requires s.op == 0 && s.num < |u.adj| && IsShort(u.adj[s.num])
    ensures ChargeNext(u, s) == u
  {
    assert u.adj[s.num := u.adj[s.num]] == u.adj;
  }

  lemma {:induction false} FinishedEventsConcat(a: seq<Finished>, b: seq<Finished>)
    ensures FinishedEvents(a + b) == FinishedEvents(a) + FinishedEvents(b)
  {
    if a == [] {
      assert a + b == b;
    } else {
      assert (a + b)[1..] == a[1..] + b;
      FinishedEventsConcat(a[1..], b);
      var h := [FinishedEvent(a[0])];
      assert h + (FinishedEvents(a[1..]) + FinishedEvents(b)) == (h + FinishedEvents(a[1..])) + FinishedEvents(b);
    }
  }

  /** One more sleeper finished: with its operations done, or with an error. */
  lemma {:induction false} FinishOne(s: Sems, done: seq<Finished>, was: Sems, q: Request, status: Verdict, now: Sems)
    requires SemsOk(s) && Replay(s, FinishedEvents(done)) == Some(was) && SemsOk(was) && RequestOk(was, q)
    requires Try(was.vals, q.sops) == status != Wait && now == if status == Go then Do(was, q) else was
    ensures Replay(s, FinishedEvents(done + [Finished(q, status)])) == Some(now)
  {
    var f := Finished(q, status);
    FinishedEventsConcat(done, [f]);
    assert [f][1..] == [];
    assert FinishedEvents([f]) == [FinishedEvent(f)];
    Extend(s, FinishedEvents(done), was, FinishedEvent(f), now);
  }

  lemma RemoveOne(pending: seq<Request>, i: nat, done: seq<Finished>, f: Finished)
    requires i < |pending| && f.q == pending[i]
    ensures multiset(pending[..i] + pending[i + 1..]) + multiset(FinishedRequests(done + [f]))
            == multiset(pending) + multiset(FinishedRequests(done))
  {
    assert pending == pending[..i] + [pending[i]] + pending[i + 1..];
    assert FinishedRequests(done + [f]) == FinishedRequests(done) + [f.q];
  }

  lemma {:induction false} FinishMore(s: Sems, done: seq<Finished>, more: seq<Finished>)
    requires SemsOk(s) && Replay(s, FinishedEvents(done)).Some?
    ensures SemsOk(Replay(s, FinishedEvents(done)).value)
    ensures Replay(s, FinishedEvents(done + more)) == Replay(Replay(s, FinishedEvents(done)).value, FinishedEvents(more))
    ensures multiset(FinishedRequests(done + more)) == multiset(FinishedRequests(done)) + multiset(FinishedRequests(more))
  {
    FinishedEventsConcat(done, more);
    ReplayConcat(s, FinishedEvents(done), FinishedEvents(more));
    assert FinishedRequests(done + more) == FinishedRequests(done) + FinishedRequests(more);
  }
}
