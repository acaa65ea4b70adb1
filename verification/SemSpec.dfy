/**
 System V semaphore sets as values: when a list of operations may go through,
 what it does, and the ledger that undo adjustments keep.
 */
module SemSpec {
  const SEMVMX: int := 32767

  /** A sum stored in a 16-bit two's-complement `short`. */
  function Wrap16(x: int): (r: int)
    ensures -32768 <= r <= 32767
    ensures -32768 <= x <= 32767 ==> r == x
  {
    (x + 32768) % 0x1_0000 - 32768
  }

  predicate IsShort(x: int) {
    -32768 <= x <= 32767
  }

  datatype SemOp = SemOp(num: nat, op: int, nowait: bool, undo: bool)

  /** The operations of one call, by one process. */
  datatype Request = Request(pid: nat, sops: seq<SemOp>)

  datatype Verdict = Go | Wait | ERange | EAgain

  predicate OpsFit(sops: seq<SemOp>, nsems: nat) {
    forall k :: 0 <= k < |sops| ==> sops[k].num < nsems && IsShort(sops[k].op)
  }

  predicate ValuesOk(vals: seq<int>) {
    forall i :: 0 <= i < |vals| ==> 0 <= vals[i] <= SEMVMX
  }

  // ---------- may a list of operations go through? ----------

  function Blocked(sop: SemOp): Verdict {
    if sop.nowait then EAgain else Wait
  }

  /** The first operation that cannot be done decides. */
  function Try(vals: seq<int>, sops: seq<SemOp>): Verdict
    requires OpsFit(sops, |vals|)
    decreases |sops|
  {
    if sops == [] then Go
    else
      var s := sops[0];
      var v := vals[s.num];
      if s.op + v > SEMVMX then ERange
      else if s.op == 0 && v != 0 then Blocked(s)
      else if v + s.op < 0 then Blocked(s)
      else Try(vals[s.num := v + s.op], sops[1..])
  }

  function Apply(vals: seq<int>, sops: seq<SemOp>): (r: seq<int>)
    requires OpsFit(sops, |vals|)
    ensures |r| == |vals|
    decreases |sops|
  {
    if sops == [] then vals else Apply(vals[sops[0].num := vals[sops[0].num] + sops[0].op], sops[1..])
  }

  /** The sum of the operations on semaphore i. */
  function Net(sops: seq<SemOp>, i: nat): int {
    if sops == [] then 0 else (if sops[0].num == i then sops[0].op else 0) + Net(sops[1..], i)
  }

  /** Done one after the other, every operation finds its semaphore ready: the value stays within
      0 .. SEMVMX, and a wait-for-zero finds zero. */
  ghost predicate Feasible(vals: seq<int>, sops: seq<SemOp>)
    requires OpsFit(sops, |vals|)
  {
    forall k :: 0 <= k < |sops| ==> Ready(vals, sops, k)
  }

  ghost predicate Ready(vals: seq<int>, sops: seq<SemOp>, k: nat)
    requires OpsFit(sops, |vals|) && k < |sops|
  {
    var s := sops[k];
    var v := vals[s.num] + Net(sops[..k], s.num);
    0 <= v + s.op <= SEMVMX && (s.op == 0 ==> v == 0)
  }

  lemma {:induction false} NetConcat(a: seq<SemOp>, b: seq<SemOp>, i: nat)
    ensures Net(a + b, i) == Net(a, i) + Net(b, i)
  {
    if a == [] {
      assert a + b == b;
    } else {
      assert (a + b)[1..] == a[1..] + b;
      NetConcat(a[1..], b, i);
    }
  }

  /** What applying a list of operations adds to each semaphore. */
  lemma {:induction false} ApplyAdds(vals: seq<int>, sops: seq<SemOp>, i: nat)
    requires OpsFit(sops, |vals|) && i < |vals|
    ensures Apply(vals, sops)[i] == vals[i] + Net(sops, i)
    decreases |sops|
  {
    if sops != [] {
      ApplyAdds(vals[sops[0].num := vals[sops[0].num] + sops[0].op], sops[1..], i);
    }
  }

  lemma ReadyTail(vals: seq<int>, sops: seq<SemOp>, k: nat)
    requires OpsFit(sops, |vals|) && 0 < k < |sops|
    ensures var s := sops[0];
            Ready(vals, sops, k) <==> Ready(vals[s.num := vals[s.num] + s.op], sops[1..], k - 1)
  {
    assert sops[..k] == [sops[0]] + sops[1..][..k - 1];
    NetConcat([sops[0]], sops[1..][..k - 1], sops[k].num);
    assert Net([sops[0]], sops[k].num) == if sops[0].num == sops[k].num then sops[0].op else 0;
    assert sops[1..][k - 1] == sops[k];
  }

  /** The dry run says go exactly when the operations, one after the other, are all possible. */
  lemma {:induction false} TryIsFeasible(vals: seq<int>, sops: seq<SemOp>)
    requires OpsFit(sops, |vals|)
    ensures Try(vals, sops) == Go <==> Feasible(vals, sops)
    decreases |sops|
  {
    if sops != [] {
      var s := sops[0];
      var vals1 := vals[s.num := vals[s.num] + s.op];
      TryIsFeasible(vals1, sops[1..]);
      assert sops[..0] == [];
      assert Ready(vals, sops, 0) <==> 0 <= vals[s.num] + s.op <= SEMVMX && (s.op == 0 ==> vals[s.num] == 0);
      if Feasible(vals, sops) {
        forall k | 0 <= k < |sops[1..]|
          ensures Ready(vals1, sops[1..], k)
        {
          ReadyTail(vals, sops, k + 1);
        }
      }
      if Ready(vals, sops, 0) && Feasible(vals1, sops[1..]) {
        forall k | 0 <= k < |sops|
          ensures Ready(vals, sops, k)
        {
          if k > 0 {
            ReadyTail(vals, sops, k);
            assert Ready(vals1, sops[1..], k - 1);
          }
        }
      }
    }
  }

  /** Operations that go through leave every value in range. */
  lemma {:induction false} ApplyInRange(vals: seq<int>, sops: seq<SemOp>)
    requires OpsFit(sops, |vals|) && ValuesOk(vals) && Try(vals, sops) == Go
    ensures ValuesOk(Apply(vals, sops))
    decreases |sops|
  {
    if sops != [] {
      ApplyInRange(vals[sops[0].num := vals[sops[0].num] + sops[0].op], sops[1..]);
    }
  }

  lemma {:induction false} ApplySnoc(vals: seq<int>, sops: seq<SemOp>, s: SemOp)
    requires OpsFit(sops, |vals|) && s.num < |vals| && IsShort(s.op)
    ensures Apply(vals, sops + [s]) == Apply(vals, sops)[s.num := Apply(vals, sops)[s.num] + s.op]
    decreases |sops|
  {
    if sops == [] {
      assert sops + [s] == [s] && [s][1..] == [];
    } else {
      assert (sops + [s])[1..] == sops[1..] + [s];
      ApplySnoc(vals[sops[0].num := vals[sops[0].num] + sops[0].op], sops[1..], s);
    }
  }

  /** The dry run from the middle: what has been done so far decides nothing yet. */
  lemma {:induction false} TrySplit(vals: seq<int>, a: seq<SemOp>, b: seq<SemOp>)
    requires OpsFit(a, |vals|) && OpsFit(b, |vals|) && OpsFit(a + b, |vals|) && Try(vals, a) == Go
    ensures Try(vals, a + b) == Try(Apply(vals, a), b)
    decreases |a|
  {
    if a == [] {
      assert a + b == b;
    } else {
      assert (a + b)[1..] == a[1..] + b;
      TrySplit(vals[a[0].num := vals[a[0].num] + a[0].op], a[1..], b);
    }
  }

  // ---------- undo adjustments ----------

  /** A process's adjustments to one set, one `short` per semaphore. */
  datatype Undo = Undo(pid: nat, adj: seq<int>)

  datatype Sems = Sems(vals: seq<int>, undo: seq<Undo>)

  predicate UndoOk(undo: seq<Undo>, nsems: nat) {
    && (forall k :: 0 <= k < |undo| ==> |undo[k].adj| == nsems)
    && (forall k, i :: 0 <= k < |undo| && 0 <= i < |undo[k].adj| ==> IsShort(undo[k].adj[i]))
    && (forall k, l :: 0 <= k < l < |undo| ==> undo[k].pid != undo[l].pid)
  }

  predicate HasUndo(undo: seq<Undo>, pid: nat) {
    exists k :: 0 <= k < |undo| && undo[k].pid == pid
  }

  predicate Undoes(sops: seq<SemOp>) {
    exists k :: 0 <= k < |sops| && sops[k].undo
  }

  /** Every operation with SEM_UNDO is charged, negated, to its semaphore. */
  function Charge(adj: seq<int>, sops: seq<SemOp>): (r: seq<int>)
    requires OpsFit(sops, |adj|)
    ensures |r| == |adj|
    ensures (forall i :: 0 <= i < |adj| ==> IsShort(adj[i])) ==> forall i :: 0 <= i < |r| ==> IsShort(r[i])
    decreases |sops|
  {
    if sops == [] then adj
    else
      var s := sops[0];
      Charge(if s.undo then adj[s.num := Wrap16(adj[s.num] - s.op)] else adj, sops[1..])
  }

  function Charged(u: Undo, pid: nat, sops: seq<SemOp>): (r: Undo)
    requires OpsFit(sops, |u.adj|)
    ensures r.pid == u.pid && |r.adj| == |u.adj|
    ensures (forall i :: 0 <= i < |u.adj| ==> IsShort(u.adj[i])) ==> forall i :: 0 <= i < |r.adj| ==> IsShort(r.adj[i])
  {
    if u.pid == pid then Undo(pid, Charge(u.adj, sops)) else u
  }

  function ChargeTo(undo: seq<Undo>, pid: nat, sops: seq<SemOp>): (r: seq<Undo>)
    requires forall k :: 0 <= k < |undo| ==> OpsFit(sops, |undo[k].adj|)
    ensures |r| == |undo|
    ensures forall k :: 0 <= k < |undo| ==> r[k] == Charged(undo[k], pid, sops)
  {
    if undo == [] then [] else [Charged(undo[0], pid, sops)] + ChargeTo(undo[1..], pid, sops)
  }

  predicate SemsOk(s: Sems) {
    ValuesOk(s.vals) && UndoOk(s.undo, |s.vals|)
  }

  /** The request fits the set, and its undo structure exists if it needs one. */
  predicate RequestOk(s: Sems, q: Request) {
    OpsFit(q.sops, |s.vals|) && (Undoes(q.sops) ==> HasUndo(s.undo, q.pid))
  }

  function Do(s: Sems, q: Request): Sems
    requires SemsOk(s) && RequestOk(s, q)
  {
    Sems(Apply(s.vals, q.sops), ChargeTo(s.undo, q.pid, q.sops))
  }

  lemma DoOk(s: Sems, q: Request)
    requires SemsOk(s) && RequestOk(s, q) && Try(s.vals, q.sops) == Go
    ensures SemsOk(Do(s, q))
  {
    ApplyInRange(s.vals, q.sops);
  }

  // ---------- the ledger ----------

  function SumAdj(undo: seq<Undo>, i: nat): int
    requires forall k :: 0 <= k < |undo| ==> i < |undo[k].adj|
  {
    if undo == [] then 0 else undo[0].adj[i] + SumAdj(undo[1..], i)
  }

  /** What semaphore i would come to if every live adjustment were made. */
  function Total(s: Sems, i: nat): int
    requires SemsOk(s) && i < |s.vals|
  {
    s.vals[i] + SumAdj(s.undo, i)
  }

  /** The operations on semaphore i without SEM_UNDO, and those with it. */
  function NetPlain(sops: seq<SemOp>, i: nat): int {
    if sops == [] then 0 else (if sops[0].num == i && !sops[0].undo then sops[0].op else 0) + NetPlain(sops[1..], i)
  }

  function NetUndo(sops: seq<SemOp>, i: nat): int {
    if sops == [] then 0 else (if sops[0].num == i && sops[0].undo then sops[0].op else 0) + NetUndo(sops[1..], i)
  }

  lemma {:induction false} NetParts(sops: seq<SemOp>, i: nat)
    ensures Net(sops, i) == NetPlain(sops, i) + NetUndo(sops, i)
    ensures !Undoes(sops) ==> NetUndo(sops, i) == 0
    ensures (forall k :: 0 <= k < |sops| ==> sops[k].undo) ==> NetPlain(sops, i) == 0
  {
    if sops != [] {
      NetParts(sops[1..], i);
      if Undoes(sops[1..]) {
        var k :| 0 <= k < |sops[1..]| && sops[1..][k].undo;
        assert sops[k + 1].undo;
      }
      assert forall k :: 0 <= k < |sops[1..]| ==> sops[1..][k] == sops[k + 1];
    }
  }

  /** Wrapping once at the end comes to the same as wrapping every time. */
  lemma WrapTwice(x: int, y: int)
    ensures Wrap16(Wrap16(x) - y) == Wrap16(x - y)
  {
    var k := (x + 32768) / 0x1_0000;
    assert Wrap16(x) == x - 0x1_0000 * k;
    assert (x - y + 32768) == (Wrap16(x) - y + 32768) + 0x1_0000 * k;
  }

  /** An adjustment ends as the 16-bit difference, however often it wrapped on the way. */
  lemma {:induction false} ChargeSubtracts(adj: seq<int>, sops: seq<SemOp>, i: nat)
    requires OpsFit(sops, |adj|) && i < |adj| && IsShort(adj[i])
    ensures Charge(adj, sops)[i] == Wrap16(adj[i] - NetUndo(sops, i))
    decreases |sops|
  {
    if sops != [] {
      var s := sops[0];
      var adj1 := if s.undo then adj[s.num := Wrap16(adj[s.num] - s.op)] else adj;
      ChargeSubtracts(adj1, sops[1..], i);
      if s.undo && s.num == i {
        WrapTwice(adj[i] - s.op, NetUndo(sops[1..], i));
      }
    }
  }

  /** The adjustment of a process to semaphore i. */
  function AdjOf(undo: seq<Undo>, pid: nat, i: nat): int
    requires forall k :: 0 <= k < |undo| ==> i < |undo[k].adj|
  {
    var k := IndexOf(undo, pid);
    if k < |undo| then undo[k].adj[i] else 0
  }

  lemma {:induction false} SumCharged(undo: seq<Undo>, nsems: nat, pid: nat, sops: seq<SemOp>, i: nat)
    requires UndoOk(undo, nsems) && OpsFit(sops, nsems) && i < nsems
    ensures SumAdj(ChargeTo(undo, pid, sops), i) == SumAdj(undo, i) + Charging(undo, pid, i, NetUndo(sops, i))
    decreases |undo|
  {
    if undo != [] {
      var rest := undo[1..];
      RestOk(undo, nsems);
      SumCharged(rest, nsems, pid, sops, i);
      assert ChargeTo(undo, pid, sops)[1..] == ChargeTo(rest, pid, sops);
      ChargingFirst(undo, nsems, pid, i, NetUndo(sops, i));
      if undo[0].pid == pid {
        ChargeSubtracts(undo[0].adj, sops, i);
      }
    }
  }

  /** What a charge of n to a process's adjustment adds to the sum. */
  function Charging(undo: seq<Undo>, pid: nat, i: nat, n: int): int
    requires forall k :: 0 <= k < |undo| ==> i < |undo[k].adj|
  {
    if HasUndo(undo, pid) then Wrap16(AdjOf(undo, pid, i) - n) - AdjOf(undo, pid, i) else 0
  }

  lemma RestOk(undo: seq<Undo>, nsems: nat)
    requires UndoOk(undo, nsems) && undo != []
    ensures UndoOk(undo[1..], nsems)
  {
    assert forall k :: 0 <= k < |undo[1..]| ==> undo[1..][k] == undo[k + 1];
  }

  lemma ChargingFirst(undo: seq<Undo>, nsems: nat, pid: nat, i: nat, n: int)
    requires UndoOk(undo, nsems) && undo != [] && i < nsems && UndoOk(undo[1..], nsems)
    ensures undo[0].pid == pid ==>
              Charging(undo, pid, i, n) == Wrap16(undo[0].adj[i] - n) - undo[0].adj[i] && Charging(undo[1..], pid, i, n) == 0
    ensures undo[0].pid != pid ==> Charging(undo, pid, i, n) == Charging(undo[1..], pid, i, n)
  {
    if undo[0].pid == pid {
      assert HasUndo(undo, pid);
      assert forall k :: 0 <= k < |undo[1..]| ==> undo[1..][k] == undo[k + 1];
      assert !HasUndo(undo[1..], pid);
    } else {
      HasUndoTail(undo, pid);
    }
  }

  lemma HasUndoTail(undo: seq<Undo>, pid: nat)
    requires undo != [] && undo[0].pid != pid
    ensures HasUndo(undo, pid) <==> HasUndo(undo[1..], pid)
  {
    if HasUndo(undo, pid) {
      var k :| 0 <= k < |undo| && undo[k].pid == pid;
      assert undo[1..][k - 1].pid == pid;
    }
    if HasUndo(undo[1..], pid) {
      var k :| 0 <= k < |undo[1..]| && undo[1..][k].pid == pid;
      assert undo[k + 1].pid == pid;
    }
  }

  /** The first undo structure of a process; the length of the list if it has none. */
  function IndexOf(undo: seq<Undo>, pid: nat): (k: nat)
    ensures k <= |undo| && (k < |undo| ==> undo[k].pid == pid) && (k == |undo| <==> !HasUndo(undo, pid))
  {
    if undo == [] then 0
    else if undo[0].pid == pid then 0
    else
      HasUndoTail(undo, pid);
      1 + IndexOf(undo[1..], pid)
  }

  /** The adjustment to semaphore i that the process would have after its operations, if it were not a `short`. */
  function NextAdj(s: Sems, q: Request, i: nat): int
    requires SemsOk(s) && i < |s.vals|
  {
    AdjOf(s.undo, q.pid, i) - NetUndo(q.sops, i)
  }

  /** How many words of 2^16 the ledger gains when that adjustment is stored in 16 bits. */
  function Carry(s: Sems, q: Request, i: nat): (c: int)
    requires SemsOk(s) && i < |s.vals|
    ensures Wrap16(NextAdj(s, q, i)) == NextAdj(s, q, i) + 0x1_0000 * c
    ensures c == 0 <==> IsShort(NextAdj(s, q, i))
  {
    -((NextAdj(s, q, i) + 32768) / 0x1_0000)
  }

  /** A completed call changes the ledger by its operations without SEM_UNDO, and by nothing else exactly if the
      adjustment it leaves is a `short`; otherwise by words of 2^16 more. */
  lemma DoTotal(s: Sems, q: Request, i: nat)
    requires SemsOk(s) && RequestOk(s, q) && Try(s.vals, q.sops) == Go && i < |s.vals|
    ensures SemsOk(Do(s, q)) && Total(Do(s, q), i) == Total(s, i) + NetPlain(q.sops, i) + 0x1_0000 * Carry(s, q, i)
    ensures Total(Do(s, q), i) == Total(s, i) + NetPlain(q.sops, i) <==> IsShort(NextAdj(s, q, i))
  {
    DoOk(s, q);
    ApplyAdds(s.vals, q.sops, i);
    NetParts(q.sops, i);
    SumCharged(s.undo, |s.vals|, q.pid, q.sops, i);
    ChargingIs(s, q, i);
  }

  lemma ChargingIs(s: Sems, q: Request, i: nat)
    requires SemsOk(s) && RequestOk(s, q) && i < |s.vals|
    ensures Charging(s.undo, q.pid, i, NetUndo(q.sops, i)) == 0x1_0000 * Carry(s, q, i) - NetUndo(q.sops, i)
  {
    NetParts(q.sops, i);
  }

  /** An adjustment that does not fit: the total moves although every operation has SEM_UNDO. */
  lemma CarryExample()
    ensures var s, q := Sems([0], [Undo(1, [-32767])]), Request(1, [SemOp(0, 2, false, true)]);
            SemsOk(s) && RequestOk(s, q) && Try(s.vals, q.sops) == Go && NetPlain(q.sops, 0) == 0
            && SemsOk(Do(s, q)) && Total(Do(s, q), 0) == Total(s, 0) + 0x1_0000
  {
    var s, q := Sems([0], [Undo(1, [-32767])]), Request(1, [SemOp(0, 2, false, true)]);
    assert q.sops[0].undo && s.undo[0].pid == 1;
    assert q.sops[1..] == [];
    DoTotal(s, q, 0);
  }

  // ---------- exit ----------

  /** The value after an adjustment at exit: a 16-bit sum, and zero if that is negative. */
  function ExitValue(v: int, a: int): (r: int)
    ensures 0 <= r <= SEMVMX
  {
    var x := Wrap16(v + a);
    if x < 0 then 0 else x
  }

  /** The adjustment is made in full exactly when the sum is a semaphore value. */
  lemma ExitValueExact(v: int, a: int)
    requires 0 <= v <= SEMVMX && IsShort(a)
    ensures ExitValue(v, a) == v + a <==> 0 <= v + a <= SEMVMX
    ensures !(0 <= v + a <= SEMVMX) ==> ExitValue(v, a) == 0
  {
  }

  function ExitVals(vals: seq<int>, adj: seq<int>): (r: seq<int>)
    requires |vals| == |adj|
    ensures |r| == |vals| && ValuesOk(r)
    ensures forall i :: 0 <= i < |vals| ==> r[i] == ExitValue(vals[i], adj[i])
  {
    if vals == [] then [] else [ExitValue(vals[0], adj[0])] + ExitVals(vals[1..], adj[1..])
  }

  function Drop(undo: seq<Undo>, k: nat): seq<Undo>
    requires k < |undo|
  {
    undo[..k] + undo[k + 1..]
  }

  lemma {:induction false} SumDrop(undo: seq<Undo>, k: nat, i: nat)
    requires k < |undo| && forall j :: 0 <= j < |undo| ==> i < |undo[j].adj|
    ensures SumAdj(Drop(undo, k), i) == SumAdj(undo, i) - undo[k].adj[i]
    decreases |undo|
  {
    if k > 0 {
      assert Drop(undo, k)[1..] == Drop(undo[1..], k - 1);
      SumDrop(undo[1..], k - 1, i);
    } else {
      assert Drop(undo, 0) == undo[1..];
    }
  }
}
