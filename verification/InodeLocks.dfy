/**
 The lock list of one inode: several owners' runs side by side.
 */
module InodeLocks {
  import opened RecordLocks

  /** The locks of one owner, in list order. */
  function Own(list: seq<Lock>, owner: nat): seq<Lock> {
    if list == [] then []
    else (if list[0].r.owner == owner then [list[0]] else []) + Own(list[1..], owner)
  }

  /** Owner o holds byte b with type t. */
  ghost predicate HeldBy(list: seq<Lock>, o: nat, b: int, t: LockType) {
    exists i :: 0 <= i < |list| && list[i].r.owner == o && list[i].r.typ == t && list[i].r.Covers(b)
  }

  /** The locks of an owner stand together. */
  ghost predicate Grouped(list: seq<Lock>) {
    forall i, j, k :: 0 <= i < k < j < |list| && list[i].r.owner == list[j].r.owner ==> list[k].r.owner == list[i].r.owner
  }

  ghost predicate AllPosix(list: seq<Lock>) {
    forall i :: 0 <= i < |list| ==> list[i].posix && list[i].r.typ != Unlock
  }

  /** The normal form of an inode's list. */
  ghost predicate WellFormed(list: seq<Lock>) {
    Grouped(list) && forall o :: Canonical(Own(list, o))
  }

  lemma {:induction false} OwnConcat(a: seq<Lock>, b: seq<Lock>, o: nat)
    ensures Own(a + b, o) == Own(a, o) + Own(b, o)
  {
    if a == [] {
      assert a + b == b;
    } else {
      assert (a + b)[1..] == a[1..] + b;
      OwnConcat(a[1..], b, o);
    }
  }

  lemma {:induction false} OwnAll(a: seq<Lock>, o: nat, p: nat)
    requires forall i :: 0 <= i < |a| ==> a[i].r.owner == o
    ensures Own(a, p) == if p == o then a else []
  {
    if a != [] {
      OwnAll(a[1..], o, p);
      assert a == [a[0]] + a[1..];
    }
  }

  lemma {:induction false} OwnNone(a: seq<Lock>, o: nat)
    requires forall i :: 0 <= i < |a| ==> a[i].r.owner != o
    ensures Own(a, o) == []
  {
    if a != [] {
      OwnNone(a[1..], o);
    }
  }

  lemma {:induction false} HeldByOwn(list: seq<Lock>, o: nat, b: int, t: LockType)
    ensures HeldBy(list, o, b, t) <==> Held(Own(list, o), b, t)
  {
    if list != [] {
      HeldByOwn(list[1..], o, b, t);
      HeldByTail(list, o, b, t);
      HeldConcat(if list[0].r.owner == o then [list[0]] else [], Own(list[1..], o), b, t);
    }
  }

  lemma HeldByTail(list: seq<Lock>, o: nat, b: int, t: LockType)
    requires list != []
    ensures HeldBy(list, o, b, t)
            <==> HeldBy(list[1..], o, b, t) || (list[0].r.owner == o && Held([list[0]], b, t))
  {
    if HeldBy(list, o, b, t) {
      var i :| 0 <= i < |list| && list[i].r.owner == o && list[i].r.typ == t && list[i].r.Covers(b);
      if i == 0 {
        assert [list[0]][0].r.Covers(b);
      } else {
        assert list[1..][i - 1] == list[i];
      }
    }
    if HeldBy(list[1..], o, b, t) {
      var i :| 0 <= i < |list[1..]| && list[1..][i].r.owner == o && list[1..][i].r.typ == t && list[1..][i].r.Covers(b);
      assert list[i + 1] == list[1..][i];
    }
  }

  /** A list cut around the first run of an owner. */
  ghost predicate RunAt(list: seq<Lock>, owner: nat, lo: nat, hi: nat) {
    && lo <= hi <= |list|
    && (forall i :: 0 <= i < lo ==> list[i].r.owner != owner)
    && (forall i :: lo <= i < hi ==> list[i].r.owner == owner)
    && (lo < |list| ==> list[lo].r.owner == owner)
    && (hi < |list| ==> list[hi].r.owner != owner)
  }

  lemma {:induction false} OwnOfThree(a: seq<Lock>, run: seq<Lock>, c: seq<Lock>, owner: nat, o: nat)
    requires forall i :: 0 <= i < |a| ==> a[i].r.owner != owner
    requires forall i :: 0 <= i < |run| ==> run[i].r.owner == owner
    ensures Own(a + run + c, o) == if o == owner then run + Own(c, o) else Own(a, o) + Own(c, o)
  {
    OwnConcat(a + run, c, o);
    OwnConcat(a, run, o);
    OwnAll(run, owner, o);
    if o == owner {
      OwnNone(a, owner);
      assert [] + run == run;
    } else {
      assert Own(a, o) + [] == Own(a, o);
    }
  }

  /** Replacing an owner's run by another run of that owner. */
  lemma OwnReplaced(list: seq<Lock>, owner: nat, lo: nat, hi: nat, run: seq<Lock>, o: nat)
    requires RunAt(list, owner, lo, hi)
    requires forall i :: 0 <= i < |run| ==> run[i].r.owner == owner
    ensures o != owner ==> Own(list[..lo] + run + list[hi..], o) == Own(list, o)
    ensures o == owner ==> Own(list, o) == list[lo..hi] + Own(list[hi..], o)
                           && Own(list[..lo] + run + list[hi..], o) == run + Own(list[hi..], o)
  {
    assert list == list[..lo] + list[lo..hi] + list[hi..];
    OwnOfThree(list[..lo], list[lo..hi], list[hi..], owner, o);
    OwnOfThree(list[..lo], run, list[hi..], owner, o);
  }

  lemma GroupedRun(list: seq<Lock>, owner: nat, lo: nat, hi: nat)
    requires RunAt(list, owner, lo, hi) && Grouped(list)
    ensures forall i :: hi <= i < |list| ==> list[i].r.owner != owner
    ensures Own(list[hi..], owner) == []
  {
    OwnNone(list[hi..], owner);
  }

  lemma GroupedReplaced(list: seq<Lock>, owner: nat, lo: nat, hi: nat, run: seq<Lock>)
    requires RunAt(list, owner, lo, hi) && Grouped(list)
    requires forall i :: 0 <= i < |run| ==> run[i].r.owner == owner
    ensures Grouped(list[..lo] + run + list[hi..])
  {
    GroupedRun(list, owner, lo, hi);
    var out := list[..lo] + run + list[hi..];
    forall i, j, k | 0 <= i < k < j < |out| && out[i].r.owner == out[j].r.owner
      ensures out[k].r.owner == out[i].r.owner
    {
      var d := |run| - (hi - lo);
      var i', j', k' := if i < lo then i else i - d, if j < lo then j else j - d, if k < lo then k else k - d;
      if out[i].r.owner != owner {
        assert out[i] == list[i'] && out[j] == list[j'];
        assert k < lo || k >= lo + |run| ==> out[k] == list[k'];
      }
    }
  }

  // ---------- posix_lock_file on a list ----------

  /** What a lock request does to any list: nobody gains a byte that he did not hold and did not ask for,
      every waiter that stays queued conflicts with its lock, and no queue gains a waiter. */
  ghost predicate PosixEffect(list: seq<Lock>, caller: Request, out: seq<Lock>) {
    && AllPosix(out)
    && (forall o :: o != caller.owner ==> Own(out, o) == Own(list, o))
    && (forall o, b, t :: HeldBy(out, o, b, t) ==>
                            HeldBy(list, o, b, t) || (o == caller.owner && t == caller.typ && caller.Covers(b)))
    && (WaitersConflict(list) ==> WaitersConflict(out))
    && (forall i, w :: 0 <= i < |out| && w in out[i].waiters ==> QueuedOn(list, out[i].r.owner, w))
  }

  ghost predicate QueuedOn(list: seq<Lock>, owner: nat, w: Request) {
    exists i :: 0 <= i < |list| && list[i].r.owner == owner && w in list[i].waiters
  }

  /** The bytes of the caller get the caller's type for the caller's owner; nothing else changes. */
  ghost predicate SetsBytes(list: seq<Lock>, caller: Request, out: seq<Lock>) {
    forall o, b, t :: HeldBy(out, o, b, t) <==>
                        if o == caller.owner && caller.Covers(b) then t == caller.typ != Unlock else HeldBy(list, o, b, t)
  }

  /** The part of `posix_lock_file` that follows the conflict check: skip to the caller's own locks and update them. */
  method PosixApply(list: seq<Lock>, caller: Request) returns (out: seq<Lock>)
    requires AllPosix(list) && caller.InRange()
    ensures PosixEffect(list, caller, out)
    ensures WellFormed(list) ==>
              (WellFormed(out) && SetsBytes(list, caller, out) <==> !EndWraps(Own(list, caller.owner), caller))
    ensures WellFormed(list) ==> (SetsBytes(list, caller, out) <==> !MixedBehind(Own(list, caller.owner), caller))
  {
    var lo := 0;
    while lo < |list| && list[lo].r.owner != caller.owner
      invariant 0 <= lo <= |list|
      invariant forall i :: 0 <= i < lo ==> list[i].r.owner != caller.owner
    {
      lo := lo + 1;
    }
    var hi := lo;
    while hi < |list| && list[hi].r.owner == caller.owner
      invariant lo <= hi <= |list|
      invariant forall i :: lo <= i < hi ==> list[i].r.owner == caller.owner
    {
      hi := hi + 1;
    }
    var run := UpdateRun(list[lo..hi], caller);
    out := list[..lo] + run + list[hi..];
    EffectOfRun(list, caller, lo, hi, run);
    if WellFormed(list) {
      ExactOfRun(list, caller, lo, hi, run);
    }
  }

  lemma EffectOfRun(list: seq<Lock>, caller: Request, lo: nat, hi: nat, run: seq<Lock>)
    requires AllPosix(list) && RunAt(list, caller.owner, lo, hi)
    requires Sound(list[lo..hi], caller, run)
    ensures PosixEffect(list, caller, list[..lo] + run + list[hi..])
  {
    var out := list[..lo] + run + list[hi..];
    forall o | o != caller.owner
      ensures Own(out, o) == Own(list, o)
    {
      OwnReplaced(list, caller.owner, lo, hi, run, o);
    }
    forall i | 0 <= i < |out|
      ensures FromList(list, caller, lo, hi, out[i])
    {
      if i < lo {
        assert out[i] == list[i];
      } else if i < lo + |run| {
        assert out[i] == run[i - lo];
        FromRun(list, caller, lo, hi, run[i - lo]);
      } else {
        assert out[i] == list[i - lo - |run| + hi];
      }
    }
  }

  /** A lock of the new list is an old lock, or sound with respect to the old run. */
  ghost predicate FromList(list: seq<Lock>, caller: Request, lo: nat, hi: nat, l: Lock) {
    && l.posix && l.r.typ != Unlock
    && (forall b :: l.r.Covers(b) ==> HeldBy(list, l.r.owner, b, l.r.typ)
                                      || (l.r.owner == caller.owner && l.r.typ == caller.typ && caller.Covers(b)))
    && (forall w :: w in l.waiters ==> QueuedOn(list, l.r.owner, w) && (WaitersConflict(list) ==> WaiterConflict(w, l)))
  }

  lemma FromRun(list: seq<Lock>, caller: Request, lo: nat, hi: nat, l: Lock)
    requires RunAt(list, caller.owner, lo, hi) && SoundLock(list[lo..hi], caller, l)
    ensures FromList(list, caller, lo, hi, l)
  {
    var run := list[lo..hi];
    forall b | l.r.Covers(b) && Held(run, b, l.r.typ)
      ensures HeldBy(list, l.r.owner, b, l.r.typ)
    {
      var i :| 0 <= i < |run| && run[i].r.typ == l.r.typ && run[i].r.Covers(b);
      assert list[lo + i] == run[i];
    }
    forall w | w in l.waiters
      ensures QueuedOn(list, l.r.owner, w)
    {
      var i :| 0 <= i < |run| && w in run[i].waiters;
      assert list[lo + i] == run[i];
    }
    if WaitersConflict(list) {
      assert WaitersConflict(run);
    }
  }

  /** The bytes of a list are those of the owners' locks. */
  lemma BytesOfOwn(list: seq<Lock>, caller: Request, out: seq<Lock>)
    requires forall o :: o != caller.owner ==> Own(out, o) == Own(list, o)
    ensures SetsBytes(list, caller, out) <==> SetsExactly(Own(list, caller.owner), caller, Own(out, caller.owner))
  {
    forall o, b, t
      ensures HeldBy(out, o, b, t) <==> Held(Own(out, o), b, t)
      ensures HeldBy(list, o, b, t) <==> Held(Own(list, o), b, t)
    {
      HeldByOwn(out, o, b, t);
      HeldByOwn(list, o, b, t);
    }
  }

  lemma ExactOfRun(list: seq<Lock>, caller: Request, lo: nat, hi: nat, run: seq<Lock>)
    requires RunAt(list, caller.owner, lo, hi) && WellFormed(list)
    requires forall i :: 0 <= i < |run| ==> run[i].r.owner == caller.owner
    requires Canonical(list[lo..hi]) ==>
               (Canonical(run) && SetsExactly(list[lo..hi], caller, run) <==> !EndWraps(list[lo..hi], caller))
    ensures Own(list, caller.owner) == list[lo..hi]
    ensures var out := list[..lo] + run + list[hi..];
            && (WellFormed(out) && SetsBytes(list, caller, out) <==> !EndWraps(Own(list, caller.owner), caller))
            && (SetsBytes(list, caller, out) <==> SetsExactly(list[lo..hi], caller, run))
  {
    var out := list[..lo] + run + list[hi..];
    var me := caller.owner;
    GroupedRun(list, me, lo, hi);
    GroupedReplaced(list, me, lo, hi, run);
    OwnReplaced(list, me, lo, hi, run, me);
    forall o
      ensures o != me ==> Own(out, o) == Own(list, o)
    {
      OwnReplaced(list, me, lo, hi, run, o);
    }
    assert Own(out, me) == run && Own(list, me) == list[lo..hi];
    BytesOfOwn(list, caller, out);
  }
}
