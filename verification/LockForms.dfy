/**
 The normal form of lock lists over whole runs.

 As long as no request on an inode meets a wrapped sum, its POSIX locks stay grouped by owner, sorted, disjoint and
 merged, and every granted request sets exactly its bytes.
 */
module LockForms {
  import opened RecordLocks
  import opened InodeLocks
  import opened LockTables

  ghost predicate FormOk(list: seq<Lock>) {
    AllPosix(list) ==> WellFormed(list)
  }

  // ---------- lists that differ in their waiters ----------

  ghost predicate SameRequests(a: seq<Lock>, b: seq<Lock>) {
    |a| == |b| && forall i :: 0 <= i < |a| ==> a[i].r == b[i].r && a[i].posix == b[i].posix
  }

  lemma {:induction false} OwnSame(a: seq<Lock>, b: seq<Lock>, o: nat)
    requires SameRequests(a, b)
    ensures SameRequests(Own(a, o), Own(b, o))
  {
    if a != [] {
      OwnSame(a[1..], b[1..], o);
      if a[0].r.owner == o {
        SameCons(a[0], Own(a[1..], o), b[0], Own(b[1..], o));
      }
    }
  }

  lemma SameCons(x: Lock, p: seq<Lock>, y: Lock, q: seq<Lock>)
    requires x.r == y.r && x.posix == y.posix && SameRequests(p, q)
    ensures SameRequests([x] + p, [y] + q)
  {
  }

  lemma SameForm(a: seq<Lock>, b: seq<Lock>)
    requires SameRequests(a, b) && WellFormed(a)
    ensures WellFormed(b)
  {
    forall o
      ensures Canonical(Own(b, o))
    {
      OwnSame(a, b, o);
      assert Canonical(Own(a, o));
    }
  }

  // ---------- lists without the locks of a task ----------

  lemma {:induction false} OwnRemoved(list: seq<Lock>, task: nat, o: nat)
    ensures Own(Removed(list, task), o) == if o == task then [] else Own(list, o)
  {
    if list != [] {
      OwnRemoved(list[1..], task, o);
      if list[0].r.owner != task {
        OwnConcat([list[0]], Removed(list[1..], task), o);
        assert [list[0]][1..] == [];
        assert Own([list[0]], o) == if list[0].r.owner == o then [list[0]] else [];
      } else {
        assert Removed(list, task) == Removed(list[1..], task);
      }
    }
  }

  /** The locks of owner o come before all others. */
  ghost predicate Leading(list: seq<Lock>, o: nat) {
    forall j, k :: 0 <= k < j < |list| && list[j].r.owner == o ==> list[k].r.owner == o
  }

  lemma {:induction false} LeadingRemoved(list: seq<Lock>, o: nat, task: nat)
    requires Leading(list, o) && o != task
    ensures Leading(Removed(list, task), o)
  {
    if list != [] {
      RemovedMembers(list[1..], task);
      if list[0].r.owner == o {
        assert forall j :: 0 <= j < |list[1..]| ==> list[1..][j] == list[j + 1];
        LeadingRemoved(list[1..], o, task);
      } else {
        assert forall l :: l in list[1..] ==> l.r.owner != o;
      }
    }
  }

  lemma {:induction false} GroupedRemoved(list: seq<Lock>, task: nat)
    requires Grouped(list)
    ensures Grouped(Removed(list, task))
  {
    if list != [] {
      var rest := list[1..];
      assert forall j :: 0 <= j < |rest| ==> rest[j] == list[j + 1];
      GroupedRemoved(rest, task);
      var o := list[0].r.owner;
      if o != task {
        assert Leading(rest, o);
        LeadingRemoved(rest, o, task);
      }
    }
  }

  lemma RemovedForm(list: seq<Lock>, task: nat)
    requires WellFormed(list)
    ensures WellFormed(Removed(list, task))
  {
    GroupedRemoved(list, task);
    forall o
      ensures Canonical(Own(Removed(list, task), o))
    {
      OwnRemoved(list, task, o);
    }
  }

  // ---------- every step, and every run ----------

  /** The request meets a wrapped sum. */
  ghost predicate Wraps(files: Files, f: nat, a: Action)
    requires f < |files|
  {
    a.Apply? && EndWraps(Own(files[f], a.caller.owner), a.caller)
  }

  lemma StepKeepsForm(files: Files, f: nat, a: Action, out: seq<Lock>)
    requires Invariant(files) && f < |files| && Does(files, f, a, out) && FormOk(files[f])
    ensures FormOk(out) || Wraps(files, f, a)
  {
    var list := files[f];
    assert FileOk(list);
    if AllPosix(out) && out != [] && AllPosix(list) {
      match a
      case Enqueue(at, w) => SameForm(list, out);
      case Dequeue(at, w) => SameForm(list, out);
      case Release(task) => RemovedForm(list, task);
      case _ =>
    } else if AllPosix(out) && out != [] {
      StaysFlock(files, f, a, out);
    }
  }

  /** A list with an FLOCK lock stays without POSIX locks. */
  lemma StaysFlock(files: Files, f: nat, a: Action, out: seq<Lock>)
    requires Invariant(files) && f < |files| && Does(files, f, a, out) && !AllPosix(files[f])
    ensures forall i :: 0 <= i < |out| ==> !out[i].posix
  {
    var list := files[f];
    assert FileOk(list) && forall i :: 0 <= i < |list| ==> !list[i].posix;
    if a.Release? {
      RemovedMembers(list, a.task);
      assert forall i :: 0 <= i < |out| ==> out[i] in out;
    }
  }

  /** Step k of a run is the given action on the given inode. */
  ghost predicate Steps(states: seq<Files>, steps: seq<(nat, Action)>) {
    && |states| == |steps| + 1 && (forall f :: 0 <= f < |states[0]| ==> states[0][f] == [])
    && forall k :: 0 <= k < |steps| ==> StepBy(states[k], steps[k].0, steps[k].1, states[k + 1])
  }

  ghost predicate StepBy(files: Files, f: nat, a: Action, files': Files) {
    f < |files| == |files'| && files' == files[f := files'[f]] && Does(files, f, a, files'[f])
  }

  /** None of the first n steps is a request on inode f that meets a wrapped sum. */
  ghost predicate NoWrap(states: seq<Files>, steps: seq<(nat, Action)>, n: nat, f: nat) {
    n <= |steps| < |states| && forall k :: 0 <= k < n && steps[k].0 == f < |states[k]| ==> !Wraps(states[k], f, steps[k].1)
  }

  lemma {:induction false} StepsAreSafe(states: seq<Files>, steps: seq<(nat, Action)>, n: nat)
    requires Steps(states, steps) && n <= |steps|
    ensures Invariant(states[n]) && |states[n]| == |states[0]|
  {
    if n == 0 {
      assert Waits(states[0]) == {};
    } else {
      StepsAreSafe(states, steps, n - 1);
      assert StepBy(states[n - 1], steps[n - 1].0, steps[n - 1].1, states[n]);
      assert Next(states[n - 1], states[n]);
      NextKeeps(states[n - 1], states[n]);
    }
  }

  /** In every run, the list of an inode stays in normal form as long as no request on that inode meets a wrapped sum. */
  lemma {:induction false} RunsStayMerged(states: seq<Files>, steps: seq<(nat, Action)>, n: nat, f: nat)
    requires Steps(states, steps) && NoWrap(states, steps, n, f)
    ensures Invariant(states[n]) && (f < |states[n]| ==> FormOk(states[n][f]))
  {
    StepsAreSafe(states, steps, n);
    if n > 0 && f < |states[n]| {
      RunsStayMerged(states, steps, n - 1, f);
      var was, now, g, a := states[n - 1], states[n], steps[n - 1].0, steps[n - 1].1;
      assert StepBy(was, g, a, now);
      if g == f {
        StepKeepsForm(was, f, a, now[f]);
      }
    }
  }

  /** And every granted request on it sets exactly its bytes. */
  lemma RunsSetBytes(states: seq<Files>, steps: seq<(nat, Action)>, n: nat, f: nat, caller: Request)
    requires Steps(states, steps) && n < |steps| && NoWrap(states, steps, n, f) && steps[n] == (f, Apply(caller))
    ensures f < |states[n]| == |states[n + 1]|
    ensures SetsBytes(states[n][f], caller, states[n + 1][f]) && WellFormed(states[n + 1][f]) <==> !Wraps(states[n], f, Apply(caller))
  {
    RunsStayMerged(states, steps, n, f);
    assert StepBy(states[n], f, Apply(caller), states[n + 1]);
  }
}
