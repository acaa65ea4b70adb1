/**
 All inodes' lock lists together: who may lock, who must sleep, and what every run keeps.

 The server runs under one lock, so each stretch of code between two sleeping calls is one step.
 `Next` is the relation of all such steps; `RunsAreSafe` is safety over every run.  The methods of
 `LockTable` are the steps as the source computes them.
 */
module LockTables {
  import opened RecordLocks
  import opened InodeLocks
  import opened WaitGraph

  type Files = seq<seq<Lock>>

  // ---------- the invariant ----------

  /** Whom a lock is held for: the task of a POSIX lock, the open file of an FLOCK lock. */
  function Holder(l: Lock): nat {
    if l.posix then l.r.owner else l.r.file
  }

  /** Where two holders meet on a byte, both only read. */
  ghost predicate Exclusive(list: seq<Lock>) {
    forall i, j, b :: 0 <= i < |list| && 0 <= j < |list| && Holder(list[i]) != Holder(list[j])
                      && list[i].r.Covers(b) && list[j].r.Covers(b)
                      ==> list[i].r.typ == Read
  }

  /** An inode uses one locking scheme at a time. */
  ghost predicate Unmixed(list: seq<Lock>) {
    forall i, j :: 0 <= i < |list| && 0 <= j < |list| ==> list[i].posix == list[j].posix
  }

  ghost predicate Granted(list: seq<Lock>) {
    forall i :: 0 <= i < |list| ==> list[i].r.typ != Unlock
  }

  ghost predicate FileOk(list: seq<Lock>) {
    Granted(list) && Unmixed(list) && Exclusive(list) && WaitersConflict(list)
  }

  /** An edge leads from each task queued on a POSIX lock to the owner of that lock. */
  ghost function Waits(files: Files): Graph {
    set f, i, w | 0 <= f < |files| && 0 <= i < |files[f]| && files[f][i].posix && w in files[f][i].waiters
      :: (w.owner, files[f][i].r.owner)
  }

  ghost predicate Invariant(files: Files) {
    && (forall f :: 0 <= f < |files| ==> FileOk(files[f]))
    && OutDegreeOne(Waits(files)) && Acyclic(Waits(files))
  }

  ghost predicate Waiting(files: Files, task: nat) {
    exists o :: (task, o) in Waits(files)
  }

  // ---------- the steps ----------

  datatype Action =
    | Apply(caller: Request)            // posix_lock_file past its conflict check
    | Enqueue(at: nat, w: Request)      // locks_insert_block
    | Dequeue(at: nat, w: Request)      // locks_delete_block
    | Release(task: nat)                // posix_remove_locks
    | FlockInsert(new_fl: Request)      // locks_insert_lock at the head
    | FlockDelete(at: nat)              // locks_delete_lock

  function Without(s: seq<Request>, w: Request): (r: seq<Request>)
    ensures forall x :: x in r <==> x in s && x != w
  {
    if s == [] then [] else (if s[0] == w then [] else [s[0]]) + Without(s[1..], w)
  }

  function Removed(list: seq<Lock>, task: nat): seq<Lock> {
    if list == [] then [] else (if list[0].r.owner == task then [] else [list[0]]) + Removed(list[1..], task)
  }

  lemma {:induction false} RemovedMembers(list: seq<Lock>, task: nat)
    ensures forall l :: l in Removed(list, task) <==> l in list && l.r.owner != task
  {
    if list != [] {
      RemovedMembers(list[1..], task);
      assert forall l :: l in list <==> l == list[0] || l in list[1..];
    }
  }

  ghost predicate NoConflict(list: seq<Lock>, caller: Request) {
    forall i :: 0 <= i < |list| ==> !PosixConflict(caller, list[i].r)
  }

  /** Action a turns the list of inode f into `out`. */
  ghost predicate Does(files: Files, f: nat, a: Action, out: seq<Lock>)
    requires f < |files|
  {
    var list := files[f];
    match a
    case Apply(caller) =>
      && AllPosix(list) && caller.InRange() && PosixEffect(list, caller, out)
      && (caller.typ != Unlock ==> NoConflict(list, caller))
      && (WellFormed(list) ==> (WellFormed(out) && SetsBytes(list, caller, out) <==> !EndWraps(Own(list, caller.owner), caller)))
    case Enqueue(at, w) =>
      && at < |list| && WaiterConflict(w, list[at])
      && out == list[at := list[at].(waiters := list[at].waiters + [w])]
      && (list[at].posix ==> !Waiting(files, w.owner) && !Reaches(Waits(files), list[at].r.owner, w.owner))
    case Dequeue(at, w) =>
      at < |list| && out == list[at := list[at].(waiters := Without(list[at].waiters, w))]
    case Release(task) =>
      out == Removed(list, task)
    case FlockInsert(r) =>
      && r.typ != Unlock && (forall i :: 0 <= i < |list| ==> !list[i].posix && !FlockConflict(r, list[i].r))
      && out == [Lock(false, r, [])] + list
    case FlockDelete(at) =>
      at < |list| && !list[at].posix && out == list[..at] + list[at + 1..]
  }

  ghost predicate Next(files: Files, files': Files) {
    exists f: nat, a, out :: f < |files| && Does(files, f, a, out) && files' == files[f := out]
  }

  // ---------- every step keeps the invariant ----------

  /** No new edge appears if every waiter of the new list was queued on a lock of the same owner before. */
  lemma WaitsShrink(files: Files, f: nat, out: seq<Lock>)
    requires f < |files|
    requires forall i, w :: 0 <= i < |out| && out[i].posix && w in out[i].waiters ==>
               exists k :: 0 <= k < |files[f]| && files[f][k].posix && files[f][k].r.owner == out[i].r.owner
                           && w in files[f][k].waiters
    ensures Waits(files[f := out]) <= Waits(files)
  {
    var files' := files[f := out];
    forall e | e in Waits(files')
      ensures e in Waits(files)
    {
      var g, i, w :| 0 <= g < |files'| && 0 <= i < |files'[g]| && files'[g][i].posix && w in files'[g][i].waiters
                     && e == (w.owner, files'[g][i].r.owner);
      if g == f {
        var k :| 0 <= k < |files[f]| && files[f][k].posix && files[f][k].r.owner == out[i].r.owner
                 && w in files[f][k].waiters;
        assert e == (w.owner, files[f][k].r.owner);
      } else {
        assert files[g] == files'[g];
      }
    }
  }

  lemma KeptBySubgraph(files: Files, f: nat, out: seq<Lock>)
    requires f < |files| && Invariant(files) && FileOk(out)
    requires Waits(files[f := out]) <= Waits(files)
    ensures Invariant(files[f := out])
  {
    AcyclicSubgraph(Waits(files), Waits(files[f := out]));
  }

  lemma ApplyExclusive(list: seq<Lock>, caller: Request, out: seq<Lock>)
    requires FileOk(list) && AllPosix(list) && PosixEffect(list, caller, out)
    requires caller.typ != Unlock ==> NoConflict(list, caller)
    ensures FileOk(out)
  {
    forall i, j, b | 0 <= i < |out| && 0 <= j < |out| && Holder(out[i]) != Holder(out[j])
                     && out[i].r.Covers(b) && out[j].r.Covers(b)
      ensures out[i].r.typ == Read
    {
      var x, y := out[i].r, out[j].r;
      assert HeldBy(out, x.owner, b, x.typ) && HeldBy(out, y.owner, b, y.typ);
      TwoHolders(list, caller, b, x, y);
    }
  }

  /** Two owners at a byte, each from the old list or the caller. */
  lemma TwoHolders(list: seq<Lock>, caller: Request, b: int, x: Request, y: Request)
    requires FileOk(list) && AllPosix(list) && x.owner != y.owner
    requires caller.typ != Unlock ==> NoConflict(list, caller)
    requires x.typ != Unlock && y.typ != Unlock
    requires HeldBy(list, x.owner, b, x.typ) || (x.owner == caller.owner && x.typ == caller.typ && caller.Covers(b))
    requires HeldBy(list, y.owner, b, y.typ) || (y.owner == caller.owner && y.typ == caller.typ && caller.Covers(b))
    ensures x.typ == Read
  {
    if x.owner == caller.owner && x.typ == caller.typ && caller.Covers(b) {
      var j :| 0 <= j < |list| && list[j].r.owner == y.owner && list[j].r.typ == y.typ && list[j].r.Covers(b);
      assert !PosixConflict(caller, list[j].r);
    } else {
      var i :| 0 <= i < |list| && list[i].r.owner == x.owner && list[i].r.typ == x.typ && list[i].r.Covers(b);
      if HeldBy(list, y.owner, b, y.typ) {
        var j :| 0 <= j < |list| && list[j].r.owner == y.owner && list[j].r.typ == y.typ && list[j].r.Covers(b);
        assert Holder(list[i]) != Holder(list[j]);
      } else {
        assert !PosixConflict(caller, list[i].r);
      }
    }
  }

  lemma ApplyKeeps(files: Files, f: nat, caller: Request, out: seq<Lock>)
    requires Invariant(files) && f < |files| && Does(files, f, Apply(caller), out)
    ensures Invariant(files[f := out])
  {
    var list := files[f];
    ApplyExclusive(list, caller, out);
    forall i, w | 0 <= i < |out| && out[i].posix && w in out[i].waiters
      ensures exists k :: 0 <= k < |list| && list[k].posix && list[k].r.owner == out[i].r.owner && w in list[k].waiters
    {
      assert QueuedOn(list, out[i].r.owner, w);
    }
    WaitsShrink(files, f, out);
    KeptBySubgraph(files, f, out);
  }

  /** A task that begins to wait adds one edge, and closes no cycle. */
  lemma EnqueueKeeps(files: Files, f: nat, at: nat, w: Request, out: seq<Lock>)
    requires Invariant(files) && f < |files| && Does(files, f, Enqueue(at, w), out)
    ensures Invariant(files[f := out])
  {
    var list := files[f];
    assert FileOk(out) by {
      assert forall i :: 0 <= i < |list| ==> out[i].r == list[i].r && out[i].posix == list[i].posix;
    }
    var g, h := Waits(files), Waits(files[f := out]);
    if list[at].posix {
      var o := list[at].r.owner;
      EnqueueEdges(files, f, at, w, out);
      AcyclicAdd(g, w.owner, o);
      AcyclicSubgraph(g + {(w.owner, o)}, h);
    } else {
      WaitsShrink(files, f, out);
      KeptBySubgraph(files, f, out);
    }
  }

  lemma EnqueueEdges(files: Files, f: nat, at: nat, w: Request, out: seq<Lock>)
    requires f < |files| && at < |files[f]|
    requires out == files[f][at := files[f][at].(waiters := files[f][at].waiters + [w])]
    ensures Waits(files[f := out]) <= Waits(files) + {(w.owner, files[f][at].r.owner)}
  {
    var files' := files[f := out];
    forall e | e in Waits(files')
      ensures e in Waits(files) + {(w.owner, files[f][at].r.owner)}
    {
      var g, i, v :| 0 <= g < |files'| && 0 <= i < |files'[g]| && files'[g][i].posix && v in files'[g][i].waiters
                     && e == (v.owner, files'[g][i].r.owner);
      assert 0 <= i < |files[g]| && files[g][i].r == files'[g][i].r && files[g][i].posix;
      if v in files[g][i].waiters {
        assert e == (v.owner, files[g][i].r.owner);
      }
    }
  }

  lemma DequeueKeeps(files: Files, f: nat, at: nat, w: Request, out: seq<Lock>)
    requires Invariant(files) && f < |files| && Does(files, f, Dequeue(at, w), out)
    ensures Invariant(files[f := out])
  {
    var list := files[f];
    assert forall i :: 0 <= i < |list| ==> out[i].r == list[i].r && out[i].posix == list[i].posix;
    assert FileOk(out);
    WaitsShrink(files, f, out);
    KeptBySubgraph(files, f, out);
  }

  /** A list all of whose locks were there before. */
  lemma SublistKeeps(files: Files, f: nat, out: seq<Lock>)
    requires Invariant(files) && f < |files| && forall l :: l in out ==> l in files[f]
    ensures Invariant(files[f := out])
  {
    var list := files[f];
    assert forall i :: 0 <= i < |out| ==> out[i] in list;
    assert FileOk(out);
    WaitsShrink(files, f, out);
    KeptBySubgraph(files, f, out);
  }

  lemma FlockInsertKeeps(files: Files, f: nat, r: Request, out: seq<Lock>)
    requires Invariant(files) && f < |files| && Does(files, f, FlockInsert(r), out)
    ensures Invariant(files[f := out])
  {
    var list := files[f];
    assert forall i :: 1 <= i < |out| ==> out[i] == list[i - 1];
    assert Exclusive(out) by {
      forall i, j, b | 0 <= i < |out| && 0 <= j < |out| && Holder(out[i]) != Holder(out[j])
                       && out[i].r.Covers(b) && out[j].r.Covers(b)
        ensures out[i].r.typ == Read
      {
        if i == 0 {
          assert !FlockConflict(r, list[j - 1].r);
        } else if j == 0 {
          assert !FlockConflict(r, list[i - 1].r);
        } else {
          assert out[i] == list[i - 1] && out[j] == list[j - 1];
        }
      }
    }
    assert FileOk(out);
    WaitsShrink(files, f, out);
    KeptBySubgraph(files, f, out);
  }

  lemma NextKeeps(files: Files, files': Files)
    requires Invariant(files) && Next(files, files')
    ensures Invariant(files')
  {
    var f: nat, a, out :| f < |files| && Does(files, f, a, out) && files' == files[f := out];
    match a
    case Apply(caller) => ApplyKeeps(files, f, caller, out);
    case Enqueue(at, w) => EnqueueKeeps(files, f, at, w, out);
    case Dequeue(at, w) => DequeueKeeps(files, f, at, w, out);
    case Release(task) =>
      RemovedMembers(files[f], task);
      SublistKeeps(files, f, out);
    case FlockInsert(r) => FlockInsertKeeps(files, f, r, out);
    case FlockDelete(at) => SublistKeeps(files, f, out);
  }

  /** A run from a state in which no lock is held. */
  ghost predicate Run(states: seq<Files>) {
    && |states| > 0
    && (forall f :: 0 <= f < |states[0]| ==> states[0][f] == [])
    && (forall k :: 0 <= k < |states| - 1 ==> Next(states[k], states[k + 1]))
  }

  /** In every state of every run: no byte is locked for writing by one holder while another holds any
      lock on it; no inode mixes the two schemes; every queued request conflicts with the lock it is
      queued on; nobody waits for two, and no tasks wait for each other in a circle. */
  lemma {:induction false} RunsAreSafe(states: seq<Files>, k: nat)
    requires Run(states) && k < |states|
    ensures Invariant(states[k])
  {
    if k == 0 {
      assert Waits(states[0]) == {};
    } else {
      RunsAreSafe(states, k - 1);
      NextKeeps(states[k - 1], states[k]);
    }
  }

  // ---------- deadlock detection ----------

  /** The search of `posix_locks_deadlock` for a queue that a task is on. */
  method FindBlocker(files: Files, task: nat) returns (found: bool, owner: nat)
    ensures found ==> (task, owner) in Waits(files)
    ensures !found ==> !Waiting(files, task)
  {
    var f := 0;
    while f < |files|
      invariant 0 <= f <= |files|
      invariant forall g, i, w :: 0 <= g < f && 0 <= i < |files[g]| && files[g][i].posix && w in files[g][i].waiters
                                  ==> w.owner != task
    {
      var i := 0;
      while i < |files[f]|
        invariant 0 <= i <= |files[f]|
        invariant forall h, w :: 0 <= h < i && files[f][h].posix && w in files[f][h].waiters ==> w.owner != task
      {
        var fl := files[f][i];
        if fl.posix {
          var k := 0;
          while k < |fl.waiters|
            invariant 0 <= k <= |fl.waiters|
            invariant forall m :: 0 <= m < k ==> fl.waiters[m].owner != task
          {
            if fl.waiters[k].owner == task {
              assert fl.waiters[k] in fl.waiters;
              assert (fl.waiters[k].owner, files[f][i].r.owner) in Waits(files);
              return true, fl.r.owner;
            }
            k := k + 1;
          }
        }
        i := i + 1;
      }
      f := f + 1;
    }
    return false, 0;
  }

  lemma OnlyBlocker(g: Graph, t: nat, o: nat, goal: nat)
    requires OutDegreeOne(g) && (t, o) in g && t != goal
    ensures Reaches(g, t, goal) <==> Reaches(g, o, goal)
  {
    if Reaches(g, t, goal) {
      FirstEdge(g, t, goal);
    }
    if Reaches(g, o, goal) {
      EdgeReaches(g, t, o);
      ReachesTrans(g, t, o, goal);
    }
  }

  /** True exactly when letting `my_task` wait for `blocked_task` would close a cycle.
      It terminates because the graph has none: each task it visits is a new one. */
  method PosixLocksDeadlock(files: Files, my_task: nat, blocked_task: nat) returns (deadlock: bool)
    requires OutDegreeOne(Waits(files)) && Acyclic(Waits(files))
    ensures deadlock <==> Reaches(Waits(files), blocked_task, my_task)
    ensures deadlock <==> !Acyclic(Waits(files) + {(my_task, blocked_task)})
  {
    ghost var g := Waits(files);
    AcyclicAdd(g, my_task, blocked_task);
    var cur := blocked_task;
    ghost var seen: set<nat> := {};
    while true
      invariant Reaches(g, blocked_task, my_task) <==> Reaches(g, cur, my_task)
      invariant forall v :: v in seen ==> v in Sources(g) && exists s :: (v, s) in g && Reaches(g, s, cur)
      decreases Sources(g) - seen
    {
      assert cur !in seen;
      if my_task == cur {
        ReachesSelf(g, cur);
        return true;
      }
      var found, owner := FindBlocker(files, cur);
      if !found {
        if Reaches(g, cur, my_task) {
          FirstEdge(g, cur, my_task);
        }
        return false;
      }
      OnlyBlocker(g, cur, owner, my_task);
      if owner == my_task {
        ReachesSelf(g, owner);
        return true;
      }
      forall v | v in seen + {cur}
        ensures v in Sources(g) && exists s :: (v, s) in g && Reaches(g, s, owner)
      {
        if v == cur {
          assert (cur, owner).0 == cur;
          ReachesSelf(g, owner);
        } else {
          var s :| (v, s) in g && Reaches(g, s, cur);
          EdgeReaches(g, cur, owner);
          ReachesTrans(g, s, cur, owner);
        }
      }
      seen := seen + {cur};
      cur := owner;
    }
  }

  ghost function Sources(g: Graph): set<nat> {
    set e | e in g :: e.0
  }

  // ---------- the calls ----------

  datatype Outcome = Done | Busy | Again | Deadlock | Restart | NoLocks | Yield | Sleeping(at: nat)

  /** Caller is refused by the lock at the given place and by none before it. */
  ghost predicate FirstConflict(list: seq<Lock>, caller: Request, at: nat) {
    at < |list| && PosixConflict(caller, list[at].r) && forall i :: 0 <= i < at ==> !PosixConflict(caller, list[i].r)
  }

  /** Caller is refused, and the owner of the lock that refuses it waits for the caller, or does not. */
  ghost predicate Blocked(files: Files, f: nat, caller: Request, circle: bool)
    requires f < |files|
  {
    exists at: nat :: FirstConflict(files[f], caller, at) && (Reaches(Waits(files), files[f][at].r.owner, caller.owner) == circle)
  }

  method FindConflict(list: seq<Lock>, caller: Request) returns (at: nat)
    ensures at <= |list|
    ensures if at == |list| then NoConflict(list, caller) else FirstConflict(list, caller, at)
  {
    at := 0;
    while at < |list| && !PosixConflict(caller, list[at].r)
      invariant at <= |list|
      invariant forall i :: 0 <= i < at ==> !PosixConflict(caller, list[i].r)
    {
      at := at + 1;
    }
  }

  /** The first lock that an open file holds. */
  ghost predicate FirstOwn(list: seq<Lock>, file: nat, at: nat) {
    at < |list| && list[at].r.file == file && forall i :: 0 <= i < at ==> list[i].r.file != file
  }

  method FindOwn(list: seq<Lock>, file: nat) returns (at: nat)
    ensures at <= |list|
    ensures if at == |list| then forall i :: 0 <= i < |list| ==> list[i].r.file != file else FirstOwn(list, file, at)
  {
    at := 0;
    while at < |list| && list[at].r.file != file
      invariant at <= |list|
      invariant forall i :: 0 <= i < at ==> list[i].r.file != file
    {
      at := at + 1;
    }
  }

  ghost predicate OwnsNone(list: seq<Lock>, file: nat) {
    forall at: nat :: !FirstOwn(list, file, at)
  }

  /** The first lock of an open file is gone, if it had one of another type than the caller's. */
  ghost predicate OwnDeleted(list: seq<Lock>, caller: Request, out: seq<Lock>) {
    exists at: nat :: FirstOwn(list, caller.file, at) && list[at].r.typ != caller.typ && out == list[..at] + list[at + 1..]
  }

  ghost predicate OwnsSame(list: seq<Lock>, caller: Request) {
    exists at: nat :: FirstOwn(list, caller.file, at) && list[at].r.typ == caller.typ
  }

  /** Mandatory locking asks the question the other way round; the answer is the same. */
  lemma ConflictSymmetric(a: Request, b: Request)
    requires a.typ != Unlock && b.typ != Unlock
    ensures PosixConflict(a, b) <==> PosixConflict(b, a)
  {
  }

  /** The loop of `posix_remove_locks`. */
  method RemoveOwned(locks: seq<Lock>, task: nat) returns (list: seq<Lock>)
    ensures list == Removed(locks, task)
  {
    list := locks;
    var before := 0;
    while before < |list|
      invariant 0 <= before <= |list|
      invariant Removed(list[..before], task) == list[..before]
      invariant Removed(list, task) == Removed(locks, task)
      decreases |list| - before
    {
      if list[before].r.owner == task {
        RemovedDrop(list, before, task);
        ghost var was := list;
        list := list[..before] + list[before + 1..];
        assert list[..before] == was[..before];
      } else {
        RemovedConcat(list[..before], [list[before]], task);
        assert list[..before + 1] == list[..before] + [list[before]];
        before := before + 1;
      }
    }
    assert list[..before] == list;
  }

  class LockTable {
    var files: Files

    constructor (inodes: nat)
      ensures files == seq(inodes, _ => []) && Invariant(files)
    {
      files := seq(inodes, _ => []);
      new;
      assert Waits(files) == {};
    }

    /** One stretch of `posix_lock_file`: from its start, or from a wake-up, to its return or its next sleep. */
    method PosixLockFile(f: nat, caller: Request, wait: bool, signal: bool, memory: bool) returns (r: Outcome)
      requires Invariant(files) && f < |files| && caller.InRange() && !Waiting(files, caller.owner)
      modifies this
      ensures Invariant(files) && (files == old(files) || Next(old(files), files))
      ensures |files| == |old(files)| && files == old(files)[f := files[f]]
      ensures !r.Done? && !r.Sleeping? ==> files == old(files)
      ensures !memory <==> r == NoLocks
      ensures r == Busy <==> memory && files[f] != [] && !files[f][0].posix
      ensures r == Again ==> !wait && caller.typ != Unlock && !NoConflict(files[f], caller)
      ensures r == Deadlock ==> wait && caller.typ != Unlock && Blocked(files, f, caller, true)
      ensures r == Restart ==> wait && signal && caller.typ != Unlock && Blocked(files, f, caller, false)
      ensures r.Sleeping? ==> wait && !signal && caller.typ != Unlock && FirstConflict(old(files)[f], caller, r.at)
                              && Does(old(files), f, Enqueue(r.at, caller), files[f])
      ensures r.Done? ==> Does(old(files), f, Apply(caller), files[f])
    {
      if !memory {
        return NoLocks;
      }
      var list := files[f];
      if list != [] && !list[0].posix {
        return Busy;
      }
      assert AllPosix(list);
      if caller.typ != Unlock {
        var at := FindConflict(list, caller);
        if at < |list| {
          if !wait {
            return Again;
          }
          var deadlock := PosixLocksDeadlock(files, caller.owner, list[at].r.owner);
          if deadlock {
            return Deadlock;
          }
          if signal {
            return Restart;
          }
          Queue(f, at, caller);
          return Sleeping(at);
        }
      }
      var out := PosixApply(list, caller);
      assert Does(files, f, Apply(caller), out);
      ApplyKeeps(files, f, caller, out);
      files := files[f := out];
      return Done;
    }

    /** `locks_insert_block`. */
    method Queue(f: nat, at: nat, w: Request)
      requires Invariant(files) && f < |files| && at < |files[f]| && WaiterConflict(w, files[f][at])
      requires files[f][at].posix ==> !Waiting(files, w.owner) && !Reaches(Waits(files), files[f][at].r.owner, w.owner)
      modifies this
      ensures f < |files| && files == old(files)[f := files[f]]
      ensures Does(old(files), f, Enqueue(at, w), files[f]) && Invariant(files) && Next(old(files), files)
    {
      var list := files[f];
      var out := list[at := list[at].(waiters := list[at].waiters + [w])];
      assert Does(files, f, Enqueue(at, w), out);
      EnqueueKeeps(files, f, at, w, out);
      files := files[f := out];
    }

    /** `locks_delete_block`: a task that slept on a lock comes off its queue. */
    method StopWaiting(f: nat, at: nat, w: Request)
      requires Invariant(files) && f < |files| && at < |files[f]|
      modifies this
      ensures f < |files| && files == old(files)[f := files[f]]
      ensures Does(old(files), f, Dequeue(at, w), files[f]) && Invariant(files) && Next(old(files), files)
    {
      var list := files[f];
      var out := list[at := list[at].(waiters := Without(list[at].waiters, w))];
      assert Does(files, f, Dequeue(at, w), out);
      DequeueKeeps(files, f, at, w, out);
      files := files[f := out];
    }

    /** One stretch of `locks_mandatory_area` for a read or a write of bytes offset .. offset + count - 1. */
    method MandatoryArea(f: nat, tfl: Request, nonblock: bool, signal: bool) returns (r: Outcome)
      requires Invariant(files) && f < |files| && tfl.typ != Unlock && !Waiting(files, tfl.owner)
      modifies this
      ensures Invariant(files) && (files == old(files) || Next(old(files), files))
      ensures !r.Sleeping? ==> files == old(files)
      ensures r.Done? ==> AllPosix(files[f]) ==> NoConflict(files[f], tfl)
      ensures r != Busy && r != NoLocks && (r.Done? || AllPosix(old(files)[f]))
      ensures r == Again ==> nonblock && !NoConflict(files[f], tfl)
      ensures r == Restart ==> !nonblock && signal && !NoConflict(files[f], tfl)
      ensures r == Deadlock ==> !nonblock && !signal && Blocked(files, f, tfl, true)
      ensures r.Sleeping? ==> !nonblock && !signal && FirstConflict(old(files)[f], tfl, r.at)
      ensures r.Sleeping? ==> |files| == |old(files)| && Does(old(files), f, Enqueue(r.at, tfl), files[f])
    {
      var list := files[f];
      if list == [] || !list[0].posix {
        return Done;
      }
      var at := FindConflict(list, tfl);
      if at == |list| {
        return Done;
      }
      if nonblock {
        return Again;
      }
      if signal {
        return Restart;
      }
      var deadlock := PosixLocksDeadlock(files, tfl.owner, list[at].r.owner);
      if deadlock {
        return Deadlock;
      }
      assert list[at].posix;
      Queue(f, at, tfl);
      return Sleeping(at);
    }

    /** The stretch after a sleep: a signal ends it, and so does a file that is no longer marked for mandatory locks; else the
        search begins again. */
    method MandatoryAgain(f: nat, tfl: Request, nonblock: bool, signal: bool, mandatory: bool) returns (r: Outcome)
      requires Invariant(files) && f < |files| && tfl.typ != Unlock && !Waiting(files, tfl.owner)
      modifies this
      ensures Invariant(files) && (files == old(files) || Next(old(files), files))
      ensures !r.Sleeping? ==> files == old(files)
      ensures signal ==> r == Restart
      ensures !signal && !mandatory ==> r == Done
      ensures r.Done? && mandatory && AllPosix(files[f]) ==> NoConflict(files[f], tfl)
      ensures r == Again ==> nonblock && !NoConflict(files[f], tfl)
      ensures r == Deadlock ==> !nonblock && Blocked(files, f, tfl, true)
      ensures r.Sleeping? ==> mandatory && !nonblock && FirstConflict(old(files)[f], tfl, r.at)
      ensures r.Sleeping? ==> |files| == |old(files)| && Does(old(files), f, Enqueue(r.at, tfl), files[f])
    {
      if signal {
        return Restart;
      }
      if !mandatory {
        return Done;
      }
      r := MandatoryArea(f, tfl, nonblock, signal);
    }

    /** `posix_remove_locks`: closing a file drops every lock the task has on it. */
    method PosixRemoveLocks(f: nat, task: nat)
      requires Invariant(files) && f < |files|
      modifies this
      ensures Invariant(files) && Next(old(files), files)
      ensures files == old(files)[f := Removed(old(files)[f], task)]
    {
      var list := RemoveOwned(files[f], task);
      assert Does(files, f, Release(task), list);
      RemovedMembers(files[f], task);
      SublistKeeps(files, f, list);
      files := files[f := list];
    }

    /** `locks_delete_lock`, for an FLOCK lock. */
    method FlockDeleteLock(f: nat, at: nat)
      requires Invariant(files) && f < |files| && at < |files[f]| && !files[f][at].posix
      modifies this
      ensures Invariant(files) && Next(old(files), files)
      ensures |files| == |old(files)| && files == old(files)[f := files[f]]
      ensures files[f] == old(files)[f][..at] + old(files)[f][at + 1..]
    {
      var out := files[f][..at] + files[f][at + 1..];
      assert Does(files, f, FlockDelete(at), out);
      SublistKeeps(files, f, out);
      files := files[f := out];
    }

    /** One stretch of `flock_lock_file` from its search on.  After deleting a lock to change its type it lets those
        who waited for the lock run, and searches again. */
    method FlockLockFile(f: nat, caller: Request, wait: bool, signal: bool, memory: bool) returns (r: Outcome)
      requires Invariant(files) && f < |files|
      modifies this
      ensures Invariant(files) && (files == old(files) || Next(old(files), files))
      ensures |files| == |old(files)| && files == old(files)[f := files[f]]
      ensures r == NoLocks <==> caller.typ != Unlock && !memory
      ensures r == NoLocks || r == Busy || r == Again || r == Restart ==> files == old(files)
      ensures r == Busy <==> r != NoLocks && files[f] != [] && files[f][0].posix
      ensures r == Yield ==> caller.typ != Unlock && OwnDeleted(old(files)[f], caller, files[f])
      ensures r.Done? && caller.typ == Unlock ==>
                OwnDeleted(old(files)[f], caller, files[f]) || (files == old(files) && OwnsNone(files[f], caller.file))
      ensures r.Done? && caller.typ != Unlock ==> OwnsSame(files[f], caller) && (files == old(files) || OwnsNone(old(files)[f], caller.file))
      ensures r == Again || r == Restart || r.Sleeping? ==>
                caller.typ != Unlock && OwnsNone(old(files)[f], caller.file) && (signal <==> r == Restart)
                && (r == Again ==> !wait) && (r.Sleeping? ==> wait)
      ensures r.Sleeping? ==> Does(old(files), f, Enqueue(r.at, caller), files[f])
    {
      if caller.typ != Unlock && !memory {
        return NoLocks;
      }
      var list := files[f];
      if list != [] && list[0].posix {
        return Busy;
      }
      var at := FindOwn(list, caller.file);
      if at < |list| {
        if list[at].r.typ == caller.typ {
          return Done;
        }
        FlockDeleteLock(f, at);
        return if caller.typ == Unlock then Done else Yield;
      }
      if caller.typ == Unlock {
        return Done;
      }
      r := FlockTry(f, caller, wait, signal);
      if r.Done? {
        assert FirstOwn(files[f], caller.file, 0);
      }
    }

    /** `flock_lock_file` from where it repeats after a sleep: take the lock, or sleep on the first one in the way. */
    method FlockTry(f: nat, new_fl: Request, wait: bool, signal: bool) returns (r: Outcome)
      requires Invariant(files) && f < |files| && new_fl.typ != Unlock
      modifies this
      ensures Invariant(files) && (files == old(files) || Next(old(files), files))
      ensures |files| == |old(files)| && files == old(files)[f := files[f]]
      ensures !r.Done? && !r.Sleeping? ==> files == old(files)
      ensures r == Restart <==> signal
      ensures r == Busy <==> !signal && files[f] != [] && files[f][0].posix
      ensures r.Done? || r.Sleeping? || r == Again || r == Busy || r == Restart
      ensures r.Done? ==> Does(old(files), f, FlockInsert(new_fl), files[f])
      ensures r == Again ==> !wait && exists i :: 0 <= i < |files[f]| && FlockConflict(new_fl, files[f][i].r)
      ensures r.Sleeping? ==> wait && Does(old(files), f, Enqueue(r.at, new_fl), files[f])
                              && forall i :: 0 <= i < r.at ==> !FlockConflict(new_fl, old(files)[f][i].r)
    {
      if signal {
        return Restart;
      }
      var list := files[f];
      if list != [] && list[0].posix {
        return Busy;
      }
      var i := 0;
      while i < |list| && !FlockConflict(new_fl, list[i].r)
        invariant 0 <= i <= |list|
        invariant forall k :: 0 <= k < i ==> !FlockConflict(new_fl, list[k].r)
      {
        i := i + 1;
      }
      if i < |list| {
        if !wait {
          return Again;
        }
        assert list[i].posix == list[0].posix;
        Queue(f, i, new_fl);
        return Sleeping(i);
      }
      var out := [Lock(false, new_fl, [])] + list;
      assert Does(files, f, FlockInsert(new_fl), out);
      FlockInsertKeeps(files, f, new_fl, out);
      files := files[f := out];
      return Done;
    }
  }

  lemma {:induction false} RemovedConcat(a: seq<Lock>, b: seq<Lock>, task: nat)
    ensures Removed(a + b, task) == Removed(a, task) + Removed(b, task)
  {
    if a == [] {
      assert a + b == b;
    } else {
      assert (a + b)[1..] == a[1..] + b;
      RemovedConcat(a[1..], b, task);
    }
  }

  lemma {:induction false} RemovedDrop(list: seq<Lock>, at: nat, task: nat)
    requires at < |list| && list[at].r.owner == task
    ensures Removed(list[..at] + list[at + 1..], task) == Removed(list, task)
  {
    assert list == list[..at] + ([list[at]] + list[at + 1..]);
    RemovedConcat(list[..at], [list[at]] + list[at + 1..], task);
    RemovedConcat([list[at]], list[at + 1..], task);
    RemovedConcat(list[..at], list[at + 1..], task);
  }
}
