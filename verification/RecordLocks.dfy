/**
 Byte-range record locks: the requests, the conflict rules, and the pass of
 `posix_lock_file` over the locks that one owner holds on one inode.

 A list of locks means a partial function from bytes to lock types.  The pass
 merges, replaces, truncates and splits intervals; `UpdateRun` is proved to set
 the caller's type on exactly the caller's bytes and to keep the list in its
 normal form, unless the 32-bit sum `fl_end + 1` wraps (`EndWraps`).
 */
module RecordLocks {
  import opened Wrappers

  const OFFSET_MAX: int := 0x7fff_ffff
  const OFFSET_MIN: int := -0x8000_0000

  /** `x + 1` in a 32-bit two's-complement `off_t`. */
  function OffSucc(x: int): int {
    if x == OFFSET_MAX then OFFSET_MIN else x + 1
  }

  datatype LockType = Read | Write | Unlock

  /** The part of a `file_lock` that says who wants what; owner 0 is the null task of FLOCK requests. */
  datatype Request = Request(owner: nat, file: nat, typ: LockType, start: int, end: int) {
    predicate Covers(b: int) {
      start <= b <= end
    }

    predicate InRange() {
      0 <= start <= end <= OFFSET_MAX
    }
  }

  /** A granted lock with the requests queued on its block list, oldest first. */
  datatype Lock = Lock(posix: bool, r: Request, waiters: seq<Request>) {
    /** The lock after a change of its range. */
    function Resized(start: int, end: int): Lock {
      this.(r := r.(start := start, end := end))
    }

    /** The lock after `locks_wake_up_blocks`: nobody is queued on it any more. */
    function Woken(): Lock {
      this.(waiters := [])
    }
  }

  // ---------- making a request ----------

  /** A sum stored in a 32-bit two's-complement `off_t`. */
  function Wrap32(x: int): (r: int)
    ensures OFFSET_MIN <= r <= OFFSET_MAX
    ensures OFFSET_MIN <= x <= OFFSET_MAX ==> r == x
  {
    (x + 0x8000_0000) % 0x1_0000_0000 - 0x8000_0000
  }

  predicate IsOffset(x: int) {
    OFFSET_MIN <= x <= OFFSET_MAX
  }

  /** `posix_make_lock`, with `base` the position that `l_whence` names. */
  function PosixMakeLock(owner: nat, file: nat, typ: LockType, base: int, lstart: int, len: int): (r: Option<Request>) {
    var start := Wrap32(base + lstart);
    if start < 0 || len < 0 then None
    else
      var end := Wrap32(start + len - 1);
      Some(Request(owner, file, typ, start, if len == 0 || end < 0 then OFFSET_MAX else end))
  }

  /** A made request covers, of the bytes that exist, exactly len bytes from its start, or all of them if len is 0. */
  lemma MadeRequest(owner: nat, file: nat, typ: LockType, base: int, lstart: int, len: int)
    requires IsOffset(base) && IsOffset(lstart) && IsOffset(len)
    ensures var r := PosixMakeLock(owner, file, typ, base, lstart, len);
            && (r.None? <==> len < 0 || Wrap32(base + lstart) < 0)
            && (r.Some? ==> r.value.InRange()
                            && forall b :: r.value.Covers(b) <==>
                                 Wrap32(base + lstart) <= b <= OFFSET_MAX && (len == 0 || b < Wrap32(base + lstart) + len))
  {
    var start := Wrap32(base + lstart);
    if start >= 0 && len > 0 && start + len - 1 > OFFSET_MAX {
      assert Wrap32(start + len - 1) == start + len - 1 - 0x1_0000_0000;
    }
  }

  // ---------- conflicts ----------

  predicate Overlap(a: Request, b: Request) {
    a.end >= b.start && b.end >= a.start
  }

  predicate Conflict(caller: Request, sys: Request) {
    Overlap(caller, sys) &&
    match caller.typ
    case Read => sys.typ == Write
    case Write => true
    case Unlock => false
  }

  predicate PosixConflict(caller: Request, sys: Request) {
    caller.owner != sys.owner && Conflict(caller, sys)
  }

  predicate FlockConflict(caller: Request, sys: Request) {
    caller.file != sys.file && Conflict(caller, sys)
  }

  // ---------- what a list of locks means ----------

  /** Some lock of the list holds byte b with type t. */
  ghost predicate Held(run: seq<Lock>, b: int, t: LockType) {
    exists i :: 0 <= i < |run| && run[i].r.typ == t && run[i].r.Covers(b)
  }

  /** The normal form of one owner's locks: in range, ascending, disjoint, and no two touching locks of one type. */
  ghost predicate Canonical(run: seq<Lock>) {
    && (forall i :: 0 <= i < |run| ==> run[i].r.InRange() && run[i].r.typ != Unlock)
    && (forall i, j :: 0 <= i < j < |run| ==> run[i].r.end < run[j].r.start)
    && (forall i, j :: 0 <= i < |run| && j == i + 1 < |run| && run[i].r.end + 1 == run[j].r.start
                       ==> run[i].r.typ != run[j].r.typ)
  }

  /** Byte b has type t in the list, or the caller asks for it. */
  ghost predicate Backed(run: seq<Lock>, caller: Request, b: int, t: LockType) {
    Held(run, b, t) || (caller.typ == t && caller.Covers(b))
  }

  /** Every queued request conflicts with the lock it is queued on. */
  ghost predicate WaitersConflict(run: seq<Lock>) {
    forall i, w :: 0 <= i < |run| && w in run[i].waiters ==> WaiterConflict(w, run[i])
  }

  ghost predicate WaiterConflict(w: Request, l: Lock) {
    if l.posix then PosixConflict(w, l.r) else FlockConflict(w, l.r)
  }

  ghost predicate OwnedBy(run: seq<Lock>, owner: nat) {
    forall i :: 0 <= i < |run| ==> run[i].posix && run[i].r.owner == owner && run[i].r.typ != Unlock
  }

  /** The comparison with `fl_end + 1` meets a wrapped sum: the request runs to OFFSET_MAX
      and some lock of its type reaches its start. */
  ghost predicate EndWraps(run: seq<Lock>, caller: Request) {
    caller.end == OFFSET_MAX &&
    exists i :: 0 <= i < |run| && run[i].r.typ == caller.typ && run[i].r.end >= caller.start - 1
  }

  /** Equal up to waiters and file: the same ranges with the same types. */
  ghost predicate SameRanges(a: seq<Lock>, b: seq<Lock>) {
    |a| == |b| &&
    forall i :: 0 <= i < |a| ==> a[i].r.typ == b[i].r.typ && a[i].r.start == b[i].r.start && a[i].r.end == b[i].r.end
  }

  /** The normal form is unique: lists that mean the same are the same ranges. */
  lemma {:induction false} CanonicalUnique(a: seq<Lock>, b: seq<Lock>)
    requires Canonical(a) && Canonical(b)
    requires forall x, t :: Held(a, x, t) <==> Held(b, x, t)
    ensures SameRanges(a, b)
    decreases |a|
  {
    if a == [] || b == [] {
      if a != [] {
        assert Held(a, a[0].r.start, a[0].r.typ);
      }
      if b != [] {
        assert Held(b, b[0].r.start, b[0].r.typ);
      }
    } else {
      SameHead(a, b);
      SameHead(b, a);
      forall x, t
        ensures Held(a[1..], x, t) <==> Held(b[1..], x, t)
      {
        HeldTail(a, x, t);
        HeldTail(b, x, t);
      }
      CanonicalUnique(a[1..], b[1..]);
    }
  }

  lemma HeldTail(a: seq<Lock>, x: int, t: LockType)
    requires Canonical(a) && a != []
    ensures Held(a[1..], x, t) <==> Held(a, x, t) && x > a[0].r.end
  {
    if Held(a, x, t) && x > a[0].r.end {
      var i :| 0 <= i < |a| && a[i].r.typ == t && a[i].r.Covers(x);
      assert a[1..][i - 1] == a[i];
    }
  }

  lemma SameHead(a: seq<Lock>, b: seq<Lock>)
    requires Canonical(a) && Canonical(b) && a != [] && b != []
    requires forall x, t :: Held(a, x, t) <==> Held(b, x, t)
    ensures a[0].r.start >= b[0].r.start
    ensures a[0].r.start == b[0].r.start ==> a[0].r.typ == b[0].r.typ
    ensures a[0].r.start == b[0].r.start ==> a[0].r.end <= b[0].r.end
  {
    assert Held(a, a[0].r.start, a[0].r.typ);
    var i :| 0 <= i < |b| && b[i].r.typ == a[0].r.typ && b[i].r.Covers(a[0].r.start);
    if a[0].r.start == b[0].r.start && b[0].r.end < a[0].r.end {
      assert Held(a, b[0].r.end + 1, a[0].r.typ);
      FirstIsMaximal(b);
    }
  }

  lemma FirstIsMaximal(b: seq<Lock>)
    requires Canonical(b) && b != []
    ensures !Held(b, b[0].r.end + 1, b[0].r.typ)
  {
    forall j | 0 <= j < |b| && b[j].r.typ == b[0].r.typ
      ensures !b[j].r.Covers(b[0].r.end + 1)
    {
      if j > 1 {
        assert b[1].r.end < b[j].r.start;
      }
    }
  }

  lemma HeldConcat(a: seq<Lock>, b: seq<Lock>, x: int, t: LockType)
    ensures Held(a + b, x, t) <==> Held(a, x, t) || Held(b, x, t)
  {
    var c := a + b;
    if Held(a, x, t) {
      var i :| 0 <= i < |a| && a[i].r.typ == t && a[i].r.Covers(x);
      assert c[i] == a[i];
    }
    if Held(b, x, t) {
      var i :| 0 <= i < |b| && b[i].r.typ == t && b[i].r.Covers(x);
      assert c[|a| + i] == b[i];
    }
  }

  /** Every lock ends below x; those of type t leave a byte free below x. */
  ghost predicate EndsBelow(run: seq<Lock>, x: int, t: LockType) {
    forall k :: 0 <= k < |run| ==> run[k].r.end < x && (run[k].r.typ == t ==> run[k].r.end < x - 1)
  }

  /** Every lock starts above x; those of type t leave a byte free above x. */
  ghost predicate StartsAbove(run: seq<Lock>, x: int, t: LockType) {
    forall k :: 0 <= k < |run| ==> run[k].r.start > x && (run[k].r.typ == t ==> run[k].r.start > x + 1)
  }

  lemma CanonicalConcat(a: seq<Lock>, b: seq<Lock>)
    requires Canonical(a) && Canonical(b)
    requires a != [] && b != [] ==>
               var x, y := a[|a| - 1].r, b[0].r;
               x.end < y.start && (x.end + 1 == y.start ==> x.typ != y.typ)
    ensures Canonical(a + b)
  {
    forall i, j | 0 <= i < |a| && 0 <= j < |b|
      ensures a[i].r.end < b[j].r.start
    {
      assert a[i].r.end <= a[|a| - 1].r.end && b[0].r.start <= b[j].r.start;
    }
  }

  // ---------- the splice that ends every pass ----------

  /** What the pass has established: `pre` and `post` stay clear of the final range cs..ce,
      and `lf` and `rt` are what is left of the locks `cut` on either side of it. */
  ghost predicate SpliceReady(pre: seq<Lock>, cut: seq<Lock>, post: seq<Lock>, t: LockType, cs: int, ce: int,
                              lf: seq<Lock>, mid: seq<Lock>, rt: seq<Lock>)
  {
    && 0 <= cs <= ce <= OFFSET_MAX
    && EndsBelow(pre, cs, t) && StartsAbove(post, ce, t)
    && (forall k :: 0 <= k < |cut| ==> (cut[k].r.start >= cs || (k == 0 && |lf| == 1))
                                       && (cut[k].r.end <= ce || (k == |cut| - 1 && |rt| == 1)))
    && |lf| <= 1 && |rt| <= 1 && (|lf| + |rt| > 0 ==> cut != [])
    && (|lf| == 1 ==> lf[0].r == cut[0].r.(end := cs - 1) && cut[0].r.start < cs <= cut[0].r.end && cut[0].r.typ != t)
    && (|rt| == 1 ==> var z := cut[|cut| - 1].r;
                      rt[0].r == z.(start := ce + 1) && z.start <= ce < z.end && z.typ != t)
    && (if t == Unlock then mid == []
        else |mid| == 1 && mid[0].r.typ == t && mid[0].r.start == cs && mid[0].r.end == ce)
  }

  lemma SpliceCanonical(pre: seq<Lock>, cut: seq<Lock>, post: seq<Lock>, t: LockType, cs: int, ce: int,
                        lf: seq<Lock>, mid: seq<Lock>, rt: seq<Lock>)
    requires SpliceReady(pre, cut, post, t, cs, ce, lf, mid, rt)
    requires Canonical(pre + cut + post)
    ensures Canonical(pre + lf + mid + rt + post)
  {
    FrontCanonical(pre, cut, post, t, cs, ce, lf, mid, rt);
    BackCanonical(pre, cut, post, t, cs, ce, lf, mid, rt);
    AroundCanonical(pre + lf, mid, rt + post, t, cs, ce);
    assert pre + lf + mid + rt + post == (pre + lf) + mid + (rt + post);
  }

  lemma AroundCanonical(front: seq<Lock>, mid: seq<Lock>, back: seq<Lock>, t: LockType, cs: int, ce: int)
    requires Canonical(front) && Canonical(back) && EndsBelow(front, cs, t) && StartsAbove(back, ce, t)
    requires 0 <= cs <= ce <= OFFSET_MAX
    requires if t == Unlock then mid == []
             else |mid| == 1 && mid[0].r.typ == t && mid[0].r.start == cs && mid[0].r.end == ce
    ensures Canonical(front + mid + back)
  {
    CanonicalConcat(front, mid);
    CanonicalConcat(front + mid, back);
  }

  lemma FrontCanonical(pre: seq<Lock>, cut: seq<Lock>, post: seq<Lock>, t: LockType, cs: int, ce: int,
                       lf: seq<Lock>, mid: seq<Lock>, rt: seq<Lock>)
    requires SpliceReady(pre, cut, post, t, cs, ce, lf, mid, rt)
    requires Canonical(pre + cut + post)
    ensures Canonical(pre + lf) && EndsBelow(pre + lf, cs, t)
  {
    var run := pre + cut + post;
    assert pre == run[..|pre|];
    if |lf| == 1 {
      assert run[|pre|] == cut[0];
      CanonicalConcat(pre, lf);
    } else {
      assert pre + lf == pre;
    }
  }

  lemma CanonicalSuffix(run: seq<Lock>, a: seq<Lock>, b: seq<Lock>)
    requires Canonical(run) && run == a + b
    ensures Canonical(b)
  {
    assert forall i :: 0 <= i < |b| ==> run[|a| + i] == b[i];
  }

  lemma BackCanonical(pre: seq<Lock>, cut: seq<Lock>, post: seq<Lock>, t: LockType, cs: int, ce: int,
                      lf: seq<Lock>, mid: seq<Lock>, rt: seq<Lock>)
    requires SpliceReady(pre, cut, post, t, cs, ce, lf, mid, rt)
    requires Canonical(pre + cut + post)
    ensures Canonical(rt + post) && StartsAbove(rt + post, ce, t)
  {
    var run := pre + cut + post;
    CanonicalSuffix(run, pre + cut, post);
    if |rt| == 1 {
      assert run[|pre| + |cut| - 1] == cut[|cut| - 1];
      assert post != [] ==> run[|pre| + |cut|] == post[0];
      CanonicalConcat(rt, post);
    } else {
      assert rt + post == post;
    }
  }

  lemma SpliceMeaning(pre: seq<Lock>, cut: seq<Lock>, post: seq<Lock>, caller: Request, cs: int, ce: int,
                      lf: seq<Lock>, mid: seq<Lock>, rt: seq<Lock>, b: int, t: LockType)
    requires SpliceReady(pre, cut, post, caller.typ, cs, ce, lf, mid, rt)
    requires Canonical(pre + cut + post)
    requires cs <= caller.start && caller.end <= ce
    requires cs <= b <= ce ==> Backed(pre + cut + post, caller, b, caller.typ)
    ensures Held(pre + lf + mid + rt + post, b, t)
            <==> if caller.Covers(b) then t == caller.typ != Unlock else Held(pre + cut + post, b, t)
  {
    HeldConcat(pre + lf + mid + rt, post, b, t);
    HeldConcat(pre + lf + mid, rt, b, t);
    HeldConcat(pre + lf, mid, b, t);
    HeldConcat(pre, lf, b, t);
    HeldConcat(pre + cut, post, b, t);
    HeldConcat(pre, cut, b, t);
    assert Held(mid, b, t) <==> mid != [] && cs <= b <= ce && t == caller.typ;
    if cs <= b <= ce {
      if !caller.Covers(b) {
        HeldOnce(pre + cut + post, b, t, caller.typ);
      }
    } else {
      MiddleOutside(pre, cut, post, caller.typ, cs, ce, lf, mid, rt, b, t);
    }
  }

  /** Outside the final range the replaced locks and their leftovers hold the same bytes. */
  lemma MiddleOutside(pre: seq<Lock>, cut: seq<Lock>, post: seq<Lock>, ct: LockType, cs: int, ce: int,
                      lf: seq<Lock>, mid: seq<Lock>, rt: seq<Lock>, b: int, t: LockType)
    requires SpliceReady(pre, cut, post, ct, cs, ce, lf, mid, rt)
    requires !(cs <= b <= ce)
    ensures Held(cut, b, t) <==> Held(lf, b, t) || Held(rt, b, t)
  {
    if Held(cut, b, t) {
      if b < cs {
        assert lf[0].r.Covers(b);
      } else {
        assert rt[0].r.Covers(b);
      }
    }
    if Held(lf, b, t) {
      assert cut[0].r.Covers(b);
    }
    if Held(rt, b, t) {
      assert cut[|cut| - 1].r.Covers(b);
    }
  }

  lemma HeldOnce(run: seq<Lock>, b: int, t: LockType, u: LockType)
    requires Canonical(run) && Held(run, b, u)
    ensures Held(run, b, t) <==> t == u
  {
  }

  // ---------- the pass ----------

  /** The local variables of the pass: the list, the caller's growing range, whether it is already
      in the list (`at` is its index then), the lock cut on its left and the one cut on its right,
      and the position. */
  datatype Scan = Scan(list: seq<Lock>, start: int, end: int, added: bool, at: int, left: int, right: int, pos: int)

  /** What holds of every list, in normal form or not: no byte gains a type that neither the
      old list nor the caller gave it, and nobody is left waiting for a lock that lets him go. */
  ghost predicate Sound(run: seq<Lock>, caller: Request, list: seq<Lock>) {
    forall i :: 0 <= i < |list| ==> SoundLock(run, caller, list[i])
  }

  ghost predicate SoundLock(run: seq<Lock>, caller: Request, l: Lock) {
    && l.posix && l.r.owner == caller.owner && l.r.typ != Unlock
    && (forall b :: l.r.Covers(b) ==> Backed(run, caller, b, l.r.typ))
    && (WaitersConflict(run) ==> forall w :: w in l.waiters ==> WaiterConflict(w, l))
    && (forall w :: w in l.waiters ==> QueuedIn(run, w))
  }

  ghost predicate QueuedIn(run: seq<Lock>, w: Request) {
    exists i :: 0 <= i < |run| && w in run[i].waiters
  }

  ghost predicate RangeBacked(run: seq<Lock>, caller: Request, start: int, end: int) {
    forall b :: start <= b <= end ==> Backed(run, caller, b, caller.typ)
  }

  ghost predicate Shape(st: Scan) {
    && 0 <= st.pos <= |st.list|
    && -1 <= st.at < st.pos && -1 <= st.left <= st.pos && (st.right == -1 || st.right == st.pos < |st.list|)
    && (st.left == st.pos ==> st.right == st.pos)
    && (st.at >= 0 ==> st.added)
  }

  function Min(a: int, b: int): int { if a < b then a else b }
  function Max(a: int, b: int): int { if a < b then b else a }

  /** `fl` and the caller are made one lock; if the caller is already a lock of the list, that one is widened too. */
  function Merged(st: Scan): Scan
    requires Shape(st) && st.pos < |st.list|
  {
    var fl := st.list[st.pos].r;
    var s, e := Min(fl.start, st.start), Max(fl.end, st.end);
    var l1 := st.list[st.pos := st.list[st.pos].Resized(s, e)];
    var l2 := if st.at >= 0 then l1[st.at := l1[st.at].Resized(s, e)] else l1;
    st.(list := l2, start := s, end := e)
  }

  function Deleted(st: Scan): Scan
    requires 0 <= st.pos < |st.list|
  {
    st.(list := st.list[..st.pos] + st.list[st.pos + 1..])
  }

  /** `fl` takes over the caller's range and type, and its waiters are woken. */
  function Replaced(st: Scan, typ: LockType): Scan
    requires 0 <= st.pos < |st.list|
  {
    var fl := st.list[st.pos];
    st.(list := st.list[st.pos := Lock(fl.posix, fl.r.(typ := typ, start := st.start, end := st.end), [])])
  }

  lemma SoundMerged(run: seq<Lock>, caller: Request, st: Scan)
    requires Shape(st) && st.pos < |st.list| && Sound(run, caller, st.list) && caller.typ != Unlock
    requires RangeBacked(run, caller, st.start, st.end)
    requires st.list[st.pos].r.typ == caller.typ
    requires st.at >= 0 ==> st.list[st.at].r.typ == caller.typ
                            && st.list[st.at].r.start == st.start && st.list[st.at].r.end == st.end
    requires st.list[st.pos].r.end >= st.start - 1 && st.list[st.pos].r.start <= st.end + 1
    ensures var m := Merged(st);
            Sound(run, caller, m.list) && RangeBacked(run, caller, m.start, m.end)
  {
    var m := Merged(st);
    var fl := st.list[st.pos];
    forall b | m.start <= b <= m.end
      ensures Backed(run, caller, b, caller.typ)
    {
      assert fl.r.Covers(b) || st.start <= b <= st.end;
    }
    var l1 := st.list[st.pos := fl.Resized(m.start, m.end)];
    assert SoundLock(run, caller, fl.Resized(m.start, m.end));
    if st.at >= 0 {
      assert SoundLock(run, caller, l1[st.at].Resized(m.start, m.end));
    }
  }

  // ---------- the pass over a list in normal form ----------

  /** Where the changed part of the list begins. */
  function Mark(st: Scan): int {
    if st.at >= 0 then st.at else st.pos
  }

  /** The state of the pass over a list in normal form, when the first src locks of it have been dealt with. */
  ghost predicate Pass(run: seq<Lock>, caller: Request, st: Scan, src: nat) {
    var m := Mark(st);
    && Shape(st) && st.right == -1 && Canonical(run) && caller.InRange()
    && (st.at == -1 || st.at == st.pos - 1) && (st.left == -1 || st.left == m - 1)
    && m <= src <= |run| && st.list[st.pos..] == run[src..] && st.list[..m] == run[..m]
    && 0 <= st.start <= caller.start && caller.end <= st.end <= OFFSET_MAX
    && EndsBelow(run[..if st.left == -1 then m else m - 1], st.start, caller.typ)
    && (st.left >= 0 ==> run[st.left].r.start < st.start <= run[st.left].r.end <= st.end
                         && run[st.left].r.typ != caller.typ)
    && (forall k :: m <= k < src ==> st.start <= run[k].r.start && run[k].r.end <= st.end)
    && RangeBacked(run, caller, st.start, st.end)
    && (st.at >= 0 ==> var l := st.list[st.at].r;
                       m < src && caller.typ != Unlock && l.typ == caller.typ && l.start == st.start && l.end == st.end)
    && (st.at == -1 ==> st.start == caller.start && st.end == caller.end)
    && (caller.typ != Unlock ==> (st.added <==> st.at >= 0) && (st.at == -1 ==> src == m))
    && (caller.typ == Unlock && !st.added ==> st.left == -1 && src == m)
    && (st.end == caller.end || (src > 0 && run[src - 1].r.end == st.end))
    && (src > m ==> run[src - 1].r.end >= caller.start - 1)
  }

  /** While the sum is going to wrap, the caller keeps its range and the lock that trips it lies ahead. */
  ghost predicate WrapAhead(run: seq<Lock>, caller: Request, st: Scan, src: nat) {
    && src <= |run| && st.start == caller.start && st.end == caller.end == OFFSET_MAX
    && EndWraps(run[src..], caller) && forall k :: 0 <= k < src ==> !Trips(run[k], caller)
  }

  /** The first lock the pass has not dealt with. */
  lemma Here(run: seq<Lock>, caller: Request, st: Scan, src: nat)
    requires Pass(run, caller, st, src) && st.pos < |st.list|
    ensures src < |run| && st.list[st.pos] == run[src] && st.list[st.pos + 1..] == run[src + 1..]
    ensures run[..src + 1] == run[..src] + [run[src]]
  {
    assert st.list[st.pos] == st.list[st.pos..][0];
    assert run[src] == run[src..][0];
    assert st.list[st.pos + 1..] == st.list[st.pos..][1..];
    assert run[src + 1..] == run[src..][1..];
  }

  lemma PassSkip(run: seq<Lock>, caller: Request, st: Scan, src: nat)
    requires Pass(run, caller, st, src) && st.pos < |st.list|
    requires EndsBelow([st.list[st.pos]], st.start, caller.typ)
    ensures Pass(run, caller, st.(pos := st.pos + 1), src + 1)
  {
    Here(run, caller, st, src);
    assert st.list[st.pos] == [st.list[st.pos]][0];
    assert run[src].r.end < st.start;
  }

  /** A lock of another type that begins before the caller and ends in it is cut on the left. */
  lemma PassLeft(run: seq<Lock>, caller: Request, st: Scan, src: nat)
    requires Pass(run, caller, st, src) && st.pos < |st.list|
    requires var fl := st.list[st.pos].r;
             fl.typ != caller.typ && fl.start < st.start <= fl.end <= st.end
    ensures Pass(run, caller, st.(left := st.pos, added := st.added || caller.typ == Unlock, pos := st.pos + 1), src + 1)
  {
    Here(run, caller, st, src);
  }

  lemma PassDelete(run: seq<Lock>, caller: Request, st: Scan, src: nat)
    requires Pass(run, caller, st, src) && st.pos < |st.list| && (st.added || caller.typ == Unlock)
    requires var fl := st.list[st.pos].r;
             fl.typ != caller.typ && st.start <= fl.start && fl.end <= st.end
    ensures Pass(run, caller, Deleted(st.(added := true)), src + 1)
  {
    Here(run, caller, st, src);
    DeletedParts(st, Mark(st));
  }

  lemma DeletedParts(st: Scan, m: nat)
    requires 0 <= st.pos < |st.list| && m <= st.pos
    ensures var d := Deleted(st);
            d.list[st.pos..] == st.list[st.pos + 1..] && d.list[..m] == st.list[..m] && d.list[..st.pos] == st.list[..st.pos]
  {
  }

  lemma PassReplace(run: seq<Lock>, caller: Request, st: Scan, src: nat)
    requires Pass(run, caller, st, src) && st.pos < |st.list| && !st.added && caller.typ != Unlock
    requires var fl := st.list[st.pos].r;
             fl.typ != caller.typ && st.start <= fl.start && fl.end <= st.end
    ensures Pass(run, caller, Replaced(st, caller.typ).(at := st.pos, added := true, pos := st.pos + 1), src + 1)
  {
    Here(run, caller, st, src);
  }

  /** A lock of the caller's type that overlaps or touches it; the sum `end + 1` has not wrapped. */
  ghost predicate Mergeable(caller: Request, st: Scan) {
    && 0 <= st.pos < |st.list|
    && st.list[st.pos].r.typ == caller.typ
    && st.start - 1 <= st.list[st.pos].r.end && st.list[st.pos].r.start <= st.end + 1
  }

  lemma PassMergeFirst(run: seq<Lock>, caller: Request, st: Scan, src: nat)
    requires Pass(run, caller, st, src) && Mergeable(caller, st) && !st.added
    requires Sound(run, caller, st.list)
    ensures Pass(run, caller, Merged(st).(at := st.pos, added := true, pos := st.pos + 1), src + 1)
  {
    Here(run, caller, st, src);
    SoundMerged(run, caller, st);
    MergedClear(run, caller, st, src);
  }

  lemma PassMergeMore(run: seq<Lock>, caller: Request, st: Scan, src: nat)
    requires Pass(run, caller, st, src) && Mergeable(caller, st) && st.added
    requires Sound(run, caller, st.list)
    ensures Pass(run, caller, Deleted(Merged(st)), src + 1)
  {
    Here(run, caller, st, src);
    SoundMerged(run, caller, st);
    MergedClear(run, caller, st, src);
    var d := Deleted(Merged(st));
    assert d.list[st.pos..] == run[src + 1..];
  }

  /** Growing down to the start of a lock of its own type, the caller stays clear of the locks before that one. */
  lemma MergedClear(run: seq<Lock>, caller: Request, st: Scan, src: nat)
    requires Pass(run, caller, st, src) && Mergeable(caller, st)
    ensures var m := Mark(st);
            EndsBelow(run[..if st.left == -1 then m else m - 1], Merged(st).start, caller.typ)
    ensures st.left >= 0 ==> Merged(st).start == st.start
  {
    Here(run, caller, st, src);
    var m := Mark(st);
    var front := run[..if st.left == -1 then m else m - 1];
    forall i | 0 <= i < |front|
      ensures front[i].r.end < Merged(st).start && (front[i].r.typ == caller.typ ==> front[i].r.end < Merged(st).start - 1)
    {
      assert front[i] == run[i];
      GapBetween(run, i, src);
    }
  }

  /** In normal form, locks of one type leave a byte free between them. */
  lemma GapBetween(run: seq<Lock>, i: nat, j: nat)
    requires Canonical(run) && i < j < |run|
    ensures run[i].r.end < run[j].r.start && (run[i].r.typ == run[j].r.typ ==> run[i].r.end < run[j].r.start - 1)
  {
    if i + 1 < j {
      assert run[i].r.end < run[i + 1].r.start <= run[i + 1].r.end < run[j].r.start;
    }
  }

  lemma NoWrapHere(run: seq<Lock>, caller: Request, st: Scan, src: nat)
    requires Pass(run, caller, st, src) && st.pos < |st.list| && !EndWraps(run, caller)
    requires st.list[st.pos].r.typ == caller.typ && st.list[st.pos].r.end >= st.start - 1
    ensures st.end < OFFSET_MAX
  {
    Here(run, caller, st, src);
  }

  lemma WrapStep(run: seq<Lock>, caller: Request, st: Scan, src: nat, next: Scan)
    requires WrapAhead(run, caller, st, src) && src < |run|
    requires run[src].r.typ != caller.typ || run[src].r.end < caller.start - 1
    requires next.start == st.start && next.end == st.end
    ensures WrapAhead(run, caller, next, src + 1)
  {
    var i :| 0 <= i < |run[src..]| && run[src..][i].r.typ == caller.typ && run[src..][i].r.end >= caller.start - 1;
    assert run[src..][i] == run[src + i] && i > 0;
    assert run[src + 1..][i - 1] == run[src + i];
  }

  /** What the pass keeps on every list. */
  ghost predicate Loose(run: seq<Lock>, caller: Request, st: Scan) {
    && Shape(st) && Sound(run, caller, st.list) && RangeBacked(run, caller, st.start, st.end)
    && (st.at >= 0 ==> var l := st.list[st.at].r;
                       caller.typ != Unlock && l.typ == caller.typ && l.start == st.start && l.end == st.end)
    && (st.left >= 0 ==> var l := st.list[st.left].r; l.typ != caller.typ && l.end >= st.start)
    && (st.right >= 0 ==> var l := st.list[st.right].r; l.typ != caller.typ && l.start <= st.end)
    && (caller.typ == Unlock && !st.added ==> st.left == st.right == -1)
  }

  ghost predicate Trips(l: Lock, caller: Request) {
    l.r.typ == caller.typ && l.r.end >= caller.start - 1
  }

  /** The loop invariant of the pass. */
  ghost predicate Visiting(run: seq<Lock>, caller: Request, st: Scan, src: nat) {
    && Loose(run, caller, st) && st.right == -1 && st.left < st.pos && caller.InRange()
    && (Canonical(run) ==> Pass(run, caller, st, src)
                           && (EndWraps(run, caller) ==> WrapAhead(run, caller, st, src)))
  }

  /** How the pass ends: at the end of the list, before a lock beyond the caller, or at the lock cut on the right. */
  ghost predicate Stopped(run: seq<Lock>, caller: Request, st: Scan, src: nat) {
    && Loose(run, caller, st)
    && (st.right == -1 ==> Visiting(run, caller, st, src))
    && (st.right >= 0 ==> Cut(run, caller, st, src))
    && (Canonical(run) && !EndWraps(run, caller) && st.right == -1 ==> StartsAbove(run[src..], st.end, caller.typ))
    && (Canonical(run) && EndWraps(run, caller) ==> st.right == -1 && src < |run| && Trips(run[src], caller))
  }

  /** The pass stopped at a lock of another type that reaches beyond the caller. */
  ghost predicate Cut(run: seq<Lock>, caller: Request, st: Scan, src: nat) {
    && 0 <= st.right == st.pos < |st.list| && st.list[st.pos].r.end > st.end
    && (st.left == st.pos <==> st.list[st.pos].r.start < st.start)
    && (caller.typ == Unlock ==> st.added)
    && (Canonical(run) ==> Pass(run, caller, Uncut(st), src))
  }

  /** The state without the cut on the lock the pass stopped at. */
  function Uncut(st: Scan): Scan {
    st.(right := -1, left := if st.left == st.pos then -1 else st.left)
  }

  function Skipped(st: Scan): Scan {
    st.(pos := st.pos + 1)
  }

  /** The lock at the position has become the caller. */
  function Adopted(st: Scan): Scan {
    st.(at := st.pos, added := true, pos := st.pos + 1)
  }

  function CutLeft(st: Scan, typ: LockType): Scan {
    st.(left := st.pos, added := st.added || typ == Unlock, pos := st.pos + 1)
  }

  lemma KeepSkip(run: seq<Lock>, caller: Request, st: Scan, src: nat)
    requires Visiting(run, caller, st, src) && st.pos < |st.list|
    requires EndsBelow([st.list[st.pos]], st.start, caller.typ)
    ensures Visiting(run, caller, Skipped(st), src + 1)
  {
    if Canonical(run) {
      Here(run, caller, st, src);
      assert st.list[st.pos] == [st.list[st.pos]][0];
      PassSkip(run, caller, st, src);
      if EndWraps(run, caller) {
        WrapStep(run, caller, st, src, Skipped(st));
      }
    }
  }

  lemma KeepCutLeft(run: seq<Lock>, caller: Request, st: Scan, src: nat)
    requires Visiting(run, caller, st, src) && st.pos < |st.list|
    requires var fl := st.list[st.pos].r;
             fl.typ != caller.typ && fl.start < st.start <= fl.end <= st.end
    ensures Visiting(run, caller, CutLeft(st, caller.typ), src + 1)
  {
    if Canonical(run) {
      Here(run, caller, st, src);
      PassLeft(run, caller, st, src);
      if EndWraps(run, caller) {
        WrapStep(run, caller, st, src, CutLeft(st, caller.typ));
      }
    }
  }

  lemma KeepDelete(run: seq<Lock>, caller: Request, st: Scan, src: nat)
    requires Visiting(run, caller, st, src) && st.pos < |st.list| && (st.added || caller.typ == Unlock)
    requires var fl := st.list[st.pos].r;
             fl.typ != caller.typ && st.start <= fl.start && fl.end <= st.end
    ensures Visiting(run, caller, Deleted(st.(added := true)), src + 1)
  {
    if Canonical(run) {
      Here(run, caller, st, src);
      PassDelete(run, caller, st, src);
      if EndWraps(run, caller) {
        WrapStep(run, caller, st, src, Deleted(st));
      }
    }
  }

  lemma KeepReplace(run: seq<Lock>, caller: Request, st: Scan, src: nat)
    requires Visiting(run, caller, st, src) && st.pos < |st.list| && !st.added && caller.typ != Unlock
    requires var fl := st.list[st.pos].r;
             fl.typ != caller.typ && st.start <= fl.start && fl.end <= st.end
    ensures Visiting(run, caller, Adopted(Replaced(st, caller.typ)), src + 1)
  {
    assert SoundLock(run, caller, Replaced(st, caller.typ).list[st.pos]);
    if Canonical(run) {
      Here(run, caller, st, src);
      PassReplace(run, caller, st, src);
      if EndWraps(run, caller) {
        WrapStep(run, caller, st, src, Replaced(st, caller.typ));
      }
    }
  }

  /** A merge happens only where the sum has not wrapped; so no wrap lies ahead. */
  lemma MergeMeansNoWrap(run: seq<Lock>, caller: Request, st: Scan, src: nat)
    requires Visiting(run, caller, st, src) && st.pos < |st.list|
    requires var fl := st.list[st.pos].r;
             fl.typ == caller.typ && fl.end >= st.start - 1 && fl.start <= OffSucc(st.end)
    ensures Mergeable(caller, st)
    ensures Canonical(run) ==> !EndWraps(run, caller)
  {
    if Canonical(run) {
      Here(run, caller, st, src);
    }
  }

  lemma KeepMergeFirst(run: seq<Lock>, caller: Request, st: Scan, src: nat)
    requires Visiting(run, caller, st, src) && Mergeable(caller, st) && !st.added
    requires Canonical(run) ==> !EndWraps(run, caller)
    ensures Visiting(run, caller, Adopted(Merged(st)), src + 1)
  {
    SoundMerged(run, caller, st);
    if Canonical(run) {
      PassMergeFirst(run, caller, st, src);
    }
  }

  lemma KeepMergeMore(run: seq<Lock>, caller: Request, st: Scan, src: nat)
    requires Visiting(run, caller, st, src) && Mergeable(caller, st) && st.added
    requires Canonical(run) ==> !EndWraps(run, caller)
    ensures Visiting(run, caller, Deleted(Merged(st)), src + 1)
  {
    SoundMerged(run, caller, st);
    if Canonical(run) {
      PassMergeMore(run, caller, st, src);
    }
  }

  /** Stopping before a lock beyond the caller, or at the wrapped sum. */
  lemma StopBeyond(run: seq<Lock>, caller: Request, st: Scan, src: nat)
    requires Visiting(run, caller, st, src) && st.pos < |st.list|
    requires var fl := st.list[st.pos].r;
             if fl.typ == caller.typ then fl.end >= st.start - 1 && fl.start > OffSucc(st.end) else fl.start > st.end
    ensures Stopped(run, caller, st, src)
  {
    if Canonical(run) {
      Here(run, caller, st, src);
      if EndWraps(run, caller) {
        assert run[src].r.InRange();
      } else {
        if run[src].r.typ == caller.typ {
          NoWrapHere(run, caller, st, src);
        }
        forall k | 0 <= k < |run[src..]|
          ensures run[src..][k].r.start > st.end && (run[src..][k].r.typ == caller.typ ==> run[src..][k].r.start > st.end + 1)
        {
          assert run[src..][k] == run[src + k];
        }
      }
    }
  }

  /** Stopping at a lock of another type that reaches beyond the caller. */
  lemma StopCut(run: seq<Lock>, caller: Request, s0: Scan, src: nat)
    requires Visiting(run, caller, s0, src) && s0.pos < |s0.list|
    requires var fl := s0.list[s0.pos].r;
             fl.typ != caller.typ && s0.start <= fl.end && fl.start <= s0.end < fl.end
    ensures Stopped(run, caller, CutRight(s0, caller.typ), src)
  {
    if Canonical(run) {
      Here(run, caller, s0, src);
      assert run[src].r.InRange();
      var st := CutRight(s0, caller.typ);
      assert Pass(run, caller, Uncut(st), src);
    }
  }

  function CutRight(st: Scan, typ: LockType): Scan
    requires 0 <= st.pos < |st.list|
  {
    st.(right := st.pos, left := if st.list[st.pos].r.start < st.start then st.pos else st.left,
        added := st.added || typ == Unlock)
  }

  lemma StartPass(run: seq<Lock>, caller: Request)
    requires OwnedBy(run, caller.owner) && caller.InRange()
    ensures Visiting(run, caller, Scan(run, caller.start, caller.end, false, -1, -1, -1, 0), 0)
  {
    assert run[0..] == run;
  }

  /** One lock of the caller's type. */
  method VisitSameType(ghost run: seq<Lock>, caller: Request, s0: Scan, ghost src: nat) returns (stop: bool, st: Scan)
    requires Visiting(run, caller, s0, src) && s0.pos < |s0.list| && s0.list[s0.pos].r.typ == caller.typ
    ensures if stop then Stopped(run, caller, st, src) else Visiting(run, caller, st, src + 1)
    ensures |st.list| - st.pos <= |s0.list| - s0.pos - if stop then 0 else 1
  {
    var fl := s0.list[s0.pos].r;
    if fl.end < s0.start - 1 {
      KeepSkip(run, caller, s0, src);
      return false, Skipped(s0);
    }
    if fl.start > OffSucc(s0.end) {
      StopBeyond(run, caller, s0, src);
      return true, s0;
    }
    MergeMeansNoWrap(run, caller, s0, src);
    if s0.added {
      KeepMergeMore(run, caller, s0, src);
      return false, Deleted(Merged(s0));
    }
    KeepMergeFirst(run, caller, s0, src);
    return false, Adopted(Merged(s0));
  }

  /** One lock of another type. */
  method VisitOtherType(ghost run: seq<Lock>, caller: Request, s0: Scan, ghost src: nat) returns (stop: bool, st: Scan)
    requires Visiting(run, caller, s0, src) && s0.pos < |s0.list| && s0.list[s0.pos].r.typ != caller.typ
    ensures if stop then Stopped(run, caller, st, src) else Visiting(run, caller, st, src + 1)
    ensures |st.list| - st.pos <= |s0.list| - s0.pos - if stop then 0 else 1
  {
    var fl := s0.list[s0.pos].r;
    if fl.end < s0.start {
      KeepSkip(run, caller, s0, src);
      return false, Skipped(s0);
    }
    if fl.start > s0.end {
      StopBeyond(run, caller, s0, src);
      return true, s0;
    }
    if fl.end > s0.end {
      StopCut(run, caller, s0, src);
      return true, CutRight(s0, caller.typ);
    }
    if fl.start < s0.start {
      KeepCutLeft(run, caller, s0, src);
      return false, CutLeft(s0, caller.typ);
    }
    if s0.added || caller.typ == Unlock {
      KeepDelete(run, caller, s0, src);
      return false, Deleted(s0.(added := true));
    }
    KeepReplace(run, caller, s0, src);
    return false, Adopted(Replaced(s0, caller.typ));
  }

  method VisitLock(ghost run: seq<Lock>, caller: Request, s0: Scan, ghost src: nat) returns (stop: bool, st: Scan)
    requires Visiting(run, caller, s0, src) && s0.pos < |s0.list|
    ensures if stop then Stopped(run, caller, st, src) else Visiting(run, caller, st, src + 1)
    ensures |st.list| - st.pos <= |s0.list| - s0.pos - if stop then 0 else 1
  {
    if caller.typ == s0.list[s0.pos].r.typ {
      stop, st := VisitSameType(run, caller, s0, src);
    } else {
      stop, st := VisitOtherType(run, caller, s0, src);
    }
  }

  /** The loop of `posix_lock_file` over the caller's own locks. */
  method ScanRun(run: seq<Lock>, caller: Request) returns (st: Scan)
    requires OwnedBy(run, caller.owner) && caller.InRange()
    ensures exists src: nat :: Stopped(run, caller, st, src)
  {
    st := Scan(run, caller.start, caller.end, false, -1, -1, -1, 0);
    ghost var src: nat := 0;
    StartPass(run, caller);
    var stop := false;
    while !stop && st.pos < |st.list|
      invariant if stop then Stopped(run, caller, st, src) else Visiting(run, caller, st, src)
      decreases !stop, |st.list| - st.pos
    {
      stop, st := VisitLock(run, caller, st, src);
      src := if stop then src else src + 1;
    }
    if !stop {
      StopAtEnd(run, caller, st, src);
    }
  }

  lemma StopAtEnd(run: seq<Lock>, caller: Request, st: Scan, src: nat)
    requires Visiting(run, caller, st, src) && st.pos == |st.list|
    ensures Stopped(run, caller, st, src)
  {
    if Canonical(run) {
      assert |run[src..]| == |st.list[st.pos..]|;
    }
  }

  // ---------- the end of the pass ----------

  function NewLock(caller: Request, start: int, end: int): Lock {
    Lock(true, caller.(start := start, end := end), [])
  }

  /** The lock cut short on its right end, and on its left end; both wake their waiters. */
  function EndsAt(l: Lock, e: int): Lock { l.Resized(l.r.start, e).Woken() }
  function StartsAt(l: Lock, s: int): Lock { l.Resized(s, l.r.end).Woken() }

  lemma UpdateAt(a: seq<Lock>, x: Lock, b: seq<Lock>, y: Lock)
    ensures (a + [x] + b)[|a| := y] == a + [y] + b
  {
  }

  lemma UpdateFront(a: seq<Lock>, b: seq<Lock>, i: nat, y: Lock)
    requires i < |a|
    ensures (a + b)[i := y] == a[i := y] + b
  {
  }

  /** Inserting the caller and cutting the locks on its two sides. */
  method FinishRun(caller: Request, st: Scan) returns (out: seq<Lock>)
    requires Shape(st) && (caller.typ == Unlock && !st.added ==> st.left == st.right == -1)
    ensures out == FinishedList(caller, st)
  {
    out := st.list;
    var left, right := st.left, st.right;
    if !st.added {
      if caller.typ == Unlock {
        return;
      }
      out := out[..st.pos] + [NewLock(caller, st.start, st.end)] + out[st.pos..];
      left := if left == st.pos then left + 1 else left;
      right := if right == st.pos then right + 1 else right;
    }
    if right >= 0 {
      out := TrimRight(caller, st, out, left, right);
      left := if left == right then st.pos else left;
    }
    LeftCutLast(caller, st);
    if left >= 0 {
      out := out[left := EndsAt(out[left], st.start - 1)];
    }
  }

  /** The list with the caller in it, before any cut. */
  function WithCaller(caller: Request, st: Scan): seq<Lock>
    requires Shape(st)
  {
    st.list[..st.pos] + Added(caller, st) + st.list[st.pos..]
  }

  /** The list after the cut on the right: a lock that straddles the caller leaves a copy before it. */
  function RightCut(caller: Request, st: Scan): seq<Lock>
    requires Shape(st)
  {
    if st.right == -1 then WithCaller(caller, st)
    else
      var copy := if st.left == st.right then [st.list[st.pos].Woken()] else [];
      (st.list[..st.pos] + copy + Added(caller, st)) + [StartsAt(st.list[st.pos], st.end + 1)] + st.list[st.pos + 1..]
  }

  /** The cut on the left then gives the finished list. */
  lemma LeftCutLast(caller: Request, st: Scan)
    requires Shape(st)
    ensures st.left == -1 ==> FinishedList(caller, st) == RightCut(caller, st)
    ensures st.left >= 0 ==> var out := RightCut(caller, st);
              st.left < |out| && FinishedList(caller, st) == out[st.left := EndsAt(out[st.left], st.start - 1)]
  {
    var front, n := st.list[..st.pos], Added(caller, st);
    if st.left >= 0 {
      var cut := EndsAt(st.list[st.left], st.start - 1);
      if st.right == -1 {
        UpdateFront(front, n + st.list[st.pos..], st.left, cut);
        assert RightCut(caller, st) == front + (n + st.list[st.pos..]);
      } else {
        var r := [StartsAt(st.list[st.pos], st.end + 1)] + st.list[st.pos + 1..];
        if st.left == st.right {
          StraddledLast(caller, st);
        } else {
          UpdateFront(front, n + r, st.left, cut);
          assert RightCut(caller, st) == front + (n + r);
        }
      }
    }
  }

  lemma StraddledLast(caller: Request, st: Scan)
    requires Shape(st) && st.left == st.right >= 0
    ensures var out := RightCut(caller, st);
            st.left < |out| && FinishedList(caller, st) == out[st.left := EndsAt(out[st.left], st.start - 1)]
  {
    var front, n, copy := st.list[..st.pos], Added(caller, st), st.list[st.pos].Woken();
    var r := [StartsAt(st.list[st.pos], st.end + 1)] + st.list[st.pos + 1..];
    UpdateAt(front, copy, n + r, EndsAt(copy, st.start - 1));
    assert RightCut(caller, st) == front + [copy] + (n + r);
  }

  /** The lock that straddles the caller is cut on its left end, after a copy is put before the caller. */
  method TrimRight(caller: Request, st: Scan, out: seq<Lock>, left: int, right: nat) returns (cut: seq<Lock>)
    requires Shape(st) && st.right >= 0 && out == WithCaller(caller, st)
    requires right == st.pos + |Added(caller, st)| && left == (if st.left == st.pos then right else st.left)
    ensures cut == RightCut(caller, st)
  {
    ghost var front, n, l, rest := st.list[..st.pos], Added(caller, st), st.list[st.pos], st.list[st.pos + 1..];
    assert st.list[st.pos..] == [l] + rest;
    var r := right;
    cut := out;
    if left == right {
      cut := out[..st.pos] + [Lock(out[right].posix, out[right].r, [])] + out[st.pos..];
      r := right + 1;
      front := front + [l.(waiters := [])];
    }
    assert cut == (front + n) + [l] + rest;
    cut := cut[r := StartsAt(cut[r], st.end + 1)];
    UpdateAt(front + n, l, rest, StartsAt(l, st.end + 1));
  }
  /** The list FinishRun makes, as the pieces of a splice. */
  function FinishedList(caller: Request, st: Scan): seq<Lock>
    requires Shape(st)
  {
    var new_fl := Added(caller, st);
    var p := st.pos;
    if st.right == -1 then
      LeftCut(st) + new_fl + st.list[p..]
    else if st.left == st.right then
      st.list[..p] + [EndsAt(st.list[p], st.start - 1)] + new_fl + [StartsAt(st.list[p], st.end + 1)] + st.list[p + 1..]
    else
      LeftCut(st) + new_fl + [StartsAt(st.list[p], st.end + 1)] + st.list[p + 1..]
  }

  function Added(caller: Request, st: Scan): seq<Lock> {
    if st.added || caller.typ == Unlock then [] else [NewLock(caller, st.start, st.end)]
  }

  function LeftCut(st: Scan): seq<Lock>
    requires Shape(st) && (st.left < st.pos)
  {
    if st.left == -1 then st.list[..st.pos]
    else st.list[..st.pos][st.left := EndsAt(st.list[st.left], st.start - 1)]
  }

  lemma SoundConcat(run: seq<Lock>, caller: Request, a: seq<Lock>, b: seq<Lock>)
    requires Sound(run, caller, a) && Sound(run, caller, b)
    ensures Sound(run, caller, a + b)
  {
  }

  lemma FinishedSound(run: seq<Lock>, caller: Request, st: Scan)
    requires Loose(run, caller, st)
    ensures Sound(run, caller, FinishedList(caller, st))
  {
    var p, n := st.pos, Added(caller, st);
    assert Sound(run, caller, n);
    if st.right == -1 {
      LeftCutSound(run, caller, st);
      SoundConcat(run, caller, LeftCut(st), n);
      SoundConcat(run, caller, LeftCut(st) + n, st.list[p..]);
    } else {
      var r := [StartsAt(st.list[p], st.end + 1)];
      assert SoundLock(run, caller, r[0]);
      var front;
      if st.left == st.right {
        var l := [EndsAt(st.list[p], st.start - 1)];
        assert SoundLock(run, caller, l[0]);
        SoundConcat(run, caller, st.list[..p], l);
        front := st.list[..p] + l;
      } else {
        LeftCutSound(run, caller, st);
        front := LeftCut(st);
      }
      SoundConcat(run, caller, front, n);
      SoundConcat(run, caller, front + n, r);
      SoundConcat(run, caller, front + n + r, st.list[p + 1..]);
    }
  }

  lemma LeftCutSound(run: seq<Lock>, caller: Request, st: Scan)
    requires Loose(run, caller, st) && st.left < st.pos
    ensures Sound(run, caller, LeftCut(st))
  {
    if st.left >= 0 {
      assert SoundLock(run, caller, EndsAt(st.list[st.left], st.start - 1));
    }
  }

  // The pieces a finished pass is made of, read off its state.

  function KeptLeft(run: seq<Lock>, st: Scan): (r: seq<Lock>)
    requires 0 <= Mark(st) <= |run| && (st.left >= 0 ==> Mark(st) > 0)
  {
    if st.left >= 0 then run[..Mark(st) - 1] else run[..Mark(st)]
  }

  function LeftPiece(st: Scan): seq<Lock>
    requires Shape(st)
  {
    if 0 <= st.left < |st.list| then [EndsAt(st.list[st.left], st.start - 1)] else []
  }

  function AtPiece(st: Scan): seq<Lock>
    requires Shape(st)
  {
    if st.at >= 0 then [st.list[st.at]] else []
  }

  function MidPiece(caller: Request, st: Scan): seq<Lock>
    requires Shape(st)
  {
    if st.at >= 0 then [st.list[st.at]]
    else if caller.typ == Unlock then [] else [NewLock(caller, st.start, st.end)]
  }

  lemma LeftCutPieces(run: seq<Lock>, caller: Request, st: Scan, src: nat)
    requires Pass(run, caller, st, src)
    ensures st.left < st.pos && LeftCut(st) == KeptLeft(run, st) + LeftPiece(st) + AtPiece(st)
    ensures st.left >= 0 ==> st.list[st.left] == run[st.left]
  {
    var m := Mark(st);
    if st.left >= 0 {
      assert st.list[st.left] == st.list[..m][st.left] == run[..m][st.left];
    }
    assert st.list[..st.pos] == run[..m] + AtPiece(st);
  }

  /** The left half of a splice: the replaced locks lie inside cs..ce except for what `lf` keeps of the first. */
  ghost predicate LeftReady(pre: seq<Lock>, cut: seq<Lock>, t: LockType, cs: int, ce: int, lf: seq<Lock>) {
    && EndsBelow(pre, cs, t) && |lf| <= 1 && (lf != [] ==> cut != [])
    && (forall k :: 0 <= k < |cut| ==> (cut[k].r.start >= cs || (k == 0 && |lf| == 1)) && cut[k].r.end <= ce)
    && (lf != [] ==> lf[0].r == cut[0].r.(end := cs - 1) && cut[0].r.start < cs <= cut[0].r.end && cut[0].r.typ != t)
  }

  lemma ClearOnLeft(run: seq<Lock>, caller: Request, st: Scan, src: nat)
    requires Pass(run, caller, st, src)
    ensures var pre := KeptLeft(run, st);
            LeftReady(pre, run[|pre|..src], caller.typ, st.start, st.end, LeftPiece(st))
  {
    LeftCutPieces(run, caller, st, src);
    var pre := KeptLeft(run, st);
    var cut := run[|pre|..src];
    forall k | 0 <= k < |cut|
      ensures cut[k] == run[|pre| + k]
      ensures (cut[k].r.start >= st.start || (k == 0 && |LeftPiece(st)| == 1)) && cut[k].r.end <= st.end
    {
    }
  }

  lemma ReadyToCutRight(pre: seq<Lock>, cut: seq<Lock>, fl: Lock, post: seq<Lock>, t: LockType, cs: int, ce: int,
                        lf: seq<Lock>, mid: seq<Lock>)
    requires LeftReady(pre, cut, t, cs, ce, lf) && StartsAbove(post, ce, t) && 0 <= cs <= ce <= OFFSET_MAX
    requires fl.r.typ != t && cs <= fl.r.start <= ce < fl.r.end
    requires if t == Unlock then mid == []
             else |mid| == 1 && mid[0].r.typ == t && mid[0].r.start == cs && mid[0].r.end == ce
    ensures SpliceReady(pre, cut + [fl], post, t, cs, ce, lf, mid, [StartsAt(fl, ce + 1)])
  {
    var cut1 := cut + [fl];
    assert lf != [] ==> cut1[0] == cut[0];
  }

  /** The pass ran out of locks or stopped before one beyond the caller. */
  lemma PiecesClear(run: seq<Lock>, caller: Request, st: Scan, src: nat)
    requires Pass(run, caller, st, src) && StartsAbove(run[src..], st.end, caller.typ)
    ensures var pre := KeptLeft(run, st);
            SpliceReady(pre, run[|pre|..src], run[src..], caller.typ, st.start, st.end,
                        LeftPiece(st), MidPiece(caller, st), [])
  {
    ClearOnLeft(run, caller, st, src);
  }

  lemma ListClear(run: seq<Lock>, caller: Request, st: Scan, src: nat)
    requires Pass(run, caller, st, src)
    ensures var pre := KeptLeft(run, st);
            && run == pre + run[|pre|..src] + run[src..]
            && FinishedList(caller, st) == pre + LeftPiece(st) + MidPiece(caller, st) + [] + run[src..]
  {
    LeftCutPieces(run, caller, st, src);
    RunParts(run, |KeptLeft(run, st)|, src);
    FinishedClear(caller, st, KeptLeft(run, st), run[src..]);
  }

  lemma RunParts(run: seq<Lock>, a: nat, b: nat)
    requires a <= b <= |run|
    ensures run == run[..a] + run[a..b] + run[b..]
  {
  }

  lemma FinishedClear(caller: Request, u: Scan, pre: seq<Lock>, post: seq<Lock>)
    requires Shape(u) && u.left < u.pos && u.right == -1 && (u.at >= 0 ==> u.added) && post == u.list[u.pos..]
    requires u.at == -1 ==> (caller.typ == Unlock || !u.added)
    requires LeftCut(u) == pre + LeftPiece(u) + AtPiece(u)
    ensures FinishedList(caller, u) == pre + LeftPiece(u) + MidPiece(caller, u) + [] + post
  {
    var a, n := AtPiece(u), Added(caller, u);
    assert a + n == MidPiece(caller, u);
    Reassociate(pre, LeftPiece(u), a, n, [], post);
  }

  lemma Reassociate(pre: seq<Lock>, lf: seq<Lock>, a: seq<Lock>, n: seq<Lock>, rt: seq<Lock>, post: seq<Lock>)
    ensures pre + lf + a + n + rt + post == pre + lf + (a + n) + rt + post
    ensures pre + lf + a + n + [] + post == pre + lf + a + n + post
  {
  }

  /** The pass stopped at a lock to be cut on its left end only. */
  lemma PiecesCutRight(run: seq<Lock>, caller: Request, u: Scan, src: nat)
    requires Pass(run, caller, u, src) && src < |run|
    requires run[src].r.typ != caller.typ && u.start <= run[src].r.start <= u.end < run[src].r.end
    ensures var pre := KeptLeft(run, u); var rt := [StartsAt(run[src], u.end + 1)];
            SpliceReady(pre, run[|pre|..src] + [run[src]], run[src + 1..], caller.typ, u.start, u.end,
                        LeftPiece(u), MidPiece(caller, u), rt)
  {
    ClearOnLeft(run, caller, u, src);
    AboveAfter(run, src, u.end, caller.typ);
    var pre := KeptLeft(run, u);
    ReadyToCutRight(pre, run[|pre|..src], run[src], run[src + 1..], caller.typ, u.start, u.end,
                    LeftPiece(u), MidPiece(caller, u));
  }

  lemma SliceParts(run: seq<Lock>, a: nat, b: nat)
    requires a <= b < |run|
    ensures run == run[..a] + (run[a..b] + [run[b]]) + run[b + 1..]
  {
  }

  lemma AboveAfter(run: seq<Lock>, src: nat, x: int, t: LockType)
    requires Canonical(run) && src < |run| && run[src].r.end > x
    ensures StartsAbove(run[src + 1..], x, t)
  {
  }

  lemma ListCutRight(run: seq<Lock>, caller: Request, u: Scan, src: nat)
    requires Pass(run, caller, u, src) && u.pos < |u.list| && (caller.typ == Unlock ==> u.added)
    ensures src < |run| && run[src] == u.list[u.pos]
    ensures var pre := KeptLeft(run, u); var rt := [StartsAt(run[src], u.end + 1)];
            && run == pre + (run[|pre|..src] + [run[src]]) + run[src + 1..]
            && FinishedList(caller, u.(right := u.pos))
               == pre + LeftPiece(u) + MidPiece(caller, u) + rt + run[src + 1..]
  {
    LeftCutPieces(run, caller, u, src);
    Here(run, caller, u, src);
    SliceParts(run, |KeptLeft(run, u)|, src);
    FinishedRight(caller, u, KeptLeft(run, u));
  }

  lemma MidParts(caller: Request, u: Scan)
    requires Shape(u) && (u.at >= 0 ==> u.added) && (u.at == -1 ==> caller.typ == Unlock || !u.added)
    ensures AtPiece(u) + Added(caller, u) == MidPiece(caller, u)
  {
  }

  lemma FinishedRight(caller: Request, u: Scan, pre: seq<Lock>)
    requires Shape(u) && u.left < u.pos < |u.list| && (u.at >= 0 ==> u.added)
    requires u.at == -1 ==> (caller.typ == Unlock || !u.added)
    requires LeftCut(u) == pre + LeftPiece(u) + AtPiece(u)
    ensures FinishedList(caller, u.(right := u.pos))
            == pre + LeftPiece(u) + MidPiece(caller, u) + [StartsAt(u.list[u.pos], u.end + 1)] + u.list[u.pos + 1..]
  {
    assert LeftCut(u.(right := u.pos)) == LeftCut(u);
    var a, n := AtPiece(u), Added(caller, u);
    MidParts(caller, u);
    Reassociate(pre, LeftPiece(u), a, n, [StartsAt(u.list[u.pos], u.end + 1)], u.list[u.pos + 1..]);
  }

  /** The pass stopped at a lock to be broken in two. */
  lemma PiecesSplit(run: seq<Lock>, caller: Request, st: Scan, src: nat)
    requires Cut(run, caller, st, src) && Canonical(run) && st.left == st.pos && Loose(run, caller, st)
    ensures var lf := [EndsAt(st.list[st.pos], st.start - 1)]; var rt := [StartsAt(st.list[st.pos], st.end + 1)];
            && src < |run|
            && run == run[..src] + [run[src]] + run[src + 1..]
            && FinishedList(caller, st) == run[..src] + lf + MidPiece(caller, st) + rt + run[src + 1..]
            && SpliceReady(run[..src], [run[src]], run[src + 1..], caller.typ, st.start, st.end,
                           lf, MidPiece(caller, st), rt)
  {
    var u := Uncut(st);
    Here(run, caller, u, src);
    assert Mark(u) == src && u.at == -1;
    assert st.list[..st.pos] == run[..src];
  }

  /** The bytes of the caller get the caller's type and no other byte changes. */
  ghost predicate SetsExactly(run: seq<Lock>, caller: Request, out: seq<Lock>) {
    forall b, t :: Held(out, b, t) <==> if caller.Covers(b) then t == caller.typ != Unlock else Held(run, b, t)
  }

  lemma SpliceExact(pre: seq<Lock>, cut: seq<Lock>, post: seq<Lock>, caller: Request, cs: int, ce: int,
                    lf: seq<Lock>, mid: seq<Lock>, rt: seq<Lock>)
    requires SpliceReady(pre, cut, post, caller.typ, cs, ce, lf, mid, rt)
    requires Canonical(pre + cut + post) && cs <= caller.start && caller.end <= ce
    requires RangeBacked(pre + cut + post, caller, cs, ce)
    ensures Canonical(pre + lf + mid + rt + post)
    ensures SetsExactly(pre + cut + post, caller, pre + lf + mid + rt + post)
  {
    SpliceCanonical(pre, cut, post, caller.typ, cs, ce, lf, mid, rt);
    forall b, t
      ensures Held(pre + lf + mid + rt + post, b, t)
              <==> if caller.Covers(b) then t == caller.typ != Unlock else Held(pre + cut + post, b, t)
    {
      SpliceMeaning(pre, cut, post, caller, cs, ce, lf, mid, rt, b, t);
    }
  }

  lemma FinishedExact(run: seq<Lock>, caller: Request, st: Scan, src: nat)
    requires Stopped(run, caller, st, src) && Canonical(run) && !EndWraps(run, caller)
    ensures Canonical(FinishedList(caller, st)) && SetsExactly(run, caller, FinishedList(caller, st))
  {
    if st.right == -1 {
      PiecesClear(run, caller, st, src);
      ListClear(run, caller, st, src);
      var pre := KeptLeft(run, st);
      SpliceExact(pre, run[|pre|..src], run[src..], caller, st.start, st.end, LeftPiece(st), MidPiece(caller, st), []);
    } else if st.left == st.pos {
      PiecesSplit(run, caller, st, src);
      SpliceExact(run[..src], [run[src]], run[src + 1..], caller, st.start, st.end,
                  [EndsAt(st.list[st.pos], st.start - 1)], MidPiece(caller, st), [StartsAt(st.list[st.pos], st.end + 1)]);
    } else {
      var u := Uncut(st);
      assert st == u.(right := u.pos);
      ListCutRight(run, caller, u, src);
      PiecesCutRight(run, caller, u, src);
      var pre := KeptLeft(run, u);
      SpliceExact(pre, run[|pre|..src] + [run[src]], run[src + 1..], caller, st.start, st.end,
                  LeftPiece(u), MidPiece(caller, u), [StartsAt(run[src], u.end + 1)]);
    }
  }

  /** A wrapped sum leaves the lock that tripped it, and all after it, as they were, behind a lock that runs to OFFSET_MAX. */
  lemma FinishedWrapped(run: seq<Lock>, caller: Request, st: Scan, src: nat)
    requires Pass(run, caller, st, src) && st.end == OFFSET_MAX && caller.typ != Unlock && src < |run|
    ensures !Canonical(FinishedList(caller, st)) && EndsWith(FinishedList(caller, st), run[src..])
  {
    ListClear(run, caller, st, src);
    assert run[src..][0] == run[src];
    FullThenMore(KeptLeft(run, st), LeftPiece(st), MidPiece(caller, st), run[src..]);
  }

  /** The part of the result before that lock is right for the part of the list before it. */
  lemma FrontExact(pre: seq<Lock>, cut: seq<Lock>, caller: Request, lf: seq<Lock>, mid: seq<Lock>)
    requires LeftReady(pre, cut, caller.typ, caller.start, caller.end, lf) && Canonical(pre + cut) && caller.InRange()
    requires caller.typ != Unlock && |mid| == 1 && mid[0].r.typ == caller.typ && mid[0].r.start == caller.start && mid[0].r.end == caller.end
    ensures SetsExactly(pre + cut, caller, pre + lf + mid)
  {
    assert pre + cut + [] == pre + cut;
    SpliceExact(pre, cut, [], caller, caller.start, caller.end, lf, mid, []);
    assert pre + lf + mid + [] + [] == pre + lf + mid;
  }

  /** Locks behind it that stay as they are do no harm exactly if they have the caller's type on its bytes. */
  lemma TailBytes(head: seq<Lock>, front: seq<Lock>, tail: seq<Lock>, caller: Request)
    requires SetsExactly(head, caller, front) && caller.typ != Unlock
    ensures SetsExactly(head + tail, caller, front + tail) <==> forall b, t :: caller.Covers(b) && Held(tail, b, t) ==> t == caller.typ
  {
    forall b, t
      ensures Held(front + tail, b, t) <==> Held(front, b, t) || Held(tail, b, t)
      ensures Held(head + tail, b, t) <==> Held(head, b, t) || Held(tail, b, t)
    {
      HeldConcat(front, tail, b, t);
      HeldConcat(head, tail, b, t);
    }
  }

  lemma TailTypes(run: seq<Lock>, caller: Request, src: nat)
    requires Canonical(run) && caller.end == OFFSET_MAX && src < |run| && Trips(run[src], caller)
    ensures (forall b, t :: caller.Covers(b) && Held(run[src..], b, t) ==> t == caller.typ)
            <==> forall j :: src < j < |run| ==> run[j].r.typ == caller.typ
  {
    if j :| src < j < |run| && run[j].r.typ != caller.typ {
      var b := run[j].r.start;
      assert run[src..][j - src] == run[j] && run[j].r.Covers(b);
      assert Held(run[src..], b, run[j].r.typ) && caller.Covers(b);
    } else {
      assert forall k :: 0 <= k < |run[src..]| ==> run[src..][k] == run[src + k];
    }
  }

  /** After a wrapped sum the bytes are right exactly if no lock of another type stands behind the one that tripped it. */
  lemma WrappedBytes(run: seq<Lock>, caller: Request, st: Scan, src: nat)
    requires Pass(run, caller, st, src) && st.start == caller.start && st.end == caller.end == OFFSET_MAX
    requires caller.typ != Unlock && src < |run| && Trips(run[src], caller)
    ensures SetsExactly(run, caller, FinishedList(caller, st)) <==> forall j :: src < j < |run| ==> run[j].r.typ == caller.typ
  {
    var pre := KeptLeft(run, st);
    ListClear(run, caller, st, src);
    ClearOnLeft(run, caller, st, src);
    WrappedPieces(run, caller, src, pre, run[|pre|..src], LeftPiece(st), MidPiece(caller, st));
  }

  lemma WrappedPieces(run: seq<Lock>, caller: Request, src: nat, pre: seq<Lock>, cut: seq<Lock>, lf: seq<Lock>, mid: seq<Lock>)
    requires Canonical(run) && src < |run| && run == pre + cut + run[src..] && Trips(run[src], caller) && caller.InRange()
    requires caller.end == OFFSET_MAX && LeftReady(pre, cut, caller.typ, caller.start, caller.end, lf)
    requires caller.typ != Unlock && |mid| == 1 && mid[0].r.typ == caller.typ && mid[0].r.start == caller.start && mid[0].r.end == caller.end
    ensures SetsExactly(run, caller, pre + lf + mid + [] + run[src..]) <==> forall j :: src < j < |run| ==> run[j].r.typ == caller.typ
  {
    var tail := run[src..];
    CanonicalPrefix(run, pre + cut, tail);
    FrontExact(pre, cut, caller, lf, mid);
    TailBytes(pre + cut, pre + lf + mid, tail, caller);
    assert pre + lf + mid + [] + tail == pre + lf + mid + tail;
    TailTypes(run, caller, src);
  }

  lemma CanonicalPrefix(run: seq<Lock>, a: seq<Lock>, b: seq<Lock>)
    requires Canonical(run) && run == a + b
    ensures Canonical(a)
  {
    assert forall i :: 0 <= i < |a| ==> run[i] == a[i];
  }

  /** Behind a lock that trips the sum stands one of another type. */
  ghost predicate MixedBehind(run: seq<Lock>, caller: Request) {
    caller.end == OFFSET_MAX && exists i, j :: 0 <= i < j < |run| && Trips(run[i], caller) && run[j].r.typ != caller.typ
  }

  lemma FirstTripDecides(run: seq<Lock>, caller: Request, src: nat)
    requires src < |run| && Trips(run[src], caller) && (forall k :: 0 <= k < src ==> !Trips(run[k], caller)) && caller.end == OFFSET_MAX
    ensures MixedBehind(run, caller) <==> exists j :: src < j < |run| && run[j].r.typ != caller.typ
  {
  }

  ghost predicate EndsWith(s: seq<Lock>, t: seq<Lock>) {
    |t| <= |s| && s[|s| - |t|..] == t
  }

  lemma FullThenMore(pre: seq<Lock>, lf: seq<Lock>, mid: seq<Lock>, rest: seq<Lock>)
    requires rest != [] && |mid| == 1 && mid[0].r.end == OFFSET_MAX && rest[0].r.InRange()
    ensures !Canonical(pre + lf + mid + [] + rest) && EndsWith(pre + lf + mid + [] + rest, rest)
  {
    var s := pre + lf + mid + [] + rest;
    assert s[|pre + lf|] == mid[0] && s[|pre + lf| + 1] == rest[0];
  }

  /**
   `posix_lock_file` over the locks one owner holds on one inode.

   On every list, no byte gains a type the caller did not ask for and no waiter stays queued on a
   lock it no longer conflicts with.  On a list in normal form the result is in normal form with
   exactly the caller's bytes set, if and only if the 32-bit sum does not wrap; exactly the caller's bytes are
   set, in normal form or not, if and only if no lock of another type stands behind one that trips the sum.
   */
  method UpdateRun(run: seq<Lock>, caller: Request) returns (out: seq<Lock>)
    requires OwnedBy(run, caller.owner) && caller.InRange()
    ensures Sound(run, caller, out)
    ensures Canonical(run) ==> (Canonical(out) && SetsExactly(run, caller, out) <==> !EndWraps(run, caller))
    ensures Canonical(run) ==> (SetsExactly(run, caller, out) <==> !MixedBehind(run, caller))
    ensures Canonical(run) && EndWraps(run, caller) ==>
              !Canonical(out) && exists k :: 0 <= k < |run| && Trips(run[k], caller) && EndsWith(out, run[k..])
  {
    var st := ScanRun(run, caller);
    ghost var src: nat :| Stopped(run, caller, st, src);
    out := FinishRun(caller, st);
    FinishedSound(run, caller, st);
    if Canonical(run) {
      if EndWraps(run, caller) {
        FinishedWrapped(run, caller, st, src);
        WrappedBytes(run, caller, st, src);
        FirstTripDecides(run, caller, src);
      } else {
        FinishedExact(run, caller, st, src);
      }
    }
  }

  /** Locking a whole file for reading, over a read lock on bytes 5-6 and a write lock on bytes 8-9,
      leaves byte 8 locked for writing. */
  method WrapExample() returns (run: seq<Lock>, caller: Request, out: seq<Lock>)
    ensures Canonical(run) && EndWraps(run, caller) && caller.Covers(8) && caller.typ == Read
    ensures Held(out, 8, Write)
  {
    var a := Lock(true, Request(1, 1, Read, 5, 6), []);
    var b := Lock(true, Request(1, 1, Write, 8, 9), []);
    run, caller := [a, b], Request(1, 1, Read, 0, OFFSET_MAX);
    assert Trips(run[0], caller);
    out := UpdateRun(run, caller);
    assert !Trips(run[1], caller);
    assert EndsWith(out, run[0..]) && run[0..] == run;
    assert out[|out| - 1] == b;
  }
}
