/**
 The areas of an address space as mm/mprotect.c and mm/mlock.c change them: an area is split where the range begins
 or ends, areas are merged again afterwards (mm/mmap.c), and every address keeps what backs it.
 */
module VmAreas {
  import opened Wrappers

  type Flags = bv32

  // PROT_READ, PROT_WRITE and PROT_EXEC are the bits of 7; VM_LOCKED is 0x2000.

  /** What backs an area: an inode, 0 if there is none, a page-table entry, and operations. */
  datatype Object = Object(inode: nat, pte: nat, ops: nat)

  /** Addresses start .. end - 1, backed by an object from `offset` on. */
  datatype Area = Area(start: nat, end: nat, object_: Object, offset: int, flags: Flags) {
    predicate Covers(x: int) {
      start <= x < end
    }

    function View(x: int): Cell {
      Cell(object_, offset + (x - start), flags)
    }
  }

  /** What an address means: its place in the backing object, and the flags. */
  datatype Cell = Cell(object_: Object, place: int, flags: Flags)

  function At(areas: seq<Area>, x: int): Option<Cell> {
    if areas == [] then None
    else if areas[0].Covers(x) then Some(areas[0].View(x))
    else At(areas[1..], x)
  }

  /** In order, disjoint, on page boundaries. */
  ghost predicate Sorted(areas: seq<Area>) {
    && (forall i :: 0 <= i < |areas| ==> areas[i].start < areas[i].end && areas[i].start % 4096 == 0 && areas[i].end % 4096 == 0)
    && (forall i, j :: 0 <= i < j < |areas| ==> areas[i].end <= areas[j].start)
  }

  function PagesOf(a: Area): int {
    (a.end - a.start) / 4096
  }

  function IsLocked(f: Flags): bool {
    f & 0x2000 != 0
  }

  /** The pages in areas with VM_LOCKED. */
  function LockedPages(areas: seq<Area>): int {
    if areas == [] then 0
    else (if IsLocked(areas[0].flags) then PagesOf(areas[0]) else 0) + LockedPages(areas[1..])
  }

  lemma {:induction false} AtConcat(a: seq<Area>, b: seq<Area>, x: int)
    ensures At(a + b, x) == if At(a, x).Some? then At(a, x) else At(b, x)
  {
    if a == [] {
      assert a + b == b;
    } else {
      assert (a + b)[1..] == a[1..] + b;
      AtConcat(a[1..], b, x);
    }
  }

  lemma {:induction false} LockedConcat(a: seq<Area>, b: seq<Area>)
    ensures LockedPages(a + b) == LockedPages(a) + LockedPages(b)
  {
    if a == [] {
      assert a + b == b;
    } else {
      assert (a + b)[1..] == a[1..] + b;
      LockedConcat(a[1..], b);
    }
  }

  lemma {:induction false} AtNone(areas: seq<Area>, x: int)
    requires forall i :: 0 <= i < |areas| ==> !areas[i].Covers(x)
    ensures At(areas, x) == None
  {
    if areas != [] {
      AtNone(areas[1..], x);
    }
  }

  lemma {:induction false} AtIndex(areas: seq<Area>, i: nat, x: int)
    requires Sorted(areas) && i < |areas| && areas[i].Covers(x)
    ensures At(areas, x) == Some(areas[i].View(x))
  {
    if i > 0 {
      assert areas[1..][i - 1] == areas[i];
      AtIndex(areas[1..], i - 1, x);
    }
  }

  // ---------- splitting an area ----------

  /** What is before the range, the range with its new flags, and what is after it. */
  function Pieces(a: Area, s: nat, e: nat, f: Flags): seq<Area> {
    Before(a, s) + [Middle(a, s, e, f)] + After(a, e)
  }

  function Before(a: Area, s: nat): seq<Area> {
    if a.start < s then [a.(end := s)] else []
  }

  function Middle(a: Area, s: nat, e: nat, f: Flags): Area {
    Area(s, e, a.object_, a.offset + (s - a.start), f)
  }

  function After(a: Area, e: nat): seq<Area> {
    if e < a.end then [a.(start := e, offset := a.offset + (e - a.start))] else []
  }

  lemma {:induction false} PiecesAt(a: Area, s: nat, e: nat, f: Flags, x: int)
    requires a.start <= s < e <= a.end
    ensures At(Pieces(a, s, e, f), x) ==
            if s <= x < e then Some(a.View(x).(flags := f)) else if a.Covers(x) then Some(a.View(x)) else None
  {
    AtConcat(Before(a, s) + [Middle(a, s, e, f)], After(a, e), x);
    AtConcat(Before(a, s), [Middle(a, s, e, f)], x);
    AtOne(Middle(a, s, e, f), x);
    if a.start < s {
      AtOne(a.(end := s), x);
    }
    if e < a.end {
      AtOne(a.(start := e, offset := a.offset + (e - a.start)), x);
    }
  }

  lemma AtOne(a: Area, x: int)
    ensures At([a], x) == if a.Covers(x) then Some(a.View(x)) else None
  {
    assert [a][1..] == [];
  }

  /** Area i with its part from s to e given new flags. */
  function Split(areas: seq<Area>, i: nat, s: nat, e: nat, f: Flags): seq<Area>
    requires i < |areas|
  {
    areas[..i] + Pieces(areas[i], s, e, f) + areas[i + 1..]
  }

  /** From s to e every mapped address has its flags changed by g; nothing else changes, and no address its backing. */
  ghost predicate Changed(was: seq<Area>, now: seq<Area>, s: int, e: int, g: Flags -> Flags) {
    forall x :: At(now, x) == Recoloured(At(was, x), s <= x < e, g)
  }

  function Recoloured(c: Option<Cell>, inside: bool, g: Flags -> Flags): Option<Cell> {
    if c.Some? && inside then Some(c.value.(flags := g(c.value.flags))) else c
  }

  lemma {:induction false} SplitMeans(areas: seq<Area>, i: nat, s: nat, e: nat, g: Flags -> Flags)
    requires Sorted(areas) && i < |areas| && areas[i].start <= s < e <= areas[i].end
    ensures Changed(areas, Split(areas, i, s, e, g(areas[i].flags)), s, e, g)
  {
    var a, f := areas[i], g(areas[i].flags);
    var pre, mid, post := areas[..i], Pieces(a, s, e, f), areas[i + 1..];
    assert areas == pre + [a] + post;
    forall x
      ensures At(Split(areas, i, s, e, f), x) == Recoloured(At(areas, x), s <= x < e, g)
    {
      AtConcat(pre + [a], post, x);
      AtConcat(pre, [a], x);
      AtOne(a, x);
      AtConcat(pre + mid, post, x);
      AtConcat(pre, mid, x);
      PiecesAt(a, s, e, f, x);
      if a.Covers(x) {
        AtNone(pre, x);
      }
    }
  }

  lemma SplitSorted(areas: seq<Area>, i: nat, s: nat, e: nat, f: Flags)
    requires Sorted(areas) && i < |areas| && areas[i].start <= s < e <= areas[i].end && s % 4096 == 0 && e % 4096 == 0
    ensures Sorted(Split(areas, i, s, e, f))
  {
    var a := areas[i];
    var pre, mid, post := areas[..i], Pieces(a, s, e, f), areas[i + 1..];
    assert forall j :: 0 <= j < |mid| ==> a.start <= mid[j].start < mid[j].end <= a.end;
    assert Sorted(mid);
    SortedConcat(pre, mid);
    SortedConcat(pre + mid, post);
  }

  lemma SortedConcat(a: seq<Area>, b: seq<Area>)
    requires Sorted(a) && Sorted(b) && forall i, j :: 0 <= i < |a| && 0 <= j < |b| ==> a[i].end <= b[j].start
    ensures Sorted(a + b)
  {
  }

  /** What a flag change from s to e adds to the locked pages of an area. */
  function LockedGain(from: Flags, to: Flags, s: nat, e: nat): int {
    (if IsLocked(to) then (e - s) / 4096 else 0) - (if IsLocked(from) then (e - s) / 4096 else 0)
  }

  lemma PagesAdd(a: int, b: int)
    requires a % 4096 == 0 && b % 4096 == 0
    ensures (a + b) / 4096 == a / 4096 + b / 4096
  {
  }

  lemma {:induction false} PiecesLocked(a: Area, s: nat, e: nat, f: Flags)
    requires a.start <= s < e <= a.end && a.start % 4096 == 0 && s % 4096 == 0 && e % 4096 == 0 && a.end % 4096 == 0
    ensures LockedPages(Pieces(a, s, e, f)) == LockedPages([a]) + LockedGain(a.flags, f, s, e)
  {
    LockedConcat(Before(a, s) + [Middle(a, s, e, f)], After(a, e));
    LockedConcat(Before(a, s), [Middle(a, s, e, f)]);
    LockedOne(a);
    LockedOne(Middle(a, s, e, f));
    PagesAdd(s - a.start, e - s);
    PagesAdd(e - a.start, a.end - e);
    SidesLocked(a, s, e);
  }

  lemma {:induction false} SidesLocked(a: Area, s: nat, e: nat)
    requires a.start <= s && e <= a.end
    ensures LockedPages(Before(a, s)) == if IsLocked(a.flags) then (s - a.start) / 4096 else 0
    ensures LockedPages(After(a, e)) == if IsLocked(a.flags) then (a.end - e) / 4096 else 0
  {
    LockedOne(a.(end := s));
    LockedOne(a.(start := e, offset := a.offset + (e - a.start)));
  }

  lemma {:induction false} SplitLocked(areas: seq<Area>, i: nat, s: nat, e: nat, f: Flags)
    requires Sorted(areas) && i < |areas| && areas[i].start <= s < e <= areas[i].end && s % 4096 == 0 && e % 4096 == 0
    ensures LockedPages(Split(areas, i, s, e, f)) == LockedPages(areas) + LockedGain(areas[i].flags, f, s, e)
  {
    var pre, mid, post := areas[..i], Pieces(areas[i], s, e, f), areas[i + 1..];
    assert areas == pre + [areas[i]] + post;
    LockedConcat(pre + [areas[i]], post);
    LockedConcat(pre, [areas[i]]);
    LockedConcat(pre + mid, post);
    LockedConcat(pre, mid);
    PiecesLocked(areas[i], s, e, f);
  }

  lemma LockedOne(a: Area)
    ensures LockedPages([a]) == if IsLocked(a.flags) then PagesOf(a) else 0
  {
    assert [a][1..] == [];
  }

  // ---------- putting pieces into the list ----------

  /** The list with an area put into its place in the order. */
  function Inserted(areas: seq<Area>, n: Area): seq<Area> {
    if areas == [] || n.start < areas[0].start then [n] + areas else [areas[0]] + Inserted(areas[1..], n)
  }

  lemma {:induction false} InsertedLater(areas: seq<Area>, n: Area, k: nat)
    requires k < |areas| && areas[k].start <= n.start
    ensures areas[..k] + Inserted(areas[k..], n) == areas[..k + 1] + Inserted(areas[k + 1..], n)
  {
    assert areas[k..][1..] == areas[k + 1..];
    assert areas[..k + 1] == areas[..k] + [areas[k]];
    var rest := Inserted(areas[k + 1..], n);
    assert areas[..k] + ([areas[k]] + rest) == (areas[..k] + [areas[k]]) + rest;
  }

  lemma {:induction false} InsertedBetween(pre: seq<Area>, n: Area, post: seq<Area>)
    requires (forall j :: 0 <= j < |pre| ==> pre[j].start <= n.start) && (post != [] ==> n.start < post[0].start)
    ensures Inserted(pre + post, n) == pre + [n] + post
  {
    if pre == [] {
      assert pre + post == post;
    } else {
      assert (pre + post)[1..] == pre[1..] + post;
      InsertedBetween(pre[1..], n, post);
    }
  }

  /** Area i has been split, as an equation. */
  ghost predicate SplitInto(was: seq<Area>, i: nat, s: nat, e: nat, f: Flags, now: seq<Area>)
    requires i < |was|
  {
    (now == Split(was, i, s, e, f)) == true
  }

  lemma {:induction false} StartSplit(areas: seq<Area>, i: nat, e: nat, f: Flags)
    requires Sorted(areas) && i < |areas| && areas[i].start < e < areas[i].end
    ensures var a := areas[i];
            SplitInto(areas, i, a.start, e, f,
                      Inserted(areas[i := a.(start := e, offset := a.offset + (e - a.start))], a.(end := e, flags := f)))
  {
    var a := areas[i];
    var n, rest := a.(end := e, flags := f), a.(start := e, offset := a.offset + (e - a.start));
    assert areas[i := rest] == areas[..i] + ([rest] + areas[i + 1..]);
    InsertedBetween(areas[..i], n, [rest] + areas[i + 1..]);
    assert n == Middle(a, a.start, e, f);
    assert Pieces(a, a.start, e, f) == [n, rest];
    assert areas[..i] + [n] + ([rest] + areas[i + 1..]) == areas[..i] + [n, rest] + areas[i + 1..];
  }

  lemma {:induction false} EndSplit(areas: seq<Area>, i: nat, s: nat, f: Flags)
    requires Sorted(areas) && i < |areas| && areas[i].start < s < areas[i].end
    ensures var a := areas[i];
            SplitInto(areas, i, s, a.end, f,
                      Inserted(areas[i := a.(end := s)], a.(start := s, offset := a.offset + (s - a.start), flags := f)))
  {
    var a := areas[i];
    var n, rest := a.(start := s, offset := a.offset + (s - a.start), flags := f), a.(end := s);
    assert areas[i := rest] == (areas[..i] + [rest]) + areas[i + 1..];
    InsertedBetween(areas[..i] + [rest], n, areas[i + 1..]);
    assert n == Middle(a, s, a.end, f);
    assert Pieces(a, s, a.end, f) == [rest, n];
    assert areas[..i] + [rest] + [n] + areas[i + 1..] == areas[..i] + [rest, n] + areas[i + 1..];
  }

  lemma {:induction false} MiddleSplit(areas: seq<Area>, i: nat, s: nat, e: nat, f: Flags)
    requires Sorted(areas) && i < |areas| && areas[i].start < s < e < areas[i].end
    ensures var a := areas[i];
            SplitInto(areas, i, s, e, f,
                      Inserted(Inserted(areas[i := Middle(a, s, e, f)], a.(end := s)),
                               a.(start := e, offset := a.offset + (e - a.start))))
  {
    var a, m := areas[i], Middle(areas[i], s, e, f);
    var left, right := a.(end := s), a.(start := e, offset := a.offset + (e - a.start));
    var pre, post := areas[..i], areas[i + 1..];
    assert areas[i := m] == pre + ([m] + post);
    InsertedBetween(pre, left, [m] + post);
    InsertedBetween(pre + [left, m], right, post);
    assert Pieces(a, s, e, f) == [left, m, right];
    Regroup(pre, left, m, right, post);
  }

  lemma Regroup(pre: seq<Area>, a: Area, b: Area, c: Area, post: seq<Area>)
    ensures pre + [a] + ([b] + post) == (pre + [a, b]) + post
    ensures pre + [a, b] + [c] + post == pre + [a, b, c] + post
  {
  }

  // ---------- a range, area by area ----------

  lemma {:induction false} ChangedOn(a: seq<Area>, b: seq<Area>, c: seq<Area>, s: int, n: int, e: int, g: Flags -> Flags)
    requires Changed(a, b, s, n, g) && Changed(b, c, n, e, g) && s <= n <= e
    ensures Changed(a, c, s, e, g)
  {
    forall x
      ensures At(c, x) == Recoloured(At(a, x), s <= x < e, g)
    {
      assert At(b, x) == Recoloured(At(a, x), s <= x < n, g);
      assert At(c, x) == Recoloured(At(b, x), n <= x < e, g);
    }
  }

  /** An area that has its new flags already. */
  lemma {:induction false} SameMeans(areas: seq<Area>, i: nat, s: nat, e: nat, g: Flags -> Flags)
    requires Sorted(areas) && i < |areas| && areas[i].start <= s <= e <= areas[i].end && g(areas[i].flags) == areas[i].flags
    ensures Changed(areas, areas, s, e, g)
  {
    forall x
      ensures At(areas, x) == Recoloured(At(areas, x), s <= x < e, g)
    {
      if s <= x < e {
        AtIndex(areas, i, x);
      }
    }
  }

  /** The list after area i has been dealt with. */
  function Fixed(areas: seq<Area>, i: nat, s: nat, e: nat, f: Flags): seq<Area>
    requires i < |areas|
  {
    if f == areas[i].flags then areas else Split(areas, i, s, e, f)
  }

  lemma {:induction false} FixedMeans(areas: seq<Area>, i: nat, s: nat, e: nat, g: Flags -> Flags)
    requires Sorted(areas) && i < |areas| && areas[i].start <= s < e <= areas[i].end && s % 4096 == 0 && e % 4096 == 0
    ensures var now := Fixed(areas, i, s, e, g(areas[i].flags));
            && Changed(areas, now, s, e, g) && Sorted(now)
            && LockedPages(now) == LockedPages(areas) + LockedGain(areas[i].flags, g(areas[i].flags), s, e)
            && |now| >= |areas| && now[|now| - (|areas| - i - 1)..] == areas[i + 1..]
  {
    var f := g(areas[i].flags);
    if f == areas[i].flags {
      SameMeans(areas, i, s, e, g);
    } else {
      SplitMeans(areas, i, s, e, g);
      SplitSorted(areas, i, s, e, f);
      SplitLocked(areas, i, s, e, f);
    }
  }

  ghost predicate Mapped(areas: seq<Area>, s: int, e: int) {
    forall x :: s <= x < e ==> At(areas, x).Some?
  }

  lemma {:induction false} AreaMapped(areas: seq<Area>, i: nat, s: int, e: int)
    requires Sorted(areas) && i < |areas| && areas[i].start <= s && e <= areas[i].end
    ensures Mapped(areas, s, e)
  {
    forall x | s <= x < e
      ensures At(areas, x).Some?
    {
      AtIndex(areas, i, x);
    }
  }

  /** What was mapped after a change was mapped before it. */
  lemma MappedBefore(was: seq<Area>, now: seq<Area>, s: int, n: int, g: Flags -> Flags, a: int, b: int)
    requires Changed(was, now, s, n, g) && Mapped(now, a, b)
    ensures Mapped(was, a, b)
  {
    forall x | a <= x < b
      ensures At(was, x).Some?
    {
      assert At(now, x).Some? && At(now, x) == Recoloured(At(was, x), s <= x < n, g);
    }
  }

  /** Between two areas of the list nothing is mapped. */
  lemma {:induction false} HoleAt(areas: seq<Area>, i: nat, x: int)
    requires Sorted(areas) && i <= |areas| && (i > 0 ==> areas[i - 1].end <= x) && (i < |areas| ==> x < areas[i].start)
    ensures At(areas, x) == None
  {
    forall j | 0 <= j < |areas|
      ensures !areas[j].Covers(x)
    {
      assert j < i - 1 ==> areas[j].end <= areas[i - 1].start;
      assert i < j ==> areas[i].end <= areas[j].start;
    }
    AtNone(areas, x);
  }

  /** The range has been dealt with from s to n, and area i holds n. */
  ghost predicate Going(was: seq<Area>, now: seq<Area>, i: nat, s: nat, n: nat, e: nat, g: Flags -> Flags) {
    && Sorted(now) && Changed(was, now, s, n, g) && Mapped(was, s, n) && i < |now| && now[i].start <= n < now[i].end
    && s <= n < e && n % 4096 == 0 && e % 4096 == 0
  }

  /** Area i is dealt with up to m. */
  lemma {:induction false} StepTo(was: seq<Area>, now: seq<Area>, i: nat, s: nat, n: nat, e: nat, g: Flags -> Flags, m: nat)
    requires Going(was, now, i, s, n, e, g) && m == if now[i].end >= e then e else now[i].end
    ensures var next := Fixed(now, i, n, m, g(now[i].flags));
            && Changed(was, next, s, m, g) && Mapped(was, s, m) && Sorted(next)
            && LockedPages(next) == LockedPages(now) + LockedGain(now[i].flags, g(now[i].flags), n, m)
            && |next| >= |now| && next[|next| - (|now| - i - 1)..] == now[i + 1..]
  {
    FixedMeans(now, i, n, m, g);
    ChangedOn(was, now, Fixed(now, i, n, m, g(now[i].flags)), s, n, m, g);
    AreaMapped(now, i, n, m);
    MappedBefore(was, now, s, n, g, n, m);
  }

  /** The next area goes on where area i ends, or there is a hole. */
  lemma {:induction false} NextArea(was: seq<Area>, now: seq<Area>, i: nat, s: nat, n: nat, e: nat, g: Flags -> Flags)
    requires Going(was, now, i, s, n, e, g) && now[i].end < e
    ensures var m := now[i].end; var next := Fixed(now, i, n, m, g(now[i].flags)); var j := |next| - (|now| - i - 1);
            0 <= j <= |next| && if j < |next| && next[j].start == m then Going(was, next, j, s, m, e, g) else At(was, m) == None
  {
    var m := now[i].end;
    StepTo(was, now, i, s, n, e, g, m);
    var next := Fixed(now, i, n, m, g(now[i].flags));
    var j := |next| - (|now| - i - 1);
    if j < |next| {
      assert next[j] == next[j..][0] == now[i + 1..][0];
    }
    if !(j < |next| && next[j].start == m) {
      HoleAt(now, i + 1, m);
      assert At(now, m) == Recoloured(At(was, m), false, g);
    }
  }

  // ---------- flags ----------

  /** The flags mprotect gives: the protection asked for, all else as it was. */
  function Protected(prot: Flags): Flags -> Flags {
    f => prot | (f & !7)
  }

  /** More than the area may have. */
  predicate Denied(f: Flags) {
    (f & !(f >> 4)) & 0xf != 0
  }

  function LockFlag(on: bool): Flags -> Flags {
    f => if on then f | 0x2000 else f & !0x2000
  }

  lemma ProtectionKeepsLock(prot: Flags, f: Flags)
    requires prot & !7 == 0
    ensures IsLocked(Protected(prot)(f)) == IsLocked(f)
  {
    BitKept(prot, f);
  }

  lemma BitKept(prot: bv32, f: bv32)
    requires prot & !7 == 0
    ensures (prot | (f & !7)) & 0x2000 == f & 0x2000
  {
  }

  lemma LockFlagIs(on: bool, f: Flags)
    ensures IsLocked(LockFlag(on)(f)) == on
    ensures LockFlag(on)(f) == f <==> IsLocked(f) == on
  {
    if on {
      BitSet(f);
    } else {
      BitCleared(f);
    }
  }

  lemma BitSet(f: bv32)
    ensures (f | 0x2000) & 0x2000 != 0 && (f | 0x2000 == f <==> f & 0x2000 != 0)
  {
  }

  lemma BitCleared(f: bv32)
    ensures (f & !0x2000) & 0x2000 == 0 && (f & !0x2000 == f <==> f & 0x2000 == 0)
  {
  }

  /** The length in whole pages, in 32 bits. */
  function WholePages(len: nat): nat {
    (len + 4095) % 0x1_0000_0000 / 4096 * 4096
  }

  /** Rounding covers the length exactly when the sum does not wrap. */
  lemma WholePagesCover(len: nat)
    requires len < 0x1_0000_0000
    ensures WholePages(len) % 4096 == 0
    ensures len <= WholePages(len) < len + 4096 <==> len + 4095 < 0x1_0000_0000
  {
  }

  /** A length one byte into the last page is rounded to nothing. */
  lemma RoundedAwayExample()
    ensures WholePages(0xffff_f001) == 0
  {
  }

  // ---------- merging areas ----------

  /** A place in the backing object means something if there is an inode or a shared memory segment (VM_SHM). */
  predicate HasPlace(object_: Object, flags: Flags) {
    object_.inode != 0 || flags & 0x400 != 0
  }

  /** The same backing and flags, and the same place if that means something. */
  predicate Alike(c: Option<Cell>, d: Option<Cell>) {
    match (c, d)
    case (Some(a), Some(b)) =>
      a.object_ == b.object_ && a.flags == b.flags && (HasPlace(a.object_, a.flags) ==> a.place == b.place)
    case _ => c == d
  }

  /** From s to e every mapped address has its flags changed by g; nothing else changes. */
  ghost predicate Recast(was: seq<Area>, now: seq<Area>, s: int, e: int, g: Flags -> Flags) {
    forall x :: Alike(At(now, x), Recoloured(At(was, x), s <= x < e, g))
  }

  /** What `merge_segments` asks of two areas in a row. */
  predicate Joins(a: Area, b: Area) {
    && a.object_ == b.object_ && a.flags == b.flags && a.end == b.start
    && (HasPlace(b.object_, b.flags) ==> a.offset + (a.end - a.start) == b.offset)
  }

  /** Areas p and p + 1 made one. */
  function Joined(areas: seq<Area>, p: nat): seq<Area>
    requires p + 1 < |areas|
  {
    areas[..p] + [areas[p].(end := areas[p + 1].end)] + areas[p + 2..]
  }

  lemma JoinPair(a: Area, b: Area, x: int)
    requires a.start < a.end && b.start < b.end && Joins(a, b)
    ensures Alike(At([a.(end := b.end)], x), At([a, b], x)) && (At([a.(end := b.end)], x).Some? <==> At([a, b], x).Some?)
  {
    AtOne(a.(end := b.end), x);
    AtOne(b, x);
    assert [a, b][1..] == [b];
  }

  lemma {:induction false} JoinAlike(areas: seq<Area>, p: nat, x: int)
    requires Sorted(areas) && p + 1 < |areas| && Joins(areas[p], areas[p + 1])
    ensures Alike(At(Joined(areas, p), x), At(areas, x))
  {
    var a, b := areas[p], areas[p + 1];
    var pre, post := areas[..p], areas[p + 2..];
    assert areas == (pre + [a, b]) + post;
    AtConcat(pre + [a, b], post, x);
    AtConcat(pre, [a, b], x);
    AtConcat(pre + [a.(end := b.end)], post, x);
    AtConcat(pre, [a.(end := b.end)], x);
    JoinPair(a, b, x);
  }

  lemma JoinSorted(areas: seq<Area>, p: nat)
    requires Sorted(areas) && p + 1 < |areas| && Joins(areas[p], areas[p + 1])
    ensures Sorted(Joined(areas, p))
  {
    var r := Joined(areas, p);
    assert forall k :: 0 <= k < |r| && k != p ==> r[k] == areas[if k < p then k else k + 1];
  }

  lemma {:induction false} JoinLocked(areas: seq<Area>, p: nat)
    requires Sorted(areas) && p + 1 < |areas| && Joins(areas[p], areas[p + 1])
    ensures LockedPages(Joined(areas, p)) == LockedPages(areas)
  {
    var a, b := areas[p], areas[p + 1];
    var pre, post := areas[..p], areas[p + 2..];
    assert areas == (pre + [a, b]) + post;
    LockedConcat(pre + [a, b], post);
    LockedConcat(pre, [a, b]);
    LockedConcat(pre + [a.(end := b.end)], post);
    LockedConcat(pre, [a.(end := b.end)]);
    JoinPages(a, b);
  }

  lemma JoinPages(a: Area, b: Area)
    requires Joins(a, b) && a.start < a.end && b.start < b.end && a.start % 4096 == 0 && a.end % 4096 == 0 && b.end % 4096 == 0
    ensures LockedPages([a.(end := b.end)]) == LockedPages([a, b])
  {
    LockedOne(a.(end := b.end));
    LockedOne(b);
    assert [a, b][1..] == [b];
  }

  /** One list as good as another: every address is alike. */
  ghost predicate SameView(was: seq<Area>, now: seq<Area>) {
    forall x :: Alike(At(now, x), At(was, x))
  }

  lemma JoinView(was: seq<Area>, areas: seq<Area>, p: nat)
    requires SameView(was, areas) && Sorted(areas) && p + 1 < |areas| && Joins(areas[p], areas[p + 1])
    ensures SameView(was, Joined(areas, p))
  {
    forall x
      ensures Alike(At(Joined(areas, p), x), At(was, x))
    {
      JoinAlike(areas, p, x);
      assert Alike(At(areas, x), At(was, x));
    }
  }

  lemma ChangedView(was: seq<Area>, mid: seq<Area>, now: seq<Area>, s: int, e: int, g: Flags -> Flags)
    requires Changed(was, mid, s, e, g) && SameView(mid, now)
    ensures Recast(was, now, s, e, g)
  {
    forall x
      ensures Alike(At(now, x), Recoloured(At(was, x), s <= x < e, g))
    {
      assert Alike(At(now, x), At(mid, x));
    }
  }

  /** No two areas in a row, the first of them from place lo to hi - 1, could be one. */
  ghost predicate MergedTo(areas: seq<Area>, lo: nat, hi: nat) {
    forall k :: lo <= k < hi && k + 1 < |areas| ==> !Joins(areas[k], areas[k + 1])
  }

  /** No two areas that meet at start or after, the first of which begins before end, could be one. */
  ghost predicate Merged(areas: seq<Area>, start: nat, end: nat) {
    forall k :: 0 <= k < |areas| - 1 && start <= areas[k].end && areas[k].start < end ==> !Joins(areas[k], areas[k + 1])
  }

  lemma JoinStep(was: seq<Area>, areas: seq<Area>, lo: nat, p: nat)
    requires SameView(was, areas) && Sorted(areas) && p + 1 < |areas| && Joins(areas[p], areas[p + 1])
    requires lo <= p && MergedTo(areas, lo, p)
    ensures SameView(was, Joined(areas, p)) && Sorted(Joined(areas, p)) && LockedPages(Joined(areas, p)) == LockedPages(areas)
    ensures |Joined(areas, p)| == |areas| - 1 && Joined(areas, p)[lo].start == areas[lo].start && MergedTo(Joined(areas, p), lo, p)
  {
    JoinView(was, areas, p);
    JoinSorted(areas, p);
    JoinLocked(areas, p);
    var r := Joined(areas, p);
    assert forall k :: 0 <= k < p ==> r[k] == areas[k];
    forall k | lo <= k < p && k + 1 < |r|
      ensures !Joins(r[k], r[k + 1])
    {
      assert !Joins(areas[k], areas[k + 1]);
    }
  }

  lemma MergedAll(areas: seq<Area>, lo: nat, p: nat, start: nat, end: nat)
    requires Sorted(areas) && lo <= p < |areas| && MergedTo(areas, lo, p)
    requires (lo > 0 ==> areas[lo].start < start) && (p + 1 < |areas| ==> areas[p].start >= end)
    ensures Merged(areas, start, end)
  {
    assert forall k :: p < k < |areas| ==> areas[p].end <= areas[k].start;
    assert forall k :: 0 <= k < lo ==> areas[k].end <= areas[lo].start;
  }

  lemma RecastNone(areas: seq<Area>, s: int, g: Flags -> Flags)
    ensures Recast(areas, areas, s, s, g) && Mapped(areas, s, s)
  {
  }

  /** The end of the range, in 32 bits. */
  lemma RangeEnd(start: nat, len: nat)
    requires start < 0x1_0000_0000 && len < 0x1_0000_0000
    ensures var end := (start + WholePages(len)) % 0x1_0000_0000;
            && (end < start <==> start + WholePages(len) >= 0x1_0000_0000)
            && (end >= start ==> end == start + WholePages(len)) && (start % 4096 == 0 && end >= start ==> end % 4096 == 0)
  {
    WholePagesCover(len);
    assert WholePages(len) < 0x1_0000_0000;
  }

  // ---------- the address space ----------

  datatype Step = Done | Failed | Hole | Next

  datatype Error = Ok | EFault | EAccess | NoMemory | EInval

  class AddressSpace {
    var areas: seq<Area>
    /** `locked_vm`, in pages. */
    var locked: int
    /** How many areas kmalloc can still give. */
    var memory: nat

    ghost predicate Valid()
      reads this
    {
      Sorted(areas) && locked == LockedPages(areas)
    }

    constructor (memory: nat)
      ensures Valid() && areas == [] && locked == 0
    {
      areas, locked, this.memory := [], 0, memory;
    }

    /** `insert_vm_struct`. */
    method InsertArea(n: Area)
      modifies this`areas
      ensures areas == Inserted(old(areas), n)
    {
      var k := 0;
      assert areas[..0] == [] && areas[0..] == areas;
      while k < |areas| && areas[k].start <= n.start
        invariant areas == old(areas) && 0 <= k <= |areas| && Inserted(areas, n) == areas[..k] + Inserted(areas[k..], n)
      {
        InsertedLater(areas, n, k);
        k := k + 1;
      }
      assert Inserted(areas[k..], n) == [n] + areas[k..];
      assert areas[..k] + ([n] + areas[k..]) == areas[..k] + [n] + areas[k..];
      areas := areas[..k] + [n] + areas[k..];
    }

    /** The range is the beginning of area i: a new area is made for it, before what is left. */
    method FixupStart(i: nat, e: nat, f: Flags) returns (error: Error)
      requires Sorted(areas) && i < |areas| && areas[i].start < e < areas[i].end
      modifies this`areas, this`memory
      ensures error == Ok || error == NoMemory
      ensures error == NoMemory <==> old(memory) == 0
      ensures error == NoMemory ==> areas == old(areas) && memory == old(memory)
      ensures error == Ok ==> SplitInto(old(areas), i, old(areas)[i].start, e, f, areas)
    {
      if memory == 0 {
        return NoMemory;
      }
      memory := memory - 1;
      var vma := areas[i];
      var n := vma.(end := e, flags := f);
      StartSplit(areas, i, e, f);
      areas := areas[i := vma.(start := e, offset := vma.offset + (e - vma.start))];
      InsertArea(n);
      error := Ok;
    }

    /** The range is the end of area i. */
    method FixupEnd(i: nat, s: nat, f: Flags) returns (error: Error)
      requires Sorted(areas) && i < |areas| && areas[i].start < s < areas[i].end
      modifies this`areas, this`memory
      ensures error == Ok || error == NoMemory
      ensures error == NoMemory <==> old(memory) == 0
      ensures error == NoMemory ==> areas == old(areas) && memory == old(memory)
      ensures error == Ok ==> SplitInto(old(areas), i, s, old(areas)[i].end, f, areas)
    {
      if memory == 0 {
        return NoMemory;
      }
      memory := memory - 1;
      var vma := areas[i];
      var n := vma.(start := s, offset := vma.offset + (s - vma.start), flags := f);
      EndSplit(areas, i, s, f);
      areas := areas[i := vma.(end := s)];
      InsertArea(n);
      error := Ok;
    }

    /** The range lies inside area i: areas are made for both sides. */
    method FixupMiddle(i: nat, s: nat, e: nat, f: Flags) returns (error: Error)
      requires Sorted(areas) && i < |areas| && areas[i].start < s < e < areas[i].end
      modifies this`areas, this`memory
      ensures error == Ok || error == NoMemory
      ensures error == NoMemory <==> old(memory) < 2
      ensures error == NoMemory ==> areas == old(areas) && memory == old(memory)
      ensures error == Ok ==> SplitInto(old(areas), i, s, e, f, areas)
    {
      if memory < 2 {
        return NoMemory;
      }
      memory := memory - 2;
      var vma := areas[i];
      var left, right := vma.(end := s), vma.(start := e, offset := vma.offset + (e - vma.start));
      MiddleSplit(areas, i, s, e, f);
      areas := areas[i := Middle(vma, s, e, f)];
      InsertArea(left);
      InsertArea(right);
      error := Ok;
    }

    /** The fixup of area i: nothing if it has the flags, else one of the four ways to split it. */
    method Fixup(i: nat, s: nat, e: nat, f: Flags) returns (error: Error)
      requires Sorted(areas) && i < |areas| && areas[i].start <= s < e <= areas[i].end
      modifies this`areas, this`memory
      ensures error == Ok || error == NoMemory
      ensures error == Ok ==> areas == Fixed(old(areas), i, s, e, f)
      ensures error == NoMemory ==> areas == old(areas) && memory < 2
    {
      var vma := areas[i];
      if f == vma.flags {
        return Ok;
      }
      if s == vma.start {
        if e == vma.end {
          WholeSplit(areas, i, f);
          areas := areas[i := vma.(flags := f)];
          error := Ok;
        } else {
          error := FixupStart(i, e, f);
        }
      } else if e == vma.end {
        error := FixupEnd(i, s, f);
      } else {
        error := FixupMiddle(i, s, e, f);
      }
    }

    /** `find_vma`: the first area that ends after x. */
    method FindArea(x: nat) returns (i: nat)
      requires Sorted(areas)
      ensures i <= |areas| && (i > 0 ==> areas[i - 1].end <= x) && (i < |areas| ==> x < areas[i].end)
    {
      i := 0;
      while i < |areas| && areas[i].end <= x
        invariant i <= |areas| && (i > 0 ==> areas[i - 1].end <= x)
      {
        i := i + 1;
      }
    }

    /** One round of the loop over a range: area i up to its end or that of the range, and the area after it. */
    method RangeStep(ghost was: seq<Area>, i: nat, ghost s: nat, n: nat, e: nat, ghost g: Flags -> Flags, f: Flags)
      returns (step: Step, j: nat, m: nat)
      requires Going(was, areas, i, s, n, e, g) && f == g(areas[i].flags)
      modifies this`areas, this`memory
      ensures step == Failed ==> areas == old(areas) && memory < 2
      ensures step != Failed ==> n < m <= e && Sorted(areas) && Changed(was, areas, s, m, g) && Mapped(was, s, m)
      ensures step != Failed ==> LockedPages(areas) == LockedPages(old(areas)) + LockedGain(old(areas)[i].flags, f, n, m)
      ensures step == Done ==> m == e
      ensures step == Hole ==> m < e && At(was, m) == None
      ensures step == Next ==> Going(was, areas, j, s, m, e, g)
    {
      var vma := areas[i];
      j, m := i, if vma.end >= e then e else vma.end;
      StepTo(was, areas, i, s, n, e, g, m);
      var after := |areas| - i - 1;
      if vma.end < e {
        NextArea(was, areas, i, s, n, e, g);
      }
      var error := Fixup(i, n, m, f);
      if error != Ok {
        step := Failed;
      } else if vma.end >= e {
        step := Done;
      } else {
        j := |areas| - after;
        step := if j == |areas| || areas[j].start != m then Hole else Next;
      }
    }

    /** The loop of `sys_mprotect`, from area i on. */
    method ProtectRange(i0: nat, start: nat, end: nat, prot: Flags) returns (error: Error, ghost upto: nat)
      requires Valid() && prot & !7 == 0 && Going(areas, areas, i0, start, start, end, Protected(prot))
      modifies this`areas, this`memory
      ensures Valid() && start <= upto <= end && Changed(old(areas), areas, start, upto, Protected(prot))
      ensures Mapped(old(areas), start, upto) && (error == Ok <==> upto == end) && error != EInval
      ensures error == EFault ==> At(old(areas), upto) == None
      ensures error == EAccess ==> At(old(areas), upto).Some? && Denied(Protected(prot)(At(old(areas), upto).value.flags))
      ensures error == NoMemory ==> memory < 2
    {
      ghost var was, g := areas, Protected(prot);
      var i, nstart := i0, start;
      while true
        invariant Going(was, areas, i, start, nstart, end, g) && locked == LockedPages(areas)
        decreases end - nstart
      {
        var f := Protected(prot)(areas[i].flags);
        if Denied(f) {
          AtIndex(areas, i, nstart);
          return EAccess, nstart;
        }
        ProtectionKeepsLock(prot, areas[i].flags);
        var step, j, m := RangeStep(was, i, start, nstart, end, g, f);
        match step
        case Done => return Ok, end;
        case Failed => return NoMemory, nstart;
        case Hole => return EFault, m;
        case Next => i, nstart := j, m;
      }
    }

    /** The loop of `do_mlock`, from area i on; `locked_vm` follows each fixup. */
    method LockRange(i0: nat, start: nat, end: nat, on: bool) returns (error: Error, ghost upto: nat)
      requires Valid() && Going(areas, areas, i0, start, start, end, LockFlag(on))
      modifies this`areas, this`memory, this`locked
      ensures Valid() && start <= upto <= end && Changed(old(areas), areas, start, upto, LockFlag(on))
      ensures Mapped(old(areas), start, upto) && (error == Ok <==> upto == end) && error != EInval
      ensures error == EFault ==> At(old(areas), upto) == None
      ensures error != EAccess && (error == NoMemory ==> memory < 2)
    {
      ghost var was, g := areas, LockFlag(on);
      var i, nstart := i0, start;
      while true
        invariant Going(was, areas, i, start, nstart, end, g) && locked == LockedPages(areas)
        decreases end - nstart
      {
        var old_flags := areas[i].flags;
        var f := LockFlag(on)(old_flags);
        LockFlagIs(on, old_flags);
        var step, j, m := RangeStep(was, i, start, nstart, end, g, f);
        if step != Failed && f != old_flags {
          var pages: int := (m - nstart) / 4096;
          locked := locked + if IsLocked(f) then pages else -pages;
        }
        match step
        case Done => return Ok, end;
        case Failed => return NoMemory, nstart;
        case Hole => return EFault, m;
        case Next => i, nstart := j, m;
      }
    }

    /** `merge_segments`. */
    method MergeSegments(start: nat, end: nat)
      requires Valid()
      modifies this`areas
      ensures Valid() && SameView(old(areas), areas) && Merged(areas, start, end)
    {
      var i := FindArea(start);
      if i == |areas| {
        return;
      }
      var p := if i > 0 then i - 1 else 0;
      ghost var lo := p;
      while p + 1 < |areas| && areas[p].start < end
        invariant Valid() && SameView(old(areas), areas) && lo <= p < |areas| && MergedTo(areas, lo, p)
        invariant lo > 0 ==> areas[lo].start < start
        decreases |areas| - p
      {
        if Joins(areas[p], areas[p + 1]) {
          JoinStep(old(areas), areas, lo, p);
          areas := Joined(areas, p);
        } else {
          p := p + 1;
        }
      }
      MergedAll(areas, lo, p, start, end);
    }

    /** `sys_mprotect`; a failure leaves the part of the range before `upto` changed. */
    method Mprotect(start: nat, len: nat, prot: Flags) returns (error: Error, ghost upto: nat)
      requires Valid() && start < 0x1_0000_0000 && len < 0x1_0000_0000
      modifies this`areas, this`memory
      ensures Valid() && start <= upto && Recast(old(areas), areas, start, upto, Protected(prot)) && Mapped(old(areas), start, upto)
      ensures error == EInval <==> start % 4096 != 0 || start + WholePages(len) >= 0x1_0000_0000 || prot & !7 != 0
      ensures error == EInval ==> areas == old(areas)
      ensures error == Ok ==> upto == start + WholePages(len) && (upto > start ==> Merged(areas, start, upto))
      ensures error != Ok && error != EInval ==> upto < start + WholePages(len)
      ensures error == EFault ==> At(old(areas), upto) == None
      ensures error == EAccess ==> At(old(areas), upto).Some? && Denied(Protected(prot)(At(old(areas), upto).value.flags))
      ensures error == NoMemory ==> memory < 2
    {
      upto := start;
      RecastNone(areas, start, Protected(prot));
      RangeEnd(start, len);
      var end := (start + WholePages(len)) % 0x1_0000_0000;
      if start % 4096 != 0 || end < start || prot & !7 != 0 {
        error := EInval;
      } else if end == start {
        error := Ok;
      } else {
        error, upto := ProtectFrom(start, end, prot);
      }
    }

    /** The areas from start on, if there is one there. */
    method ProtectFrom(start: nat, end: nat, prot: Flags) returns (error: Error, ghost upto: nat)
      requires Valid() && prot & !7 == 0 && start < end && start % 4096 == 0 && end % 4096 == 0
      modifies this`areas, this`memory
      ensures Valid() && start <= upto <= end && Recast(old(areas), areas, start, upto, Protected(prot))
      ensures Mapped(old(areas), start, upto) && (error == Ok <==> upto == end) && error != EInval
      ensures error == EFault ==> At(old(areas), upto) == None
      ensures error == EAccess ==> At(old(areas), upto).Some? && Denied(Protected(prot)(At(old(areas), upto).value.flags))
      ensures error == NoMemory ==> memory < 2
      ensures error == Ok ==> Merged(areas, start, end)
    {
      var i := FindArea(start);
      if i == |areas| || areas[i].start > start {
        HoleAt(areas, i, start);
        RecastNone(areas, start, Protected(prot));
        error, upto := EFault, start;
      } else {
        error, upto := ProtectRange(i, start, end, prot);
        ghost var mid := areas;
        MergeSegments(start, end);
        ChangedView(old(areas), mid, areas, start, upto, Protected(prot));
      }
    }

    /** `do_mlock`, for a range in whole pages; where it finds a hole it answers ENOMEM. */
    method Mlock(start: nat, len: nat, on: bool) returns (error: Error, ghost upto: nat)
      requires Valid() && start % 4096 == 0 && start < 0x1_0000_0000 && len < 0x1_0000_0000
      modifies this`areas, this`memory, this`locked
      ensures Valid() && start <= upto && Recast(old(areas), areas, start, upto, LockFlag(on)) && Mapped(old(areas), start, upto)
      ensures error == EInval <==> start + WholePages(len) >= 0x1_0000_0000
      ensures error == EInval ==> areas == old(areas)
      ensures error == Ok ==> upto == start + WholePages(len) && (upto > start ==> Merged(areas, start, upto))
      ensures error != Ok && error != EInval ==> upto < start + WholePages(len)
      ensures error == EFault ==> At(old(areas), upto) == None
      ensures error != EAccess && (error == NoMemory ==> memory < 2)
    {
      upto := start;
      RecastNone(areas, start, LockFlag(on));
      RangeEnd(start, len);
      var end := (start + WholePages(len)) % 0x1_0000_0000;
      if end < start {
        error := EInval;
      } else if end == start {
        error := Ok;
      } else {
        error, upto := LockFrom(start, end, on);
      }
    }

    method LockFrom(start: nat, end: nat, on: bool) returns (error: Error, ghost upto: nat)
      requires Valid() && start < end && start % 4096 == 0 && end % 4096 == 0
      modifies this`areas, this`memory, this`locked
      ensures Valid() && start <= upto <= end && Recast(old(areas), areas, start, upto, LockFlag(on))
      ensures Mapped(old(areas), start, upto) && (error == Ok <==> upto == end) && error != EInval
      ensures error == EFault ==> At(old(areas), upto) == None
      ensures error != EAccess && (error == NoMemory ==> memory < 2)
      ensures error == Ok ==> Merged(areas, start, end)
    {
      var i := FindArea(start);
      if i == |areas| || areas[i].start > start {
        HoleAt(areas, i, start);
        RecastNone(areas, start, LockFlag(on));
        error, upto := EFault, start;
      } else {
        error, upto := LockRange(i, start, end, on);
        ghost var mid := areas;
        MergeSegments(start, end);
        ChangedView(old(areas), mid, areas, start, upto, LockFlag(on));
      }
    }
  }

  lemma WholeSplit(areas: seq<Area>, i: nat, f: Flags)
    requires Sorted(areas) && i < |areas|
    ensures areas[i := areas[i].(flags := f)] == Split(areas, i, areas[i].start, areas[i].end, f)
  {
    var a := areas[i];
    assert Pieces(a, a.start, a.end, f) == [a.(flags := f)];
  }
}
