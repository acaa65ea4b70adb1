/**
 The 32K sliding window of lib/inflate.c against unlimited output history
 (section 3.2.3 of RFC 1951).
 */
module Windows {

  const WSIZE: nat := 0x8000

  type Byte = x: int | 0 <= x < 256

  /** n bytes appended one by one, each the byte `dist` places before the end. */
  function Copied(h: seq<Byte>, dist: nat, n: nat): (r: seq<Byte>)
    requires 1 <= dist <= |h|
    ensures |r| == |h| + n
    decreases n
  {
    if n == 0 then h else Copied(h + [h[|h| - dist]], dist, n - 1)
  }

  lemma {:induction false} CopiedPrefix(h: seq<Byte>, dist: nat, n: nat)
    requires 1 <= dist <= |h|
    ensures h <= Copied(h, dist, n)
    decreases n
  {
    if n > 0 {
      CopiedPrefix(h + [h[|h| - dist]], dist, n - 1);
    }
  }

  /** Every byte of the result past the given ones equals the byte `dist` before it. */
  lemma {:induction false} CopiedRepeats(h: seq<Byte>, dist: nat, n: nat, k: nat)
    requires 1 <= dist <= |h| && |h| <= k < |h| + n
    ensures Copied(h, dist, n)[k] == Copied(h, dist, n)[k - dist]
    decreases n
  {
    var h1 := h + [h[|h| - dist]];
    if k > |h| {
      CopiedRepeats(h1, dist, n - 1, k);
    } else {
      var r := Copied(h1, dist, n - 1);
      CopiedPrefix(h1, dist, n - 1);
      assert r[k] == h1[k] && r[k - dist] == h1[k - dist];
    }
  }

  lemma {:induction false} CopiedSplit(h: seq<Byte>, dist: nat, a: nat, b: nat)
    requires 1 <= dist <= |h|
    ensures Copied(h, dist, a + b) == Copied(Copied(h, dist, a), dist, b)
    decreases a
  {
    if a > 0 {
      CopiedSplit(h + [h[|h| - dist]], dist, a - 1, b);
    }
  }

  /** A stretch no longer than the distance is a block of what is already there. */
  lemma {:induction false} CopiedBlock(h: seq<Byte>, dist: nat, n: nat)
    requires 1 <= dist <= |h| && n <= dist
    ensures Copied(h, dist, n) == h + h[|h| - dist..|h| - dist + n]
    decreases n
  {
    if n > 0 {
      CopiedSplit(h, dist, n - 1, 1);
      CopiedBlock(h, dist, n - 1);
      var g := Copied(h, dist, n - 1);
      assert g[|g| - dist] == h[|h| - dist + n - 1];
      assert Copied(g, dist, 1) == g + [g[|g| - dist]];
    }
  }

  // ---------- the window as a value ----------

  function Hist(flushed: seq<Byte>, slide: seq<Byte>, w: nat): seq<Byte>
    requires w <= |slide|
  {
    flushed + slide[..w]
  }

  /** Whole windows have been flushed, and beyond the position the last one is still there. */
  ghost predicate IsRing(flushed: seq<Byte>, slide: seq<Byte>, w: nat) {
    && |slide| == WSIZE && w <= WSIZE
    && (flushed != [] ==> |flushed| >= WSIZE && slide[w..] == flushed[|flushed| - WSIZE + w..])
  }

  /** Place d of the window is `dist` places back. */
  ghost predicate Points(w: nat, d: int, dist: nat) {
    1 <= dist <= WSIZE && 0 <= d < WSIZE && (d == w - dist || d == w - dist + WSIZE)
  }

  lemma PointsFirst(w: nat, dist: nat)
    requires w < WSIZE && 1 <= dist <= WSIZE
    ensures Points(w, (w - dist) % 0x8000, dist)
  {
  }

  lemma PointsNext(w: nat, d: nat, dist: nat, e: nat)
    requires Points(w, d, dist) && w < WSIZE && d + e <= WSIZE && w + e <= WSIZE
    ensures Points(if w + e == WSIZE then 0 else w + e, (d + e) % 0x8000, dist)
  {
  }

  lemma SliceOfDrop(s: seq<Byte>, w: nat, d: nat, e: nat)
    requires w <= d && d + e <= |s|
    ensures s[d..d + e] == s[w..][d - w..d - w + e]
  {
  }

  /** The window at d holds the history at that distance, up to the end of the window. */
  lemma PointsAt(flushed: seq<Byte>, slide: seq<Byte>, w: nat, d: nat, dist: nat, e: nat)
    requires IsRing(flushed, slide, w) && Points(w, d, dist) && dist <= |flushed| + w && d + e <= WSIZE && e <= dist
    ensures var h := Hist(flushed, slide, w); slide[d..d + e] == h[|h| - dist..|h| - dist + e]
  {
    var h := Hist(flushed, slide, w);
    if d == w - dist {
      assert h[|h| - dist..|h| - dist + e] == slide[d..d + e];
    } else {
      var f := |flushed| - WSIZE;
      assert |h| - dist == f + d && d >= w;
      SliceOfDrop(slide, w, d, e);
      SliceOfDrop(flushed, f + w, f + d, e);
      assert h[f + d..f + d + e] == flushed[f + d..f + d + e];
    }
  }

  /** What `memcpy` makes of the window: the target gets what the source held before. */
  function Moved(slide: seq<Byte>, dst: nat, src: nat, e: nat): (r: seq<Byte>)
    requires dst + e <= |slide| && src + e <= |slide|
    ensures |r| == |slide|
  {
    slide[..dst] + slide[src..src + e] + slide[dst + e..]
  }

  /** The output is the old one and e bytes more; if the distance is not beyond the beginning, the right ones. */
  ghost predicate Extends(h: seq<Byte>, dist: nat, e: nat, r: seq<Byte>) {
    dist >= 1 && |r| == |h| + e && (dist <= |h| ==> r == Copied(h, dist, e))
  }

  lemma {:induction false} ExtendsMore(h: seq<Byte>, dist: nat, a: nat, g: seq<Byte>, b: nat, r: seq<Byte>)
    requires Extends(h, dist, a, g) && Extends(g, dist, b, r)
    ensures Extends(h, dist, a + b, r)
  {
    if dist <= |h| {
      CopiedSplit(h, dist, a, b);
    }
  }

  /** A stretch that stops at the end of the window and is no longer than the distance. */
  lemma MovedCopies(flushed: seq<Byte>, slide: seq<Byte>, w: nat, d: nat, dist: nat, e: nat)
    requires IsRing(flushed, slide, w) && Points(w, d, dist) && d + e <= WSIZE && w + e <= WSIZE && e <= dist
    ensures var s := Moved(slide, w, d, e);
            IsRing(flushed, s, w + e) && Extends(Hist(flushed, slide, w), dist, e, Hist(flushed, s, w + e))
  {
    var h := Hist(flushed, slide, w);
    MovedRing(flushed, slide, w, d, e);
    if dist <= |h| {
      PointsAt(flushed, slide, w, d, dist, e);
      CopiedBlock(h, dist, e);
    }
  }

  lemma MovedRing(flushed: seq<Byte>, slide: seq<Byte>, w: nat, d: nat, e: nat)
    requires IsRing(flushed, slide, w) && d + e <= WSIZE && w + e <= WSIZE
    ensures var s := Moved(slide, w, d, e);
            IsRing(flushed, s, w + e) && Hist(flushed, s, w + e) == Hist(flushed, slide, w) + slide[d..d + e]
  {
    var s := Moved(slide, w, d, e);
    MovedParts(slide, w, d, e);
    assert Hist(flushed, s, w + e) == Hist(flushed, slide, w) + slide[d..d + e];
    if flushed != [] {
      DropMore(slide, w, e);
      DropMore(flushed, |flushed| - WSIZE + w, e);
    }
  }

  lemma MovedParts(slide: seq<Byte>, w: nat, d: nat, e: nat)
    requires w + e <= |slide| && d + e <= |slide|
    ensures var s := Moved(slide, w, d, e); s[..w + e] == slide[..w] + slide[d..d + e] && s[w + e..] == slide[w + e..]
  {
  }

  lemma DropMore(s: seq<Byte>, w: nat, e: nat)
    requires w + e <= |s|
    ensures s[w + e..] == s[w..][e..]
  {
  }

  class Window {
    const slide: array<Byte>
    /** The window position `wp`. */
    var w: nat
    /** Everything flush_window has been given. */
    var flushed: seq<Byte>

    /** All output so far. */
    ghost function History(): seq<Byte>
      requires w <= slide.Length
      reads this, slide
    {
      Hist(flushed, slide[..], w)
    }

    ghost predicate Ring()
      reads this, slide
    {
      IsRing(flushed, slide[..], w)
    }

    ghost predicate Valid()
      reads this, slide
    {
      Ring() && w < WSIZE
    }

    constructor ()
      ensures Valid() && History() == [] && fresh(slide)
    {
      slide := new Byte[WSIZE](_ => 0);
      w, flushed := 0, [];
    }

    /** The end of the window reached, it is flushed and begun again. */
    method FlushIfFull()
      requires Ring()
      modifies this
      ensures Valid() && History() == old(History())
      ensures w == (if old(w) == WSIZE then 0 else old(w)) && |flushed| + w == old(|flushed| + w)
    {
      if w == WSIZE {
        flushed := flushed + slide[..];
        w := 0;
      }
    }

    /** A literal byte, or a byte of a stored block. */
    method Output(b: Byte)
      requires Valid()
      modifies this, slide
      ensures Valid() && History() == old(History()) + [b]
    {
      ghost var was := slide[..];
      slide[w] := b;
      assert slide[w + 1..] == was[w..][1..] && slide[..w + 1] == was[..w] + [b];
      w := w + 1;
      FlushIfFull();
    }

    method Memcpy(dst: nat, src: nat, e: nat)
      requires dst + e <= slide.Length && src + e <= slide.Length
      modifies slide
      ensures slide[..] == Moved(old(slide[..]), dst, src, e)
    {
      forall k | 0 <= k < e {
        slide[dst + k] := slide[src + k];
      }
    }

    method CopyByte(d: nat, ghost dist: nat)
      requires Ring() && Points(w, d, dist) && w < WSIZE
      modifies this`w, slide
      ensures Ring() && w == old(w) + 1 && Extends(old(History()), dist, 1, History())
    {
      MovedCopies(flushed, slide[..], w, d, dist, 1);
      ghost var moved := Moved(slide[..], w, d, 1);
      slide[w] := slide[d];
      assert slide[..] == moved;
      w := w + 1;
    }

    /** The loop that copies byte by byte, so that it may read what it has just written. */
    method CopySlow(d0: nat, e0: nat, ghost dist: nat)
      requires Ring() && Points(w, d0, dist) && w + e0 <= WSIZE && d0 + e0 <= WSIZE
      modifies this`w, slide
      ensures Ring() && w == old(w) + e0 && Extends(old(History()), dist, e0, History())
    {
      ghost var h, made := History(), 0;
      var d, e := d0, e0;
      while e > 0
        invariant 0 <= e <= e0 && made == e0 - e && w == old(w) + made && d == d0 + made
        invariant Ring()
        invariant Extends(h, dist, made, History())
      {
        ghost var g := History();
        CopyByte(d, dist);
        ExtendsMore(h, dist, made, g, 1, History());
        made := made + 1;
        d := d + 1;
        e := e - 1;
      }
    }

    /** The stretch copied by memcpy. */
    method CopyFast(d: nat, e: nat, ghost dist: nat)
      requires Ring() && Points(w, d, dist) && w + e <= WSIZE && d + e <= WSIZE && e <= dist
      modifies this`w, slide
      ensures Ring() && w == old(w) + e && Extends(old(History()), dist, e, History())
    {
      MovedCopies(flushed, slide[..], w, d, dist, e);
      Memcpy(w, d, e);
      w := w + e;
    }

    /** One stretch of a copy: up to the end of the window on either side, or n bytes if that is less. */
    method CopyStretch(d: nat, n: nat, ghost dist: nat) returns (e: nat)
      requires Valid() && Points(w, d, dist) && n > 0
      modifies this, slide
      ensures Valid() && 1 <= e <= n && Extends(old(History()), dist, e, History())
      ensures Points(w, (d + e) % 0x8000, dist)
    {
      e := WSIZE - if d > w then d else w;
      e := if e > n then n else e;
      PointsNext(w, d, dist, e);
      if d > w || w - d >= e {
        CopyFast(d, e, dist);
      } else {
        CopySlow(d, e, dist);
      }
      FlushIfFull();
    }

    /** The copy of a match of n bytes at distance dist, in stretches that stop at the ends of the window.  Of a distance beyond
        the beginning of the output it makes n bytes of what the window holds. */
    method CopyMatch(n0: nat, dist: nat)
      requires Valid() && 1 <= dist <= WSIZE
      modifies this, slide
      ensures Valid() && |History()| == |old(History())| + n0
      ensures dist <= |old(History())| ==> History() == Copied(old(History()), dist, n0)
    {
      ghost var h, made := History(), 0;
      var n := n0;
      var d := (w - dist) % 0x8000;
      PointsFirst(w, dist);
      while n > 0
        invariant 0 <= n <= n0 && made == n0 - n && Valid()
        invariant Extends(h, dist, made, History())
        invariant Points(w, d, dist)
        decreases n
      {
        ghost var g := History();
        var e := CopyStretch(d, n, dist);
        ExtendsMore(h, dist, made, g, e, History());
        d := (d + e) % 0x8000;
        n, made := n - e, made + e;
      }
    }
  }
}
