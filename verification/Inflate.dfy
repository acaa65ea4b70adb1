/**
 The decoding loop of lib/inflate.c, from the bits of the input through the lookup tables to the window.
 */
module Inflates {
  import opened Arithmetic
  import opened BitReaders
  import opened BitStrings
  import opened HuffmanBuild
  import opened HuffmanCode
  import opened HuffmanTables
  import opened Huft
  import opened InflateSpec
  import opened Windows
  import opened Wrappers

  // ---------- one lookup ----------

  /** Lookup tables of l bits for the code lengths b. */
  ghost predicate TablesFor(b: seq<nat>, ts: Tables, l: nat) {
    CodeSet(b) && 1 <= l <= Longest(b) <= BMAX && Shaped(ts, l) && Decodes(b, Longest(b), ts, l)
  }

  /** What a lookup gives: a symbol; an entry marked as invalid; an entry for a spare code that was left unmarked; or nothing,
      because the input ends. */
  datatype Found = Got(sym: nat) | Hole | Unmarked | NoBits

  /** No code begins the stream. */
  ghost predicate NoCode(b: seq<nat>, s: seq<bool>) {
    forall a :: HasCode(b, a) ==> !(CodeWord(b, a) <= s)
  }

  /** Why a lookup with tables of l bits finds no bits: there are fewer, or no code of at most l bits begins the stream and
      there are fewer than the longest code has. */
  ghost predicate RunsOut(b: seq<nat>, l: nat, s: seq<bool>) {
    |s| < Longest(b) && (|s| < l || forall a: nat :: HasCode(b, a) && CodeWord(b, a) <= s ==> b[a] > l)
  }

  /** What a lookup says of the stream s, and leaves of it. */
  ghost predicate Tells(b: seq<nat>, l: nat, s: seq<bool>, now: seq<bool>, e: Found) {
    match e
    case Got(sym) => HasCode(b, sym) && s == CodeWord(b, sym) + now
    case Hole => NoCode(b, s)
    case Unmarked => NoCode(b, s) && Spare(b) > 0 && Count(b, 0) > 0
    case NoBits => RunsOut(b, l, s)
  }

  /** A stream with enough bits behind it to complete a lookup. */
  ghost function Extended(s: seq<bool>, g: nat): (r: seq<bool>)
    ensures s <= r && |r| >= g && (|s| >= g ==> r == s)
  {
    if |s| >= g then s else s + Falses(g)
  }

  lemma {:induction false} Pow2Least(a: nat, b: nat)
    requires Pow2(a) <= Pow2(b)
    ensures a <= b
  {
    if a > b {
      Pow2Mono(b + 1, a);
    }
  }

  /** A complete set leaves no stream without a code. */
  lemma {:induction false} SomeCode(b: seq<nat>, g: nat, s: seq<bool>, k: nat)
    requires Complete(b, g) && 1 <= k <= g <= |s| && Msb(s[..k]) < Used(b, k)
    ensures !NoCode(b, s)
    decreases k
  {
    if k > 1 && Msb(s[..k - 1]) < Used(b, k - 1) {
      SomeCode(b, g, s, k - 1);
    } else {
      assert s[..k][..k - 1] == s[..k - 1];
      assert k == 1 ==> FirstCode(b, k) == 0;
      var r := Msb(s[..k]) - FirstCode(b, k);
      CodeOfSym(b, k, r);
      WordOf(s[..k]);
      var sym := SymOf(b, k, r);
      assert HasCode(b, sym) && CodeWord(b, sym) <= s;
    }
  }

  lemma NoCodeSpare(b: seq<nat>, s: seq<bool>)
    requires CodeSet(b) && |s| >= Longest(b) && NoCode(b, s)
    ensures Spare(b) > 0
  {
    if Spare(b) == 0 {
      var g := Longest(b);
      LongestIn(b);
      PaddedComplete(b, Shortest(b), g, 0);
      assert Padded(b, g, 0) == b;
      MsbBound(s[..g]);
      SomeCode(b, g, s, g);
    }
  }

  /** What the entry met at the end of the walk says about the stream. */
  lemma LeafMeans(b: seq<nat>, ts: Tables, l: nat, s: seq<bool>, sym: nat, end: nat)
    requires TablesFor(b, ts, l) && Walk(ts, 0, l, Extended(s, Longest(b)), 0) == Some((sym, end)) && end <= |s|
    ensures sym < |b| ==> HasCode(b, sym) && end == b[sym] && s == CodeWord(b, sym) + s[end..]
    ensures sym >= |b| ==> NoCode(b, s) && (KindOf(b, sym) != Invalid ==> Spare(b) > 0 && Count(b, 0) > 0)
  {
    var g := Longest(b);
    var r := Extended(s, g);
    assert Right(b, g, r, sym, end);
    if sym < |b| {
      assert r[..end] == s[..end];
      assert s == s[..end] + s[end..];
    } else {
      assert NoCode(b, s);
      NoCodeSpare(b, s);
    }
  }

  /** The code that a walk finds ends behind the table it comes to. */
  lemma {:induction false} WalkPast(ts: Tables, l: nat, t: nat, nb: nat, s: seq<bool>, w: nat)
    requires Shaped(ts, l) && Walk(ts, t, nb, s, w).Some?
    ensures Walk(ts, t, nb, s, w).value.1 > w
    decreases |ts| - t
  {
    var e := ts[t][Lsb(s[w..w + nb])];
    assert EntryFits(ts, l, t, e);
    if e.Link? {
      WalkPast(ts, l, e.table, e.size, s, w + e.bits);
    }
  }

  /** The code that begins the stream is the one that is found. */
  lemma FoundIs(b: seq<nat>, r: seq<bool>, sym: nat, end: nat, a: nat)
    requires CodeSet(b) && Right(b, Longest(b), r, sym, end) && HasCode(b, a) && CodeWord(b, a) <= r
    ensures b[a] == end
  {
    if sym < |b| {
      CodeUnique(b, a, sym, r[b[a]..], r[end..]);
    }
  }

  /** A walk behind the first table ends at a code of more than l bits. */
  lemma LongerCode(b: seq<nat>, l: nat, s: seq<bool>, r: seq<bool>, sym: nat, end: nat)
    requires CodeSet(b) && Right(b, Longest(b), r, sym, end) && s <= r && end > l && |s| < Longest(b)
    ensures RunsOut(b, l, s)
  {
    forall a: nat | HasCode(b, a) && CodeWord(b, a) <= s
      ensures b[a] > l
    {
      FoundIs(b, r, sym, end, a);
    }
  }

  /** A lookup that is left without bits, and might have found o. */
  lemma OutOfBits(b: seq<nat>, ts: Tables, l: nat, s: seq<bool>, o: Option<(nat, nat)>)
    requires TablesFor(b, ts, l) && o == Walk(ts, 0, l, Extended(s, Longest(b)), 0) && s != Extended(s, Longest(b))
    requires o.Some? && (|s| < l || o.value.1 > l)
    ensures RunsOut(b, l, s)
  {
    if |s| >= l {
      LongerCode(b, l, s, Extended(s, Longest(b)), o.value.0, o.value.1);
    }
  }

  /** A walk that gives o comes to table t, of nb bits, after w bits of the stream. */
  ghost predicate Reached(ts: Tables, l: nat, s: seq<bool>, t: nat, nb: nat, w: nat, o: Option<(nat, nat)>) {
    && (if t > 0 then w >= l else w == 0) && t < |ts| && nb <= l && w <= |s| && Pow2(nb) <= |ts[t]| && (t == 0 ==> nb == l) && (t > 0 ==> |ts[t]| == Pow2(nb))
    && Walk(ts, t, nb, s, w) == o
  }

  lemma BehindFirst(ts: Tables, l: nat, s: seq<bool>, t: nat, nb: nat, w: nat, o: Option<(nat, nat)>)
    requires Shaped(ts, l) && Reached(ts, l, s, t, nb, w, o)
    ensures o.Some? && t > 0 ==> o.value.1 > l
    ensures t == 0 ==> nb == l
  {
    if o.Some? {
      WalkPast(ts, l, t, nb, s, w);
    }
  }

  /** Where the entry leads. */
  ghost predicate Leads(ts: Tables, l: nat, s: seq<bool>, t: nat, nb: nat, w: nat, o: Option<(nat, nat)>, e: Entry) {
    match e
    case Unset => o == None
    case Leaf(k, sym) => k <= nb && o == Some((sym, w + k))
    case Link(k, size, t') => k <= nb && t < t' && Reached(ts, l, s, t', size, w + k, o)
  }

  /** The next entry of a walk. */
  lemma EntryMet(ts: Tables, l: nat, s: seq<bool>, t: nat, nb: nat, w: nat, o: Option<(nat, nat)>, v: nat)
    requires Shaped(ts, l) && Reached(ts, l, s, t, nb, w, o) && w + nb <= |s| && v == Lsb(s[w..w + nb])
    ensures v < |ts[t]| && Leads(ts, l, s, t, nb, w, o, ts[t][v])
  {
    LsbBound(s[w..w + nb]);
    assert EntryFits(ts, l, t, ts[t][v]);
    match ts[t][v]
    case Unset =>
    case Leaf(k, _) =>
      if t > 0 {
        Pow2Least(k, nb);
      }
    case Link(k, _, _) =>
      if t > 0 {
        Pow2Least(k, nb);
      }
  }

  /** The bits of s from w on are still to come. */
  ghost predicate AtBit(bits: BitReader, s: seq<bool>, w: nat)
    reads bits
  {
    bits.Valid() && w <= |s| && bits.Stream() == s[w..]
  }

  method DropBits(bits: BitReader, k: nat, ghost s: seq<bool>, ghost w: nat)
    requires AtBit(bits, s, w) && k <= bits.bk
    modifies bits
    ensures AtBit(bits, s, w + k)
  {
    bits.DumpBits(k);
    assert s[w..][k..] == s[w + k..];
  }

  /** The next entry of a walk through r, which is the stream s and what follows it. */
  method NextEntry(bits: BitReader, ts: Tables, ghost l: nat, t: nat, nb: nat, ghost s: seq<bool>, ghost r: seq<bool>, ghost w: nat,
                   ghost o: Option<(nat, nat)>)
    returns (e: Option<Entry>)
    requires AtBit(bits, s, w) && Shaped(ts, l) && l <= BMAX && s <= r && Reached(ts, l, r, t, nb, w, o)
    modifies bits
    ensures AtBit(bits, s, w)
    ensures e == None && s == r ==> o == None
    ensures e == None && o.Some? ==> |s| < l || o.value.1 > l
    ensures e.Some? ==> w + nb <= |s| && bits.bk >= nb && Leads(ts, l, r, t, nb, w, o, e.value)
  {
    var ok := bits.NeedBits(nb);
    if !ok {
      BehindFirst(ts, l, r, t, nb, w, o);
      return None;
    }
    var v := bits.Peek(nb);
    assert s[w..][..nb] == r[w..w + nb];
    EntryMet(ts, l, r, t, nb, w, o, v);
    return Some(ts[t][v]);
  }

  /** The end of a walk. */
  method TakeLeaf(bits: BitReader, b: seq<nat>, ghost ts: Tables, ghost l: nat, k: nat, sym: nat, ghost s: seq<bool>, ghost w: nat)
    returns (e: Found)
    requires bits.Valid() && TablesFor(b, ts, l) && AtBit(bits, s, w) && k <= bits.bk
    requires Walk(ts, 0, l, Extended(s, Longest(b)), 0) == Some((sym, w + k))
    modifies bits
    ensures bits.Valid() && Tells(b, l, s, bits.Stream(), e)
  {
    LeafMeans(b, ts, l, s, sym, w + k);
    if sym >= |b| {
      return if KindOf(b, sym) == Invalid then Hole else Unmarked;
    }
    DropBits(bits, k, s, w);
    return Got(sym);
  }

  /** Where a walk is: at a table of nb bits; at a leaf; or out of bits. */
  datatype Place = Table(t: nat, nb: nat) | AtLeaf(k: nat, sym: nat) | Nowhere

  /** One step of a walk that gives o, from w to w'. */
  method Follow(bits: BitReader, ts: Tables, ghost l: nat, p: Place, ghost s: seq<bool>, ghost r: seq<bool>, ghost w: nat,
                ghost o: Option<(nat, nat)>)
    returns (q: Place, ghost w': nat)
    requires AtBit(bits, s, w) && Shaped(ts, l) && l <= BMAX && s <= r && o.Some?
    requires p.Table? && Reached(ts, l, r, p.t, p.nb, w, o)
    modifies bits
    ensures AtBit(bits, s, w') && (q.Nowhere? ==> s != r && (|s| < l || o.value.1 > l))
    ensures q.AtLeaf? ==> q.k <= bits.bk && o == Some((q.sym, w' + q.k))
    ensures q.Table? ==> p.t < q.t < |ts| && Reached(ts, l, r, q.t, q.nb, w', o)
  {
    var next := NextEntry(bits, ts, l, p.t, p.nb, s, r, w, o);
    if next == None {
      return Nowhere, w;
    }
    match next.value
    case Unset =>
      assert false;
    case Leaf(k, sym) =>
      return AtLeaf(k, sym), w;
    case Link(k, size, t') =>
      DropBits(bits, k, s, w);
      return Table(t', size), w + k;
  }

  /** The walk from table to table. */
  method FindLeaf(bits: BitReader, ts: Tables, l: nat, ghost s: seq<bool>, ghost r: seq<bool>, ghost o: Option<(nat, nat)>)
    returns (p: Place, ghost w: nat)
    requires AtBit(bits, s, 0) && Shaped(ts, l) && l <= BMAX && s <= r && Walk(ts, 0, l, r, 0) == o && o.Some?
    modifies bits
    ensures AtBit(bits, s, w) && !p.Table? && (p.Nowhere? ==> s != r && (|s| < l || o.value.1 > l))
    ensures p.AtLeaf? ==> p.k <= bits.bk && o == Some((p.sym, w + p.k))
  {
    p, w := Table(0, l), 0;
    while p.Table?
      invariant AtBit(bits, s, w) && (p.Nowhere? ==> s != r && (|s| < l || o.value.1 > l))
      invariant p.Table? ==> p.t < |ts| && Reached(ts, l, r, p.t, p.nb, w, o)
      invariant p.AtLeaf? ==> p.k <= bits.bk && o == Some((p.sym, w + p.k))
      decreases if p.Table? then |ts| - p.t else 0
    {
      p, w := Follow(bits, ts, l, p, s, r, w, o);
    }
  }

  /** The lookup of one code. */
  method Lookup(bits: BitReader, b: seq<nat>, ts: Tables, l: nat) returns (e: Found)
    requires bits.Valid() && TablesFor(b, ts, l)
    modifies bits
    ensures bits.Valid() && Tells(b, l, old(bits.Stream()), bits.Stream(), e)
  {
    ghost var s := bits.Stream();
    ghost var r := Extended(s, Longest(b));
    ghost var o := Walk(ts, 0, l, r, 0);
    var leaf, w := FindLeaf(bits, ts, l, s, r, o);
    match leaf
    case Nowhere =>
      OutOfBits(b, ts, l, s, o);
      return NoBits;
    case AtLeaf(k, sym) =>
      e := TakeLeaf(bits, b, ts, l, k, sym, s, w);
  }

  // ---------- one token ----------

  /** How a block ends: at its end; at an invalid code; at an entry left unmarked; or at the end of the input. */
  datatype Result = Done | Bad | Unknown | NoInput

  /** How many bits a lookup or extra bits may ask for. */
  const AHEAD: nat := 16

  /** Extra bits. */
  method ReadExtra(bits: BitReader, n: nat) returns (v: Option<nat>)
    requires bits.Valid() && n <= AHEAD
    modifies bits
    ensures bits.Valid()
    ensures v.Some? ==> v.value < Pow2(n) && old(bits.Stream()) == FromLsb(v.value, n) + bits.Stream()
    ensures v == None ==> |old(bits.Stream())| < n
  {
    ghost var s := bits.Stream();
    var ok := bits.NeedBits(n);
    if !ok {
      return None;
    }
    var x := bits.Peek(n);
    bits.DumpBits(n);
    LsbBound(s[..n]);
    FromLsbOf(s[..n]);
    assert s == s[..n] + s[n..];
    return Some(x);
  }

  /** A distance with its extra bits, or what stands in its place. */
  datatype Distance = At(dist: nat, dx: nat) | Not(r: Result)

  /** Why no distance could be read: the stream begins with none, or with one that leaves less than a lookup may need. */
  ghost predicate NoDistance(bd: seq<nat>, s: seq<bool>, r: Result) {
    && (r == Bad || r == Unknown ==> NoCode(bd, s))
    && (r == NoInput ==> forall dist, dx, rest :: DistOk(bd, dist, dx) && s == DistBits(bd, dist, dx) + rest ==> ShortBehind(bd, rest))
    && (r == Bad || r == Unknown || r == NoInput)
  }

  ghost predicate ShortBehind(bd: seq<nat>, rest: seq<bool>) {
    |rest| < AHEAD && |rest| + Shortest(bd) < Longest(bd)
  }

  lemma ShortDistance(bd: seq<nat>, s: seq<bool>)
    requires |s| < Longest(bd) <= AHEAD
    ensures NoDistance(bd, s, NoInput)
  {
  }

  /** A code without all of its extra bits begins no distance. */
  lemma ShortExtra(bd: seq<nat>, s: seq<bool>, dist: nat, t: seq<bool>)
    requires CodeSet(bd) && dist < DISTANCES && HasCode(bd, dist) && s == CodeWord(bd, dist) + t && |t| < DistExtra(dist)
    ensures NoDistance(bd, s, NoInput)
  {
    forall d: nat, dx: nat, rest
      ensures !(DistOk(bd, d, dx) && s == DistBits(bd, d, dx) + rest)
    {
      if DistOk(bd, d, dx) && s == DistBits(bd, d, dx) + rest {
        var x := FromLsb(dx, DistExtra(d));
        Assoc(CodeWord(bd, d), x, rest);
        CodeUnique(bd, dist, d, t, x + rest);
        assert false;
      }
    }
  }

  /** The distance of a copy. */
  method ReadDistance(bits: BitReader, bd: seq<nat>, td: Tables, l: nat) returns (d: Distance)
    requires bits.Valid() && TablesFor(bd, td, l) && |bd| <= DISTANCES
    modifies bits
    ensures bits.Valid()
    ensures d.At? ==> DistOk(bd, d.dist, d.dx) && old(bits.Stream()) == DistBits(bd, d.dist, d.dx) + bits.Stream()
    ensures d.Not? ==> NoDistance(bd, old(bits.Stream()), d.r)
    ensures d.Not? && d.r == Unknown ==> Spare(bd) > 0 && Count(bd, 0) > 0
  {
    ghost var s := bits.Stream();
    var e := Lookup(bits, bd, td, l);
    match e
    case NoBits =>
      ShortDistance(bd, s);
      return Not(NoInput);
    case Hole =>
      return Not(Bad);
    case Unmarked =>
      return Not(Unknown);
    case Got(dist) =>
      ghost var t := bits.Stream();
      var dx := ReadExtra(bits, DistExtra(dist));
      if dx == None {
        ShortExtra(bd, s, dist, t);
        return Not(NoInput);
      }
      Assoc(CodeWord(bd, dist), FromLsb(dx.value, DistExtra(dist)), bits.Stream());
      return At(dist, dx.value);
  }

  /** A token, the end of the block, or neither. */
  datatype Item = Item(t: Token) | End | Stop(r: Result)

  /** The end-of-block code is as long as the first lookup or as any other code, and no distance needs more bits than the
      shortest and the end have: then a lookup in a block asks for no bits behind it. */
  ghost predicate Ample(bl: seq<nat>, ll: nat, bd: seq<nat>) {
    && HasCode(bl, END_OF_BLOCK) && (bl[END_OF_BLOCK] == ll || bl[END_OF_BLOCK] == Longest(bl))
    && Longest(bl) <= bl[END_OF_BLOCK] + ll + 1 && Longest(bd) <= bl[END_OF_BLOCK] + Shortest(bd)
  }

  /** Enough follows a block. */
  ghost predicate Enough(bl: seq<nat>, ll: nat, bd: seq<nat>, rest: seq<bool>) {
    |rest| >= AHEAD || Ample(bl, ll, bd)
  }

  /** Why the stream is no block, or one with too little behind it. */
  ghost predicate NoBlock(bl: seq<nat>, ll: nat, bd: seq<nat>, s: seq<bool>, r: Result) {
    && (r == Bad || r == Unknown ==> forall ts, rest :: !IsBlock(bl, bd, s, ts, rest))
    && (r == NoInput ==> forall ts, rest :: IsBlock(bl, bd, s, ts, rest) ==> !Enough(bl, ll, bd, rest))
    && (r == Bad || r == Unknown || r == NoInput)
  }

  lemma NoFirstCode(bl: seq<nat>, ll: nat, bd: seq<nat>, s: seq<bool>, r: Result)
    requires NoCode(bl, s) && (r == Bad || r == Unknown)
    ensures NoBlock(bl, ll, bd, s, r)
  {
    forall ts, rest
      ensures !IsBlock(bl, bd, s, ts, rest)
    {
      if IsBlock(bl, bd, s, ts, rest) {
        BlockBegins(bl, bd, s, ts, rest);
      }
    }
  }

  lemma ShortBlock(bl: seq<nat>, ll: nat, bd: seq<nat>, s: seq<bool>)
    requires CodeSet(bl) && ll <= Longest(bl) <= AHEAD && RunsOut(bl, ll, s)
    ensures NoBlock(bl, ll, bd, s, NoInput)
  {
    forall ts, rest | IsBlock(bl, bd, s, ts, rest)
      ensures !Enough(bl, ll, bd, rest)
    {
      BlockBegins(bl, bd, s, ts, rest);
      BlockLong(bl, bd, s, ts, rest);
      assert CodeWord(bl, FirstSym(ts)) <= s;
    }
  }

  /** A block has at least the bits of its first code, and of its end if that is another. */
  lemma BlockLong(bl: seq<nat>, bd: seq<nat>, s: seq<bool>, ts: seq<Token>, rest: seq<bool>)
    requires IsBlock(bl, bd, s, ts, rest)
    ensures HasCode(bl, FirstSym(ts)) && |s| >= bl[FirstSym(ts)] + |rest|
    ensures ts != [] ==> |s| >= bl[FirstSym(ts)] + bl[END_OF_BLOCK] + |rest|
  {
  }

  /** Symbols 286 and 287 do not occur. */
  lemma NoSuchLength(bl: seq<nat>, ll: nat, bd: seq<nat>, s: seq<bool>, sym: nat, t: seq<bool>)
    requires CodeSet(bl) && HasCode(bl, sym) && sym >= 257 + LENGTHS && s == CodeWord(bl, sym) + t
    ensures NoBlock(bl, ll, bd, s, Bad)
  {
    forall ts, rest
      ensures !IsBlock(bl, bd, s, ts, rest)
    {
      if IsBlock(bl, bd, s, ts, rest) {
        BlockBegins(bl, bd, s, ts, rest);
        FirstKnown(bl, bd, s, ts, rest, sym, t);
      }
    }
  }

  lemma HasExtra(bl: seq<nat>, bd: seq<nat>, t: Token)
    requires TokenOk(bl, bd, t) && t.Copy?
    ensures |Tail(bl, bd, t)| >= LengthExtra(t.len)
  {
  }

  /** A code without all of its extra bits begins no block. */
  lemma ShortLength(bl: seq<nat>, ll: nat, bd: seq<nat>, s: seq<bool>, len: nat, t: seq<bool>)
    requires CodeSet(bl) && len < LENGTHS && HasCode(bl, 257 + len) && s == CodeWord(bl, 257 + len) + t && |t| < LengthExtra(len)
    ensures NoBlock(bl, ll, bd, s, NoInput)
  {
    forall ts, rest
      ensures !IsBlock(bl, bd, s, ts, rest)
    {
      if IsBlock(bl, bd, s, ts, rest) {
        FirstKnown(bl, bd, s, ts, rest, 257 + len, t);
        HasExtra(bl, bd, ts[0]);
        assert false;
      }
    }
  }

  /** A length without a distance. */
  lemma NoCopy(bl: seq<nat>, ll: nat, bd: seq<nat>, s: seq<bool>, len: nat, lx: nat, t: seq<bool>, r: Result)
    requires CodeSet(bl) && len < LENGTHS && HasCode(bl, 257 + len) && lx < Pow2(LengthExtra(len))
    requires s == CodeWord(bl, 257 + len) + (FromLsb(lx, LengthExtra(len)) + t) && NoDistance(bd, t, r)
    ensures NoBlock(bl, ll, bd, s, r)
  {
    forall ts: seq<Token>, rest | IsBlock(bl, bd, s, ts, rest)
      ensures r == NoInput && !Enough(bl, ll, bd, rest)
    {
      LengthKnown(bl, bd, s, ts, rest, len, lx, t);
      CopyBehind(bd, t, ts[0].dist, ts[0].dx, Bits(bl, bd, ts[1..]), CodeWord(bl, END_OF_BLOCK), rest, r);
    }
  }

  lemma CopyBehind(bd: seq<nat>, t: seq<bool>, dist: nat, dx: nat, a: seq<bool>, b: seq<bool>, rest: seq<bool>, r: Result)
    requires DistOk(bd, dist, dx) && t == DistBits(bd, dist, dx) + (a + (b + rest)) && NoDistance(bd, t, r)
    ensures r == NoInput && ShortBehind(bd, a + (b + rest))
  {
    Assoc(CodeWord(bd, dist), FromLsb(dx, DistExtra(dist)), a + (b + rest));
    assert CodeWord(bd, dist) <= t;
  }

  /** The rest of a copy whose length code has been read. */
  method ReadCopy(bits: BitReader, len: nat, ghost bl: seq<nat>, ghost ll: nat, bd: seq<nat>, td: Tables, ld: nat, ghost s: seq<bool>) returns (i: Item)
    requires bits.Valid() && CodeSet(bl) && TablesFor(bd, td, ld) && |bd| <= DISTANCES
    requires len < LENGTHS && HasCode(bl, 257 + len) && s == CodeWord(bl, 257 + len) + bits.Stream()
    modifies bits
    ensures bits.Valid() && !i.End?
    ensures i.Item? ==> TokenOk(bl, bd, i.t) && s == TokenBits(bl, bd, i.t) + bits.Stream()
    ensures i.Stop? ==> NoBlock(bl, ll, bd, s, i.r) && (i.r == Unknown ==> Spare(bd) > 0 && Count(bd, 0) > 0)
  {
    ghost var t := bits.Stream();
    var lx := ReadExtra(bits, LengthExtra(len));
    if lx == None {
      ShortLength(bl, ll, bd, s, len, t);
      return Stop(NoInput);
    }
    ghost var u := bits.Stream();
    var d := ReadDistance(bits, bd, td, ld);
    match d
    case Not(r) =>
      NoCopy(bl, ll, bd, s, len, lx.value, u, r);
      return Stop(r);
    case At(dist, dx) =>
      CopyIs(bl, bd, s, len, lx.value, dist, dx, bits.Stream());
      return Item(Copy(len, lx.value, dist, dx));
  }

  lemma CopyIs(bl: seq<nat>, bd: seq<nat>, s: seq<bool>, len: nat, lx: nat, dist: nat, dx: nat, more: seq<bool>)
    requires len < LENGTHS && HasCode(bl, 257 + len) && lx < Pow2(LengthExtra(len)) && DistOk(bd, dist, dx)
    requires s == CodeWord(bl, 257 + len) + (FromLsb(lx, LengthExtra(len)) + (DistBits(bd, dist, dx) + more))
    ensures TokenOk(bl, bd, Copy(len, lx, dist, dx)) && s == TokenBits(bl, bd, Copy(len, lx, dist, dx)) + more
  {
    var t := Copy(len, lx, dist, dx);
    Assoc(FromLsb(lx, LengthExtra(len)), DistBits(bd, dist, dx), more);
    Assoc(CodeWord(bl, 257 + len), Tail(bl, bd, t), more);
  }

  /** One turn of the loop, up to the output. */
  method ReadItem(bits: BitReader, bl: seq<nat>, tl: Tables, ll: nat, bd: seq<nat>, td: Tables, ld: nat) returns (i: Item)
    requires bits.Valid() && TablesFor(bl, tl, ll) && TablesFor(bd, td, ld) && |bd| <= DISTANCES
    modifies bits
    ensures bits.Valid()
    ensures i.Item? ==> TokenOk(bl, bd, i.t) && old(bits.Stream()) == TokenBits(bl, bd, i.t) + bits.Stream()
    ensures i.End? ==> HasCode(bl, END_OF_BLOCK) && old(bits.Stream()) == CodeWord(bl, END_OF_BLOCK) + bits.Stream()
    ensures i.Stop? ==> NoBlock(bl, ll, bd, old(bits.Stream()), i.r)
    ensures i.Stop? && i.r == Unknown ==> (Spare(bl) > 0 && Count(bl, 0) > 0) || (Spare(bd) > 0 && Count(bd, 0) > 0)
  {
    ghost var s := bits.Stream();
    var e := Lookup(bits, bl, tl, ll);
    match e
    case NoBits =>
      ShortBlock(bl, ll, bd, s);
      return Stop(NoInput);
    case Hole =>
      NoFirstCode(bl, ll, bd, s, Bad);
      return Stop(Bad);
    case Unmarked =>
      NoFirstCode(bl, ll, bd, s, Unknown);
      return Stop(Unknown);
    case Got(sym) =>
      i := ReadSymbol(bits, sym, bl, ll, bd, td, ld, s);
  }

  /** What follows the code of a literal, the end or a length. */
  method ReadSymbol(bits: BitReader, sym: nat, ghost bl: seq<nat>, ghost ll: nat, bd: seq<nat>, td: Tables, ld: nat, ghost s: seq<bool>) returns (i: Item)
    requires bits.Valid() && CodeSet(bl) && TablesFor(bd, td, ld) && |bd| <= DISTANCES
    requires HasCode(bl, sym) && s == CodeWord(bl, sym) + bits.Stream()
    modifies bits
    ensures bits.Valid()
    ensures i.Item? ==> TokenOk(bl, bd, i.t) && s == TokenBits(bl, bd, i.t) + bits.Stream()
    ensures i.End? ==> HasCode(bl, END_OF_BLOCK) && s == CodeWord(bl, END_OF_BLOCK) + bits.Stream()
    ensures i.Stop? ==> NoBlock(bl, ll, bd, s, i.r) && (i.r == Unknown ==> Spare(bd) > 0 && Count(bd, 0) > 0)
  {
    if sym < 256 {
      assert CodeWord(bl, sym) + Tail(bl, bd, Lit(sym)) == CodeWord(bl, sym);
      return Item(Lit(sym));
    }
    if sym == END_OF_BLOCK {
      return End;
    }
    if sym >= 257 + LENGTHS {
      NoSuchLength(bl, ll, bd, s, sym, bits.Stream());
      return Stop(Bad);
    }
    i := ReadCopy(bits, sym - 257, bl, ll, bd, td, ld, s);
  }

  // ---------- a whole block ----------

  /** What stops the tokens behind some tokens stops the block. */
  lemma StopsHere(bl: seq<nat>, ll: nat, bd: seq<nat>, s: seq<bool>, done: seq<Token>, more: seq<bool>, r: Result)
    requires CodeSet(bl) && CodeSet(bd) && TokensOk(bl, bd, done) && s == Bits(bl, bd, done) + more && NoBlock(bl, ll, bd, more, r)
    ensures NoBlock(bl, ll, bd, s, r)
  {
    forall ts: seq<Token>, rest | IsBlock(bl, bd, s, ts, rest)
      ensures r == NoInput && !Enough(bl, ll, bd, rest)
    {
      TokensKnown(bl, bd, s, ts, rest, done, more);
    }
  }

  lemma OneMore(bl: seq<nat>, bd: seq<nat>, s: seq<bool>, done: seq<Token>, t: Token, more: seq<bool>)
    requires TokensOk(bl, bd, done) && TokenOk(bl, bd, t) && s == Bits(bl, bd, done) + (TokenBits(bl, bd, t) + more)
    ensures TokensOk(bl, bd, done + [t]) && s == Bits(bl, bd, done + [t]) + more
  {
    BitsSnoc(bl, bd, done, t);
    Assoc(Bits(bl, bd, done), TokenBits(bl, bd, t), more);
  }

  /** The window holds the output, unless a copy reached beyond its beginning. */
  ghost predicate Holds(ts: seq<Token>, h: seq<Byte>, now: seq<Byte>) {
    Output(ts, h).Some? ==> Output(ts, h) == Some(now)
  }

  lemma HoldsMore(ts: seq<Token>, h: seq<Byte>, g: seq<Byte>, t: Token, now: seq<Byte>)
    requires Holds(ts, h, g) && (After(t, g).Some? ==> After(t, g) == Some(now))
    ensures Holds(ts + [t], h, now)
  {
    OutputSplit(ts, [t], h);
    assert [t][1..] == [];
  }

  /** The output of a token. */
  method Write(window: Window, t: Token)
    requires window.Valid() && (t.Copy? ==> t.len < LENGTHS && t.dist < DISTANCES && t.dx < Pow2(DistExtra(t.dist)))
    modifies window, window.slide
    ensures window.Valid()
    ensures After(t, old(window.History())).Some? ==> After(t, old(window.History())) == Some(window.History())
  {
    match t
    case Lit(byte) =>
      window.Output(byte);
    case Copy(len, lx, dist, dx) =>
      DistFits(dist, dx);
      window.CopyMatch(LengthBase(len) + lx, DistBase(dist) + dx);
  }

  /** What is read of a stream that is a block with enough behind it: that block, and no more. */
  ghost predicate ReadsBlock(bl: seq<nat>, ll: nat, bd: seq<nat>, s: seq<bool>, r: Result, tokens: seq<Token>, now: seq<bool>) {
    forall ts, rest :: IsBlock(bl, bd, s, ts, rest) && Enough(bl, ll, bd, rest) ==> r == Done && tokens == ts && now == rest
  }

  lemma ReadsOneBlock(bl: seq<nat>, ll: nat, bd: seq<nat>, s: seq<bool>, r: Result, tokens: seq<Token>, now: seq<bool>)
    requires CodeSet(bl) && CodeSet(bd)
    requires if r == Done then IsBlock(bl, bd, s, tokens, now) else NoBlock(bl, ll, bd, s, r)
    ensures ReadsBlock(bl, ll, bd, s, r, tokens, now)
  {
    forall ts, rest | IsBlock(bl, bd, s, ts, rest) && Enough(bl, ll, bd, rest)
      ensures r == Done && tokens == ts && now == rest
    {
      if r == Done {
        BlockUnique(bl, bd, s, ts, rest, tokens, now);
      }
    }
  }

  /** `inflate_codes`: whatever stream holds a block and enough behind it is decoded up to its end, and no other is; and the
      output is that of the block, unless that copies from before the beginning. */
  method InflateCodes(bits: BitReader, window: Window, bl: seq<nat>, tl: Tables, ll: nat, bd: seq<nat>, td: Tables, ld: nat)
    returns (r: Result, ghost tokens: seq<Token>)
    requires bits.Valid() && window.Valid()
    requires TablesFor(bl, tl, ll) && TablesFor(bd, td, ld) && |bd| <= DISTANCES
    modifies bits, window, window.slide
    ensures bits.Valid() && window.Valid()
    ensures r == Done ==> IsBlock(bl, bd, old(bits.Stream()), tokens, bits.Stream())
    ensures r == Done ==> Holds(tokens, old(window.History()), window.History())
    ensures r != Done ==> NoBlock(bl, ll, bd, old(bits.Stream()), r)
    ensures ReadsBlock(bl, ll, bd, old(bits.Stream()), r, tokens, bits.Stream())
    ensures r == Unknown ==> (Spare(bl) > 0 && Count(bl, 0) > 0) || (Spare(bd) > 0 && Count(bd, 0) > 0)
  {
    ghost var s, h := bits.Stream(), window.History();
    tokens := [];
    assert Bits(bl, bd, tokens) + s == s;
    while true
      invariant bits.Valid() && window.Valid() && TokensOk(bl, bd, tokens) && s == Bits(bl, bd, tokens) + bits.Stream()
      invariant Holds(tokens, h, window.History())
      decreases |bits.Stream()|
    {
      ghost var more, g := bits.Stream(), window.History();
      var i := ReadItem(bits, bl, tl, ll, bd, td, ld);
      match i
      case End =>
        ReadsOneBlock(bl, ll, bd, s, Done, tokens, bits.Stream());
        return Done, tokens;
      case Stop(why) =>
        StopsHere(bl, ll, bd, s, tokens, more, why);
        ReadsOneBlock(bl, ll, bd, s, why, tokens, bits.Stream());
        return why, tokens;
      case Item(t) =>
        OneMore(bl, bd, s, tokens, t, bits.Stream());
        Write(window, t);
        HoldsMore(tokens, h, g, t, window.History());
        tokens := tokens + [t];
    }
  }

  // ---------- blocks with the fixed codes ----------

  /** n symbols with codes of x bits. */
  function Same(n: nat, x: nat): (b: seq<nat>)
    ensures |b| == n && forall i :: 0 <= i < n ==> b[i] == x
  {
    seq(n, _ => x)
  }

  lemma {:induction false} SameSum(b: seq<nat>, n: nat, x: nat, g: nat)
    requires 1 <= x <= g && forall i :: 0 <= i < |b| ==> b[i] <= g
    ensures KraftSum(b + Same(n, x), g) == KraftSum(b, g) + n * Pow2(g - x)
  {
    var c := b + Same(n, x);
    if n == 0 {
      assert c == b;
    } else {
      assert c[..|c| - 1] == b + Same(n - 1, x);
      SameSum(b, n - 1, x, g);
      MulSucc(n - 1, Pow2(g - x));
    }
  }

  /** The code lengths of section 3.2.6 of RFC 1951. */
  function FixedLiterals(): (b: seq<nat>)
    ensures |b| == 288
  {
    Same(144, 8) + Same(112, 9) + Same(24, 7) + Same(8, 8)
  }

  function FixedDistances(): (b: seq<nat>)
    ensures |b| == 30
  {
    Same(30, 5)
  }

  lemma LongestIs(b: seq<nat>, i: nat)
    requires i < |b| && forall j :: 0 <= j < |b| ==> b[j] <= b[i]
    ensures Longest(b) == b[i]
  {
    LongestIn(b);
  }

  lemma FixedComplete()
    ensures CodeSet(FixedLiterals()) && Longest(FixedLiterals()) == 9 && Spare(FixedLiterals()) == 0
  {
    var a, b, c := Same(144, 8), Same(112, 9), Same(24, 7);
    assert FixedLiterals()[144] == 9;
    LongestIs(FixedLiterals(), 144);
    assert Pow2(0) == 1 && Pow2(1) == 2 && Pow2(2) == 4;
    assert [] + a == a;
    SameSum([], 144, 8, 9);
    SameSum(a, 112, 9, 9);
    SameSum(a + b, 24, 7, 9);
    SameSum(a + b + c, 8, 8, 9);
    assert Pow2(9) == 512;
  }

  /** Two of the 32 codes for distances are spare, and both are marked as invalid. */
  lemma FixedSpare()
    ensures CodeSet(FixedDistances()) && Longest(FixedDistances()) == 5 && Spare(FixedDistances()) == 2 && Count(FixedDistances(), 0) == 0
  {
    var b := FixedDistances();
    LongestIs(b, 0);
    assert [] + b == b;
    SameSum([], 30, 5, 5);
    assert Pow2(0) == 1 && Pow2(5) == 32;
    CountZero(b, 0);
  }

  /** Tables for a set that may have no hazard. */
  method Tree(b: seq<nat>, m: nat) returns (ts: Tables, l: nat)
    requires CodeSet(b) && 1 <= m && Longest(b) <= 2 * m && Longest(b) <= BMAX
    ensures TablesFor(b, ts, l) && l == Clamp(m, Shortest(b), Longest(b))
  {
    DeflateSets(b, m);
    var r := HuftBuild(b, m);
    ts, l := r.ts, r.bits;
  }

  /** `inflate_fixed`, with a first lookup of seven bits, the length of the end-of-block code: nothing need follow. */
  method InflateFixed(bits: BitReader, window: Window) returns (r: Result, ghost tokens: seq<Token>)
    requires bits.Valid() && window.Valid()
    modifies bits, window, window.slide
    ensures bits.Valid() && window.Valid() && r != Unknown
    ensures r == Done ==> IsBlock(FixedLiterals(), FixedDistances(), old(bits.Stream()), tokens, bits.Stream())
    ensures r == Done ==> Holds(tokens, old(window.History()), window.History())
    ensures r != Done ==> NoBlock(FixedLiterals(), 7, FixedDistances(), old(bits.Stream()), r)
    ensures Ample(FixedLiterals(), 7, FixedDistances()) && ReadsBlock(FixedLiterals(), 7, FixedDistances(), old(bits.Stream()), r, tokens, bits.Stream())
  {
    var bl, bd := FixedLiterals(), FixedDistances();
    FixedComplete();
    FixedSpare();
    assert bl[END_OF_BLOCK] == 7;
    var tl, ll := Tree(bl, 7);
    var td, ld := Tree(bd, 5);
    r, tokens := InflateCodes(bits, window, bl, tl, ll, bd, td, ld);
  }
}
