/**
 `huft_build` of lib/inflate.c as a whole, and when its tables decode every stream.
 */
module Huft {
  import opened Arithmetic
  import opened BitStrings
  import opened HuffmanCode
  import opened HuffmanTables
  import opened HuffmanShape
  import opened HuffmanBuild
  import opened Wrappers

  // ---------- counting ----------

  lemma CountSnoc(lens: seq<nat>, i: nat, k: nat)
    requires i < |lens|
    ensures Count(lens[..i + 1], k) == Count(lens[..i], k) + if lens[i] == k then 1 else 0
  {
    assert lens[..i + 1][..i] == lens[..i];
  }

  method CountLengths(b: seq<nat>) returns (c: seq<nat>)
    requires forall i :: 0 <= i < |b| ==> b[i] <= BMAX
    ensures Counts(c, b)
  {
    c := seq(BMAX + 1, _ => 0);
    for i := 0 to |b|
      invariant Counts(c, b[..i])
    {
      forall k | 0 <= k <= BMAX
        ensures Count(b[..i + 1], k) == Count(b[..i], k) + if b[i] == k then 1 else 0
      {
        CountSnoc(b, i, k);
      }
      c := c[b[i] := c[b[i]] + 1];
    }
    assert b[..|b|] == b;
  }

  ghost predicate AllZero(b: seq<nat>) {
    forall i :: 0 <= i < |b| ==> b[i] == 0
  }

  lemma {:induction false} CountAll(b: seq<nat>, k: nat)
    ensures Count(b, k) <= |b|
    ensures Count(b, k) == |b| <==> forall i :: 0 <= i < |b| ==> b[i] == k
  {
    if b != [] {
      CountAll(b[..|b| - 1], k);
    }
  }

  lemma {:induction false} CountPositive(b: seq<nat>, k: nat) returns (i: nat)
    requires Count(b, k) > 0
    ensures i < |b| && b[i] == k
  {
    i := |b| - 1;
    if b[i] != k {
      i := CountPositive(b[..|b| - 1], k);
    }
  }

  /** The least and the greatest code length. */
  ghost predicate Extremes(b: seq<nat>, kmin: nat, g: nat) {
    && 1 <= kmin <= g && (forall i :: 0 <= i < |b| ==> b[i] == 0 || kmin <= b[i] <= g)
    && (exists i :: 0 <= i < |b| && b[i] == kmin) && (exists i :: 0 <= i < |b| && b[i] == g)
  }

  method FindExtremes(ghost b: seq<nat>, c: seq<nat>) returns (kmin: nat, g: nat)
    requires Counts(c, b) && !AllZero(b) && forall i :: 0 <= i < |b| ==> b[i] <= BMAX
    ensures Extremes(b, kmin, g) && g <= BMAX
    ensures c[kmin] > 0 && forall k :: 1 <= k < kmin ==> c[k] == 0
  {
    ghost var i0 :| 0 <= i0 < |b| && b[i0] != 0;
    CountHas(b, i0);
    kmin := 1;
    while kmin <= BMAX && c[kmin] == 0
      invariant 1 <= kmin <= b[i0] && forall k :: 1 <= k < kmin ==> c[k] == 0
    {
      kmin := kmin + 1;
    }
    g := BMAX;
    while g > 0 && c[g] == 0
      invariant b[i0] <= g <= BMAX && forall k :: g < k <= BMAX ==> c[k] == 0
    {
      g := g - 1;
    }
    ghost var i1 := CountPositive(b, kmin);
    ghost var i2 := CountPositive(b, g);
    forall i | 0 <= i < |b|
      ensures b[i] == 0 || kmin <= b[i] <= g
    {
      CountHas(b, i);
    }
  }

  // ---------- codes to spare ----------

  /** What is left of the strings of g bits; negative if too many are used. */
  method SpareCodes(ghost b: seq<nat>, c: seq<nat>, kmin: nat, g: nat) returns (y: int)
    requires Counts(c, b) && g <= BMAX && Extremes(b, kmin, g) && forall k :: 1 <= k < kmin ==> c[k] == 0
    ensures y < 0 <==> KraftSum(b, g) > Pow2(g)
    ensures y >= 0 ==> y == Pow2(g) - KraftSum(b, g)
  {
    UsedIsKraft(b, g);
    NoneShorter(b, kmin);
    y := Pow2(kmin);
    var j := kmin;
    while j < g
      invariant kmin <= j <= g && y == Pow2(j) - FirstCode(b, j)
    {
      y := y - c[j];
      if y < 0 {
        TooManyCodes(b, j, g);
        return;
      }
      y := 2 * y;
      j := j + 1;
    }
    y := y - c[g];
  }

  lemma {:induction false} TooManyCodes(b: seq<nat>, j: nat, g: nat)
    requires 1 <= j <= g && Used(b, j) > Pow2(j)
    ensures Used(b, g) > Pow2(g)
  {
    UsedScaled(b, j, g);
    Pow2Add(j, g - j);
    MulStrict(Pow2(j), Used(b, j), Pow2(g - j));
  }

  /** The set with its spare codes: y more symbols with codes of the greatest length. */
  function Padded(b: seq<nat>, g: nat, y: nat): seq<nat> {
    b + seq(y, _ => g)
  }

  lemma {:induction false} PaddedCount(b: seq<nat>, g: nat, y: nat, k: nat)
    ensures Count(Padded(b, g, y), k) == Count(b, k) + if k == g then y else 0
    decreases y
  {
    var p := Padded(b, g, y);
    if y == 0 {
      assert p == b;
    } else {
      assert p[..|p| - 1] == Padded(b, g, y - 1);
      PaddedCount(b, g, y - 1, k);
    }
  }

  lemma {:induction false} PaddedFirst(b: seq<nat>, g: nat, y: nat, k: nat)
    requires k <= g
    ensures FirstCode(Padded(b, g, y), k) == FirstCode(b, k) && Offset(Padded(b, g, y), k) == Offset(b, k)
    decreases k
  {
    if k > 1 {
      PaddedFirst(b, g, y, k - 1);
      PaddedCount(b, g, y, k - 1);
    }
  }

  lemma {:induction false} PaddedComplete(b: seq<nat>, kmin: nat, g: nat, y: nat)
    requires Extremes(b, kmin, g) && y == Pow2(g) - KraftSum(b, g)
    ensures Complete(Padded(b, g, y), g)
  {
    UsedIsKraft(b, g);
    PaddedFirst(b, g, y, g);
    PaddedCount(b, g, y, g);
    var i :| 0 <= i < |b| && b[i] == g;
    assert Padded(b, g, y)[i] == g;
  }

  /** Spare codes leave the others as they are. */
  lemma {:induction false} PaddedCode(b: seq<nat>, g: nat, y: nat, sym: nat)
    requires sym < |b| && b[sym] <= g
    ensures Rank(Padded(b, g, y), sym) == Rank(b, sym)
    ensures CodeWord(Padded(b, g, y), sym) == CodeWord(b, sym)
  {
    assert Padded(b, g, y)[..sym] == b[..sym];
    PaddedFirst(b, g, y, b[sym]);
  }

  // ---------- the symbols in the order of their codes ----------

  lemma {:induction false} SymOfUnique(lens: seq<nat>, sym: nat)
    requires sym < |lens|
    ensures Rank(lens, sym) < Count(lens, lens[sym]) && SymOf(lens, lens[sym], Rank(lens, sym)) == sym
  {
    RankBelowCount(lens, sym);
    var n := |lens| - 1;
    if sym < n {
      assert lens[..n][..sym] == lens[..sym];
      SymOfUnique(lens[..n], sym);
    }
  }

  lemma {:induction false} OffsetMono(b: seq<nat>, j: nat, k: nat)
    requires 1 <= j < k
    ensures Offset(b, j) + Count(b, j) <= Offset(b, k)
    decreases k
  {
    if j < k - 1 {
      OffsetMono(b, j, k - 1);
    }
  }

  method Offsets(ghost b: seq<nat>, c: seq<nat>, g: nat) returns (x: seq<nat>)
    requires Counts(c, b) && 1 <= g <= BMAX
    ensures |x| == BMAX + 1 && forall k :: 1 <= k <= g ==> x[k] == Offset(b, k)
  {
    x := seq(BMAX + 1, _ => 0);
    var j := 0;
    for k := 1 to g
      invariant |x| == BMAX + 1 && j == Offset(b, k) && forall m :: 1 <= m <= k ==> x[m] == Offset(b, m)
    {
      j := j + c[k];
      x := x[k + 1 := j];
    }
  }

  /** The first i symbols are in their places. */
  ghost predicate SortedTo(v: seq<nat>, x: seq<nat>, b: seq<nat>, g: nat, i: nat) {
    && i <= |b| && |x| == BMAX + 1 && g <= BMAX
    && (forall k :: 1 <= k <= g ==> x[k] == Offset(b, k) + Count(b[..i], k))
    && (forall k, r :: 1 <= k <= g && 0 <= r < Count(b[..i], k) ==> HasPlace(v, b, b[..i], k, r))
  }

  lemma {:induction false} CountPrefix(b: seq<nat>, i: nat, k: nat)
    requires i <= |b|
    ensures Count(b[..i], k) <= Count(b, k)
    decreases |b|
  {
    if i == |b| {
      assert b[..i] == b;
    } else {
      CountPrefix(b[..|b| - 1], i, k);
      assert b[..|b| - 1][..i] == b[..i];
    }
  }

  /** No two symbols go to one place, and none beyond the last. */
  lemma {:induction false} PlacesDiffer(b: seq<nat>, i: nat, j: nat, k: nat, r: nat)
    requires i < |b| && 1 <= j && 1 <= k && b[i] == j && r < Count(b[..i], k)
    ensures Offset(b, k) + r != Offset(b, j) + Count(b[..i], j)
  {
    CountPrefix(b, i, k);
    CountSnoc(b, i, j);
    CountPrefix(b, i + 1, j);
    if j < k {
      OffsetMono(b, j, k);
    } else if k < j {
      OffsetMono(b, k, j);
    }
  }

  lemma {:induction false} OffsetBound(b: seq<nat>, k: nat)
    requires k >= 1
    ensures Offset(b, k) + Count(b, k) <= |b|
  {
    if b == [] {
      OffsetNothing(k);
    } else {
      var n := |b| - 1;
      OffsetBound(b[..n], k);
      OffsetSnoc(b, k);
    }
  }

  lemma {:induction false} OffsetNothing(k: nat)
    ensures Offset([], k) == 0
    decreases k
  {
    if k > 1 {
      OffsetNothing(k - 1);
    }
  }

  lemma {:induction false} OffsetSnoc(b: seq<nat>, k: nat)
    requires b != []
    ensures Offset(b, k) == Offset(b[..|b| - 1], k) + if 1 <= b[|b| - 1] < k then 1 else 0
    decreases k
  {
    if k > 1 {
      OffsetSnoc(b, k - 1);
    }
  }

  lemma {:induction false} PlaceOne(v: seq<nat>, x: seq<nat>, b: seq<nat>, g: nat, i: nat)
    requires SortedTo(v, x, b, g, i) && i < |b| == |v| && b[i] <= g
    ensures b[i] == 0 ==> SortedTo(v, x, b, g, i + 1)
    ensures b[i] != 0 ==> x[b[i]] < |v| && SortedTo(v[x[b[i]] := i], x[b[i] := x[b[i]] + 1], b, g, i + 1)
  {
    var j, front := b[i], b[..i + 1];
    assert front[..i] == b[..i];
    CountSnoc(b, i, j);
    var v', x' := v, x;
    if j != 0 {
      CountPrefix(b, i + 1, j);
      OffsetBound(b, j);
      v', x' := v[x[j] := i], x[j := x[j] + 1];
    }
    forall k | 1 <= k <= g
      ensures x'[k] == Offset(b, k) + Count(b[..i + 1], k)
    {
      CountSnoc(b, i, k);
    }
    forall k, r | 1 <= k <= g && 0 <= r < Count(front, k)
      ensures HasPlace(v', b, front, k, r)
    {
      CountSnoc(b, i, k);
      if r < Count(b[..i], k) {
        if j != 0 {
          PlacesDiffer(b, i, j, k, r);
        }
        assert HasPlace(v, b, b[..i], k, r);
      }
    }
  }

  /** The symbols in the order of the lengths of their codes. */
  method SortValues(b: seq<nat>, x0: seq<nat>, g: nat) returns (v: seq<nat>, x: seq<nat>)
    requires 1 <= g <= BMAX && (forall i :: 0 <= i < |b| ==> b[i] <= g)
    requires |x0| == BMAX + 1 && forall k :: 1 <= k <= g ==> x0[k] == Offset(b, k)
    ensures |v| == |b| && SortedTo(v, x, b, g, |b|)
  {
    v := seq(|b|, _ => 0);
    x := x0;
    for i := 0 to |b|
      invariant |v| == |b| && SortedTo(v, x, b, g, i)
    {
      PlaceOne(v, x, b, g, i);
      var j := b[i];
      if j != 0 {
        v := v[x[j] := i];
        x := x[j := x[j] + 1];
      }
    }
  }

  lemma {:induction false} PaddedSym(b: seq<nat>, g: nat, y: nat, k: nat, r: nat)
    requires r < Count(Padded(b, g, y), k)
    ensures r < Count(b, k) ==> SymOf(Padded(b, g, y), k, r) == SymOf(b, k, r)
    ensures r >= Count(b, k) ==> k == g && r < Count(b, g) + y && SymOf(Padded(b, g, y), k, r) == |b| + (r - Count(b, g))
  {
    var lens := Padded(b, g, y);
    PaddedCount(b, g, y, k);
    if r < Count(b, k) {
      SymOfIs(b, k, r);
      var sym := SymOf(b, k, r);
      assert lens[..sym] == b[..sym];
      SymOfUnique(lens, sym);
    } else {
      var e := r - Count(b, g);
      assert lens[..|b| + e] == Padded(b, g, e);
      PaddedCount(b, g, e, g);
      SymOfUnique(lens, |b| + e);
    }
  }

  /** The values, followed by numbers for the spare codes. */
  lemma {:induction false} PaddedSorted(v: seq<nat>, x: seq<nat>, b: seq<nat>, g: nat, y: nat)
    requires 1 <= g && SortedTo(v, x, b, g, |b|) && |v| == |b|
    ensures x[g] <= |v| && Sorted(v[..x[g]] + seq(y, r => |b| + r), Padded(b, g, y), g)
  {
    assert b[..|b|] == b;
    OffsetBound(b, g);
    var lens := Padded(b, g, y);
    var v' := v[..x[g]] + seq(y, r => |b| + r);
    forall k, r | 1 <= k <= g && 0 <= r < Count(lens, k)
      ensures HasPlace(v', lens, lens, k, r)
    {
      PaddedFirst(b, g, y, k);
      PaddedSym(b, g, y, k, r);
      if r < Count(b, k) {
        if k < g {
          OffsetMono(b, k, g);
        }
        assert HasPlace(v, b, b[..|b|], k, r);
      }
    }
  }

  // ---------- what decoding means ----------

  /** What the lookup is to find at the head of stream s: the symbol whose code s begins with and the length of
      that code; or, if there is none, a spare code. */
  ghost predicate Right(b: seq<nat>, g: nat, s: seq<bool>, sym: nat, end: nat) {
    if sym < |b| then 1 <= end == b[sym] && CodeWord(b, sym) <= s
    else end == g && forall a :: 0 <= a < |b| && b[a] >= 1 ==> !(CodeWord(b, a) <= s)
  }

  ghost predicate Decodes(b: seq<nat>, g: nat, ts: Tables, l: nat) {
    forall s: seq<bool> {:trigger Walk(ts, 0, l, s, 0)} :: |s| >= g ==>
      Walk(ts, 0, l, s, 0).Some? && Right(b, g, s, Walk(ts, 0, l, s, 0).value.0, Walk(ts, 0, l, s, 0).value.1)
  }

  /** No symbol is ever given that is not there. */
  ghost predicate Honest(b: seq<nat>, g: nat, ts: Tables, l: nat) {
    forall s: seq<bool> {:trigger Walk(ts, 0, l, s, 0)} :: Walk(ts, 0, l, s, 0).Some? ==>
      Right(b, g, s, Walk(ts, 0, l, s, 0).value.0, Walk(ts, 0, l, s, 0).value.1)
  }

  /** Beyond the codes of one length, no code begins with one of them. */
  lemma {:induction false} SameNumber(lens: seq<nat>, j: nat, k: nat, m: nat, n: nat)
    requires 1 <= j <= k && m < Used(lens, j) && FirstCode(lens, k) <= n
    requires m * Pow2(k - j) <= n < (m + 1) * Pow2(k - j)
    ensures j == k && m == n
  {
    if j < k {
      UsedGrows(lens, j, k);
      MulMono(m + 1, Used(lens, j), Pow2(k - j));
    } else {
      assert Pow2(0) == 1;
    }
  }

  lemma {:induction false} CodeNumber(lens: seq<nat>, g: nat, sym: nat) returns (n: nat)
    requires Complete(lens, g) && sym < |lens| && 1 <= lens[sym] <= g
    ensures n == FirstCode(lens, lens[sym]) + Rank(lens, sym) < Used(lens, lens[sym]) && Msb(CodeWord(lens, sym)) == n
    ensures Rank(lens, sym) < Count(lens, lens[sym]) && SymOf(lens, lens[sym], Rank(lens, sym)) == sym
  {
    SymOfUnique(lens, sym);
    CompleteFits(lens, g, lens[sym]);
    n := FirstCode(lens, lens[sym]) + Rank(lens, sym);
    WordIs(n, lens[sym]);
  }

  /** No code begins another. */
  lemma {:induction false} PrefixFree(lens: seq<nat>, g: nat, a: nat, b: nat)
    requires Complete(lens, g) && a < |lens| && b < |lens| && 1 <= lens[a] <= lens[b]
    requires CodeWord(lens, a) <= CodeWord(lens, b)
    ensures a == b
  {
    var m := CodeNumber(lens, g, a);
    var n := CodeNumber(lens, g, b);
    PrefixInterval(CodeWord(lens, a), CodeWord(lens, b));
    SameNumber(lens, lens[a], lens[b], m, n);
  }

  /** Two codes that begin one stream are the same. */
  lemma {:induction false} OneCode(lens: seq<nat>, g: nat, s: seq<bool>, a: nat, b: nat)
    requires Complete(lens, g) && a < |lens| && b < |lens| && 1 <= lens[a] && 1 <= lens[b]
    requires CodeWord(lens, a) <= s && CodeWord(lens, b) <= s
    ensures a == b
  {
    if lens[a] <= lens[b] {
      PrefixFree(lens, g, a, b);
    } else {
      PrefixFree(lens, g, b, a);
    }
  }

  /** What is right for the set with its spare codes is right for the set. */
  lemma {:induction false} PaddedRight(b: seq<nat>, g: nat, y: nat, s: seq<bool>, sym: nat)
    requires Complete(Padded(b, g, y), g) && sym < |b| + y && 1 <= Padded(b, g, y)[sym] && CodeWord(Padded(b, g, y), sym) <= s
    ensures Right(b, g, s, sym, Padded(b, g, y)[sym])
  {
    var lens := Padded(b, g, y);
    if sym < |b| {
      assert lens[sym] == b[sym] <= g;
      PaddedCode(b, g, y, sym);
    } else {
      forall a | 0 <= a < |b| && b[a] >= 1
        ensures !(CodeWord(b, a) <= s)
      {
        assert lens[a] == b[a] <= g;
        PaddedCode(b, g, y, a);
        if CodeWord(b, a) <= s {
          OneCode(lens, g, s, a, sym);
        }
      }
    }
  }

  lemma {:induction false} TablesHonest(b: seq<nat>, g: nat, y: nat, l: nat, ts: Tables, nodes: seq<Node>)
    requires Complete(Padded(b, g, y), g) && TablesOk(Padded(b, g, y), l, ts, nodes)
    ensures Honest(b, g, ts, l)
  {
    forall s: seq<bool> | Walk(ts, 0, l, s, 0).Some?
      ensures Right(b, g, s, Walk(ts, 0, l, s, 0).value.0, Walk(ts, 0, l, s, 0).value.1)
    {
      WalkSound(Padded(b, g, y), l, ts, nodes, 0, s, 0);
      PaddedRight(b, g, y, s, Walk(ts, 0, l, s, 0).value.0);
    }
  }

  /** Further bits do not matter to a lookup that succeeds. */
  lemma {:induction false} WalkExtends(ts: Tables, t: nat, nbits: nat, s: seq<bool>, s': seq<bool>, w: nat)
    requires Walk(ts, t, nbits, s, w).Some? && s <= s'
    ensures Walk(ts, t, nbits, s', w) == Walk(ts, t, nbits, s, w)
    decreases |ts| - t
  {
    assert s'[w..w + nbits] == s[w..w + nbits];
    match ts[t][Lsb(s[w..w + nbits])]
    case Link(b, size, t') => WalkExtends(ts, t', size, s, s', w + b);
    case _ =>
  }

  lemma {:induction false} AllDecode(b: seq<nat>, g: nat, l: nat, ts: Tables)
    requires Honest(b, g, ts, l) && DecodesBelow(l, ts, g, Pow2(g))
    ensures Decodes(b, g, ts, l)
  {
    forall s: seq<bool> | |s| >= g
      ensures Walk(ts, 0, l, s, 0).Some?
    {
      MsbBound(s[..g]);
      assert Walk(ts, 0, l, s[..g], 0).Some?;
      WalkExtends(ts, 0, l, s[..g], s, 0);
    }
  }

  /** The tables decode every stream exactly when no table needs more bits than it is linked for. */
  lemma {:induction false} DecodesIff(b: seq<nat>, g: nat, y: nat, l: nat, ts: Tables, nodes: seq<Node>, clear: bool)
    requires var lens := Padded(b, g, y); Complete(lens, g) && Done(lens, l, g, ts, nodes, clear) && clear == !Hazard(lens, l)
    ensures Honest(b, g, ts, l)
    ensures Decodes(b, g, ts, l) <==> !Hazard(Padded(b, g, y), l)
  {
    var lens := Padded(b, g, y);
    TablesHonest(b, g, y, l, ts, nodes);
    if clear {
      AllDecode(b, g, l, ts);
    } else {
      var s := HazardBreaks(lens, l, g, ts, nodes);
    }
  }

  lemma {:induction false} TablesShaped(lens: seq<nat>, l: nat, g: nat, ts: Tables, nodes: seq<Node>)
    requires TablesOk(lens, l, ts, nodes) && NodesOk(lens, l, g, nodes) && !Hazard(lens, l)
    ensures Shaped(ts, l)
  {
    Pow2Mono(l, nodes[0].size);
    forall t, i | 0 <= t < |ts| && 0 <= i < |ts[t]|
      ensures EntryFits(ts, l, t, ts[t][i])
    {
      assert EntryOk(lens, l, nodes, t, i, ts[t][i]);
      match ts[t][i]
      case Unset =>
      case Leaf(b, _) => Pow2Mono(b, nodes[t].size);
      case Link(b, size, t') =>
        Pow2Mono(b, nodes[t].size);
        NoHazardSize(lens, l, g, nodes[t']);
    }
  }

  // ---------- huft_build ----------

  /** The greatest code length, 0 if there is none. */
  function Longest(b: seq<nat>): (g: nat)
    ensures forall i :: 0 <= i < |b| ==> b[i] <= g
  {
    if b == [] then 0
    else
      var g := Longest(b[..|b| - 1]);
      var x := b[|b| - 1];
      if x > g then x else g
  }

  /** The least code length, 0 if there is none. */
  function Shortest(b: seq<nat>): (k: nat)
    ensures forall i :: 0 <= i < |b| && b[i] != 0 ==> 1 <= k <= b[i]
  {
    if b == [] then 0
    else
      var k := Shortest(b[..|b| - 1]);
      var x := b[|b| - 1];
      if x != 0 && (k == 0 || x < k) then x else k
  }

  lemma {:induction false} LongestIn(b: seq<nat>)
    ensures Longest(b) > 0 ==> exists i :: 0 <= i < |b| && b[i] == Longest(b)
    ensures Shortest(b) > 0 ==> exists i :: 0 <= i < |b| && b[i] == Shortest(b)
  {
    if b != [] {
      LongestIn(b[..|b| - 1]);
    }
  }

  lemma ExtremesAre(b: seq<nat>, kmin: nat, g: nat)
    requires Extremes(b, kmin, g)
    ensures kmin == Shortest(b) && g == Longest(b)
  {
    LongestIn(b);
  }

  /** The strings of Longest(b) bits that begin with no code; negative if the codes overlap. */
  function Spare(b: seq<nat>): int {
    Pow2(Longest(b)) - KraftSum(b, Longest(b))
  }

  /** The set with all its strings used up. */
  function FilledOut(b: seq<nat>): seq<nat>
    requires Spare(b) >= 0
  {
    Padded(b, Longest(b), Spare(b))
  }

  function Clamp(m: nat, lo: nat, hi: nat): nat {
    var l := if m < lo then lo else m;
    if l > hi then hi else l
  }

  datatype Outcome = NoCodes | OverSubscribed | Built(ts: Tables, bits: nat, incomplete: bool)

  method HuftBuild(b: seq<nat>, m: nat) returns (r: Outcome)
    requires |b| > 0 && forall i :: 0 <= i < |b| ==> b[i] <= BMAX
    ensures r.NoCodes? <==> AllZero(b)
    ensures r.OverSubscribed? <==> !AllZero(b) && Spare(b) < 0
    ensures r.Built? ==> r.bits == Clamp(m, Shortest(b), Longest(b)) && (r.incomplete <==> Spare(b) > 0 && Longest(b) != 1)
    ensures r.Built? ==> Spare(b) >= 0 && Honest(b, Longest(b), r.ts, r.bits)
    ensures r.Built? ==> (Decodes(b, Longest(b), r.ts, r.bits) <==> !Hazard(FilledOut(b), r.bits))
    ensures r.Built? && !Hazard(FilledOut(b), r.bits) ==> Shaped(r.ts, r.bits)
  {
    var c := CountLengths(b);
    CountAll(b, 0);
    if c[0] == |b| {
      return NoCodes;
    }
    var kmin, g := FindExtremes(b, c);
    ExtremesAre(b, kmin, g);
    var l := Clamp(m, kmin, g);
    var y := SpareCodes(b, c, kmin, g);
    if y < 0 {
      return OverSubscribed;
    }
    var ts := TablesOf(b, c, l, kmin, g, y);
    r := Built(ts, l, y != 0 && g != 1);
  }

  method TablesOf(b: seq<nat>, c: seq<nat>, l: nat, kmin: nat, g: nat, y: nat) returns (ts: Tables)
    requires Counts(c, b) && g <= BMAX && kmin <= l <= g && Extremes(b, kmin, g) && y == Pow2(g) - KraftSum(b, g)
    requires c[kmin] > 0 && forall k :: 1 <= k < kmin ==> c[k] == 0
    ensures Honest(b, g, ts, l)
    ensures Decodes(b, g, ts, l) <==> !Hazard(Padded(b, g, y), l)
    ensures !Hazard(Padded(b, g, y), l) ==> Shaped(ts, l)
  {
    PaddedComplete(b, kmin, g, y);
    ghost var lens := Padded(b, g, y);
    var c' := c[g := c[g] + y];
    forall k | 0 <= k <= BMAX
      ensures c'[k] == Count(lens, k)
    {
      PaddedCount(b, g, y, k);
    }
    var x := Offsets(lens, c', g);
    forall k | 1 <= k <= g
      ensures x[k] == Offset(b, k)
    {
      PaddedFirst(b, g, y, k);
    }
    var v;
    v, x := SortValues(b, x, g);
    PaddedSorted(v, x, b, g, y);
    ghost var clear := !Hazard(lens, l);
    ts := BuildTables(lens, c', v[..x[g]] + seq(y, r => |b| + r), l, kmin, g, clear);
    ghost var nodes :| Done(lens, l, g, ts, nodes, clear);
    DecodesIff(b, g, y, l, ts, nodes, clear);
    if clear {
      TablesShaped(lens, l, g, ts, nodes);
    }
  }

  // ---------- what becomes of spare codes ----------

  /** The entry that the source makes for code number `sym` of the filled-out set: a symbol; the mark of an invalid code;
      or whatever its list of symbols held behind the symbols. */
  datatype Kind = Symbol(n: nat) | Invalid | Leftover

  /** Spare code r is the code at place |b| - Count(b, 0) + r of the list, and the mark is made from place |b| on. */
  function KindOf(b: seq<nat>, sym: nat): Kind {
    if sym < |b| then Symbol(sym) else if SparePlace(b, sym) >= |b| then Invalid else Leftover
  }

  function SparePlace(b: seq<nat>, sym: nat): int {
    |b| - Count(b, 0) + (sym - |b|)
  }

  /** The places before the spare codes are those of the symbols that have codes. */
  lemma {:induction false} SymbolPlaces(b: seq<nat>, g: nat)
    requires forall i :: 0 <= i < |b| ==> b[i] <= g
    ensures Offset(b, g + 1) == |b| - Count(b, 0)
  {
    if b != [] {
      SymbolPlaces(b[..|b| - 1], g);
      OffsetSnoc(b, g + 1);
    } else {
      OffsetNothing(g + 1);
    }
  }

  /** All spare codes are marked as invalid if and only if there are none, or every symbol has a code. */
  lemma SpareInvalid(b: seq<nat>)
    requires Spare(b) >= 0
    ensures (forall sym :: |b| <= sym < |b| + Spare(b) ==> KindOf(b, sym) == Invalid) <==> Spare(b) == 0 || Count(b, 0) == 0
  {
    CountAll(b, 0);
    if Spare(b) > 0 && Count(b, 0) > 0 {
      assert KindOf(b, |b|) == Leftover;
    }
  }

  // ---------- sets whose tables are always right ----------

  /** How many symbols have codes of d to g bits. */
  function CountFrom(lens: seq<nat>, d: nat, g: nat): nat
    decreases g + 1 - d
  {
    if d > g then 0 else Count(lens, d) + CountFrom(lens, d + 1, g)
  }

  lemma {:induction false} CountFromSnoc(lens: seq<nat>, d: nat, g: nat)
    requires lens != []
    ensures CountFrom(lens, d, g) == CountFrom(lens[..|lens| - 1], d, g) + if d <= lens[|lens| - 1] <= g then 1 else 0
    decreases g + 1 - d
  {
    if d <= g {
      CountFromSnoc(lens, d + 1, g);
    }
  }

  lemma {:induction false} CountFromNothing(d: nat, g: nat)
    ensures CountFrom([], d, g) == 0
    decreases g + 1 - d
  {
    if d <= g {
      CountFromNothing(d + 1, g);
    }
  }

  lemma {:induction false} CountFromBound(lens: seq<nat>, d: nat, g: nat)
    ensures CountFrom(lens, d, g) <= |lens|
  {
    if lens == [] {
      CountFromNothing(d, g);
    } else {
      CountFromBound(lens[..|lens| - 1], d, g);
      CountFromSnoc(lens, d, g);
    }
  }

  /** A complete set has as many codes of d bits or more as there are strings of d bits that shorter codes leave;
      and more, if one is longer. */
  lemma {:induction false} LeftForLonger(lens: seq<nat>, g: nat, d: nat)
    requires Complete(lens, g) && 1 <= d <= g
    ensures Pow2(d) - FirstCode(lens, d) <= CountFrom(lens, d, g)
    ensures d < g ==> Pow2(d) - FirstCode(lens, d) < CountFrom(lens, d, g)
    decreases g - d
  {
    if d < g {
      CompleteFits(lens, g, d);
      LeftForLonger(lens, g, d + 1);
    } else {
      assert CountFrom(lens, g + 1, g) == 0;
    }
  }

  /** A hazard takes more than 2^l codes. */
  lemma {:induction false} HazardNeedsCodes(lens: seq<nat>, l: nat, g: nat, w: nat, q: nat)
    requires Complete(lens, g) && l >= 1 && HazardAt(lens, l, w, q)
    ensures |lens| > Pow2(l)
  {
    var d := w + l;
    var x := HazardPoint(lens, l, g, w, q);
    var k :| d <= k && FirstIn(lens, w, q, k) && (k > d || !Closed(lens, w, q, l));
    NodeBeyond(lens, l, w, q, k);
    Pow2Add(w, l);
    MulMono(q + 1, Pow2(w), Pow2(l));
    MulSucc(q, Pow2(l));
    LeftForLonger(lens, g, d);
    CountFromBound(lens, d, g);
  }

  /** If the first code below a node has at least l more bits, the node lies beyond all codes of fewer. */
  lemma {:induction false} NodeBeyond(lens: seq<nat>, l: nat, w: nat, q: nat, k: nat)
    requires l >= 1 && w + l <= k && FirstIn(lens, w, q, k)
    ensures FirstCode(lens, w + l) <= q * Pow2(l)
  {
    var d := w + l;
    if d < k {
      UsedGrows(lens, d, k);
      Pow2Add(l, k - d);
      MulAssoc(q, Pow2(l), Pow2(k - d));
      LessByFactor(Used(lens, d), q * Pow2(l), Pow2(k - d));
    }
  }

  /** At most two tables on the way to any code, or no more codes than a table has entries: then there is no hazard. */
  lemma {:induction false} NoHazard(lens: seq<nat>, l: nat, g: nat)
    requires Complete(lens, g) && l >= 1 && (g <= 2 * l || |lens| <= Pow2(l))
    ensures !Hazard(lens, l)
  {
    forall h: nat, q: nat | h >= 1
      ensures !HazardAt(lens, l, l * h, q)
    {
      MulStep(l, 0, h);
      if HazardAt(lens, l, l * h, q) {
        HazardNeedsCodes(lens, l, g, l * h, q);
        var x := HazardPoint(lens, l, g, l * h, q);
      }
    }
  }

  /** So it is for the sets of Deflate, whatever the clamping of the table bits: codes of at most 7 bits with 7-bit
      tables, of at most 15 bits with 9-bit tables, and at most 30 distances with 6-bit tables. */
  lemma {:induction false} DeflateSets(b: seq<nat>, m: nat)
    requires !AllZero(b) && Spare(b) >= 0 && m >= 1 && (Longest(b) <= 2 * m || |b| + Spare(b) <= Pow2(m))
    ensures !Hazard(FilledOut(b), Clamp(m, Shortest(b), Longest(b)))
  {
    var l := Clamp(m, Shortest(b), Longest(b));
    LongestIn(b);
    PaddedComplete(b, Shortest(b), Longest(b), Spare(b));
    if m <= l {
      Pow2Mono(m, l);
    }
    NoHazard(FilledOut(b), l, Longest(b));
  }

  lemma ExampleSum()
    ensures var b := [1, 2, 3, 3]; Longest(b) == 3 && Spare(b) == 0
  {
    var b: seq<nat> := [1, 2, 3, 3];
    assert b[..3] == [1, 2, 3] && [1, 2, 3][..2] == [1, 2] && [1, 2][..1] == [1];
    assert Pow2(0) == 1 && Pow2(1) == 2 && Pow2(2) == 4 && Pow2(3) == 8;
    assert KraftSum([1], 3) == 4 && KraftSum([1, 2], 3) == 6 && KraftSum([1, 2, 3], 3) == 7;
  }

  /** There are complete sets with a hazard: lengths 1, 2, 3, 3 and one-bit tables. */
  lemma HazardExample()
    ensures var b := [1, 2, 3, 3]; Spare(b) == 0 && FilledOut(b) == b && Hazard(b, 1)
  {
    var b: seq<nat> := [1, 2, 3, 3];
    ExampleSum();
    assert b[..3] == [1, 2, 3] && [1, 2, 3][..2] == [1, 2] && [1, 2][..1] == [1];
    assert Count(b, 1) == 1 && Count(b, 2) == 1;
    assert Pow2(1) == 2;
    assert FirstCode(b, 2) == 2 && Used(b, 2) == 3;
    assert FirstIn(b, 1, 1, 2) && !Closed(b, 1, 1, 1);
    assert HazardAt(b, 1, 1 * 1, 1);
  }

  // ---------- whole messages ----------

  /** The codes of the symbols, one after the other. */
  function Encode(b: seq<nat>, msg: seq<nat>): seq<bool>
    requires forall i :: 0 <= i < |msg| ==> msg[i] < |b|
  {
    if msg == [] then [] else CodeWord(b, msg[0]) + Encode(b, msg[1..])
  }

  /** n lookups, each dropping the bits of its code; and what is left of the stream. */
  function Decode(ts: Tables, l: nat, s: seq<bool>, n: nat): Option<(seq<nat>, seq<bool>)> {
    if n == 0 then Some(([], s))
    else
      match Walk(ts, 0, l, s, 0)
      case None => None
      case Some((sym, end)) =>
        if end > |s| then None
        else
          match Decode(ts, l, s[end..], n - 1)
          case None => None
          case Some((msg, rest)) => Some(([sym] + msg, rest))
  }

  lemma {:induction false} FirstSymbol(b: seq<nat>, ts: Tables, l: nat, sym: nat, s: seq<bool>)
    requires !AllZero(b) && Spare(b) >= 0 && Decodes(b, Longest(b), ts, l)
    requires sym < |b| && b[sym] >= 1 && |s| >= Longest(b) && CodeWord(b, sym) <= s
    ensures Walk(ts, 0, l, s, 0) == Some((sym, b[sym]))
  {
    var g, y := Longest(b), Spare(b);
    LongestIn(b);
    PaddedComplete(b, Shortest(b), g, y);
    var (found, end) := Walk(ts, 0, l, s, 0).value;
    assert Right(b, g, s, found, end);
    PaddedCode(b, g, y, sym);
    PaddedCode(b, g, y, found);
    OneCode(Padded(b, g, y), g, s, sym, found);
  }

  lemma DecodeStep(ts: Tables, l: nat, sym: nat, c: seq<bool>, rest: seq<bool>, msg: seq<nat>, tail: seq<bool>)
    requires Walk(ts, 0, l, c + rest, 0) == Some((sym, |c|)) && Decode(ts, l, rest, |msg|) == Some((msg, tail))
    ensures Decode(ts, l, c + rest, |msg| + 1) == Some(([sym] + msg, tail))
  {
    assert (c + rest)[|c|..] == rest;
  }

  /** Tables that decode every stream undo the code. */
  lemma {:induction false} RoundTrip(b: seq<nat>, ts: Tables, l: nat, msg: seq<nat>, tail: seq<bool>)
    requires !AllZero(b) && Spare(b) >= 0 && Decodes(b, Longest(b), ts, l) && |tail| >= Longest(b)
    requires forall i :: 0 <= i < |msg| ==> msg[i] < |b| && b[msg[i]] >= 1
    ensures Decode(ts, l, Encode(b, msg) + tail, |msg|) == Some((msg, tail))
  {
    if msg == [] {
      assert Encode(b, msg) + tail == tail;
    } else {
      var c, rest := CodeWord(b, msg[0]), Encode(b, msg[1..]) + tail;
      assert Encode(b, msg) + tail == c + rest;
      FirstSymbol(b, ts, l, msg[0], c + rest);
      RoundTrip(b, ts, l, msg[1..], tail);
      DecodeStep(ts, l, msg[0], c, rest, msg[1..], tail);
      assert [msg[0]] + msg[1..] == msg;
    }
  }
}
