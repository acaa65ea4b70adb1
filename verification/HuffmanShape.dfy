/**
 How many bits a table of `huft_build` is given, what that leaves out, and exactly when the tables decode
 every stream.
 */
module HuffmanShape {
  import opened Arithmetic
  import opened BitStrings
  import opened HuffmanCode
  import opened HuffmanTables
  import opened Wrappers

  // ---------- below a node of the code tree ----------

  /** Below the node of the w-bit string q, the first code has k bits: it is q followed by zeros. */
  ghost predicate FirstIn(lens: seq<nat>, w: nat, q: nat, k: nat) {
    w < k && FirstCode(lens, k) <= q * Pow2(k - w) < Used(lens, k)
  }

  /** Below the node, no code has more than j bits after the node. */
  ghost predicate Closed(lens: seq<nat>, w: nat, q: nat, j: nat) {
    w + j >= 1 && Used(lens, w + j) >= (q + 1) * Pow2(j)
  }

  /** The code C of length k is below the node. */
  ghost predicate Below(lens: seq<nat>, w: nat, q: nat, k: nat, c: nat) {
    w < k && FirstCode(lens, k) <= c < Used(lens, k) && q * Pow2(k - w) <= c < (q + 1) * Pow2(k - w)
  }

  lemma {:induction false} UsedScaled(lens: seq<nat>, a: nat, b: nat)
    requires 1 <= a <= b
    ensures Used(lens, a) * Pow2(b - a) <= Used(lens, b)
  {
    if a < b {
      UsedGrows(lens, a, b);
    } else {
      assert Pow2(0) == 1;
    }
  }

  lemma {:induction false} ClosedBound(lens: seq<nat>, w: nat, q: nat, j: nat, k: nat, c: nat)
    requires Closed(lens, w, q, j) && Below(lens, w, q, k, c)
    ensures k <= w + j
  {
    if k > w + j {
      var m := k - (w + j);
      UsedGrows(lens, w + j, k);
      Pow2Add(j, m);
      MulMono((q + 1) * Pow2(j), Used(lens, w + j), Pow2(m));
      MulAssoc(q + 1, Pow2(j), Pow2(m));
    }
  }

  lemma MulAssoc(a: int, b: int, c: int)
    ensures (a * b) * c == a * (b * c)
  {
  }

  lemma {:induction false} FirstBefore(lens: seq<nat>, w: nat, q: nat, a: nat, b: nat)
    requires FirstIn(lens, w, q, a) && FirstIn(lens, w, q, b)
    ensures a >= b
  {
    if a < b {
      UsedGrows(lens, a, b);
      Pow2Add(a - w, b - a);
      MulAssoc(q, Pow2(a - w), Pow2(b - a));
      MulStrict(q * Pow2(a - w), Used(lens, a), Pow2(b - a));
    }
  }

  lemma MulStrict(a: nat, b: nat, u: nat)
    requires a < b && u > 0
    ensures a * u < b * u
  {
  }

  /** The node of a table of l further bits is not served by it: all its codes go beyond the table, or
      all reach its end and some go beyond.  The table gets more than l bits then, but is linked from by l. */
  ghost predicate HazardAt(lens: seq<nat>, l: nat, w: nat, q: nat) {
    exists k :: w + l <= k && FirstIn(lens, w, q, k) && (k > w + l || !Closed(lens, w, q, l))
  }

  /** Some table below the root is such a one. */
  ghost predicate Hazard(lens: seq<nat>, l: nat) {
    exists h: nat, q: nat :: h >= 1 && HazardAt(lens, l, l * h, q)
  }

  /** What huft_build's choice of table size gives a table other than the root. */
  ghost predicate NodeOk(lens: seq<nat>, l: nat, g: nat, n: Node) {
    var w, q := |n.prefix|, Msb(n.prefix);
    && FirstIn(lens, w, q, n.first) && (exists h: nat :: h >= 1 && w == l * h)
    && SizeOk(lens, l, g, w, q, n.first, n.size)
  }

  ghost predicate SizeOk(lens: seq<nat>, l: nat, g: nat, w: nat, q: nat, first: nat, size: nat) {
    && first <= w + size
    && (size < l ==> Closed(lens, w, q, size))
    && (size <= l ==> w + size <= g)
    && (size > l <==> w + l <= first && (first > w + l || !Closed(lens, w, q, l)))
  }

  ghost predicate NodesOk(lens: seq<nat>, l: nat, g: nat, nodes: seq<Node>) {
    forall t :: 1 <= t < |nodes| ==> NodeOk(lens, l, g, nodes[t])
  }

  lemma {:induction false} HazardSize(lens: seq<nat>, l: nat, g: nat, n: Node)
    requires NodeOk(lens, l, g, n)
    ensures n.size > l <==> HazardAt(lens, l, |n.prefix|, Msb(n.prefix))
  {
    var w, q := |n.prefix|, Msb(n.prefix);
    if HazardAt(lens, l, w, q) {
      var k :| w + l <= k && FirstIn(lens, w, q, k) && (k > w + l || !Closed(lens, w, q, l));
      FirstBefore(lens, w, q, k, n.first);
      FirstBefore(lens, w, q, n.first, k);
    }
  }

  lemma NoHazardSize(lens: seq<nat>, l: nat, g: nat, n: Node)
    requires NodeOk(lens, l, g, n) && !Hazard(lens, l)
    ensures n.size <= l && |n.prefix| + n.size <= g
  {
    HazardSize(lens, l, g, n);
    var h: nat :| h >= 1 && |n.prefix| == l * h;
    assert !HazardAt(lens, l, l * h, Msb(n.prefix));
  }

  // ---------- a hazard breaks some stream ----------

  /** A walk that ends more than l bits after its start takes a link first, which streams meet only with
      a zero where the table reads beyond l bits. */
  lemma {:induction false} FirstLink(lens: seq<nat>, l: nat, ts: Tables, nodes: seq<Node>, t: nat, s: seq<bool>, w: nat)
    returns (c: nat)
    requires TablesWhole(lens, l, ts, nodes) && t < |ts| && w <= |s| && nodes[t].prefix == s[..w]
    requires Walk(ts, t, LookupBits(l, nodes, t), s, w).Some?
    requires Walk(ts, t, LookupBits(l, nodes, t), s, w).value.1 > w + l
    ensures t < c < |ts| && w + l <= |s| && nodes[c].prefix == s[..w + l]
    ensures Walk(ts, c, LookupBits(l, nodes, c), s, w + l) == Walk(ts, t, LookupBits(l, nodes, t), s, w)
    ensures LookupBits(l, nodes, t) > l ==> w + l < |s| && !s[w + l]
  {
    var nb := LookupBits(l, nodes, t);
    Meets(lens, l, ts, nodes, t, s, w);
    var i := Lsb(s[w..w + nb]);
    MeetsLink(lens, l, ts, nodes, t, s, w);
    c := ts[t][i].table;
    if nb > l {
      ZeroBeyond(FromLsb(i, nodes[t].size), l, s[w..w + nb], Falses(nodes[t].size - nb));
    }
  }

  lemma ZeroBeyond(r: seq<bool>, l: nat, x: seq<bool>, f: seq<bool>)
    requires r == x + f && l < |x| && r[l..] == Falses(|r| - l)
    ensures !x[l]
  {
    assert r[l..][0] == r[l] == x[l];
  }

  /** As an equation, which the verifier passes on whole. */
  ghost predicate TablesWhole(lens: seq<nat>, l: nat, ts: Tables, nodes: seq<Node>) {
    (|ts| == |nodes| && TablesOk(lens, l, ts, nodes)) == true
  }

  /** Steps of l lead from w to z. */
  predicate OnWay(w: nat, l: nat, z: nat)
    requires l >= 1
    decreases z - w
  {
    w <= z && (w == z || OnWay(w + l, l, z))
  }

  lemma {:induction false} OnWayFrom(l: nat, m: nat, h: nat)
    requires l >= 1 && m <= h
    ensures OnWay(l * m, l, l * h)
    decreases h - m
  {
    MulStep(l, m, h);
    if m < h {
      OnWayFrom(l, m + 1, h);
      assert l * (m + 1) == l * m + l;
    }
  }

  /** A walk that ends more than l bits after depth z leaves the table at that depth by a link. */
  lemma {:induction false} WalkPasses(lens: seq<nat>, l: nat, ts: Tables, nodes: seq<Node>, t: nat, s: seq<bool>, w: nat, z: nat)
    returns (c: nat)
    requires l >= 1 && TablesWhole(lens, l, ts, nodes) && t < |ts| && OnWay(w, l, z) && w <= |s| && nodes[t].prefix == s[..w]
    requires Walk(ts, t, LookupBits(l, nodes, t), s, w).Some?
    requires Walk(ts, t, LookupBits(l, nodes, t), s, w).value.1 > z + l
    ensures c < |ts| && z <= |s| && nodes[c].prefix == s[..z]
    ensures LookupBits(l, nodes, c) > l ==> z + l < |s| && !s[z + l]
    decreases z - w
  {
    c := FirstLink(lens, l, ts, nodes, t, s, w);
    if w == z {
      c := t;
    } else {
      c := WalkPasses(lens, l, ts, nodes, c, s, w + l, z);
    }
  }

  // ---------- the stream a hazard breaks ----------

  /** A code that a stream begins with has more than d bits, if the stream lies beyond all codes of at most d bits. */
  lemma {:induction false} LongCode(lens: seq<nat>, g: nat, s: seq<bool>, d: nat, sym: nat)
    requires |s| == g && 1 <= d <= g && sym < |lens| && 1 <= lens[sym] <= g && CodeWord(lens, sym) <= s
    requires Used(lens, lens[sym]) <= Pow2(lens[sym])
    requires Msb(s) >= Used(lens, d) * Pow2(g - d)
    ensures lens[sym] > d
  {
    var m := lens[sym];
    var c := FirstCode(lens, m) + Rank(lens, sym);
    RankBelowCount(lens, sym);
    WordIs(c, m);
    PrefixInterval(CodeWord(lens, sym), s);
    MulMono(c + 1, Used(lens, m), Pow2(g - m));
    if m <= d {
      UsedInStreams(lens, m, d, g);
    }
  }

  /** The g-bit streams that begin with a code of at most m bits are among those of at most d bits. */
  lemma {:induction false} UsedInStreams(lens: seq<nat>, m: nat, d: nat, g: nat)
    requires 1 <= m <= d <= g
    ensures Used(lens, m) * Pow2(g - m) <= Used(lens, d) * Pow2(g - d)
  {
    UsedScaled(lens, m, d);
    Pow2Add(d - m, g - d);
    MulMono(Used(lens, m) * Pow2(d - m), Used(lens, d), Pow2(g - d));
    MulAssoc(Used(lens, m), Pow2(d - m), Pow2(g - d));
  }

  /** A length in use is at most the greatest one. */
  lemma {:induction false} LengthInUse(lens: seq<nat>, g: nat, k: nat)
    requires MaxLength(lens, g) && FirstCode(lens, k) < Used(lens, k)
    ensures k <= g
  {
    if k > g {
      CountZero(lens, k);
    }
  }

  lemma {:induction false} FirstInFits(lens: seq<nat>, g: nat, w: nat, q: nat, k: nat)
    requires Complete(lens, g) && FirstIn(lens, w, q, k)
    ensures k <= g && q < Pow2(w)
  {
    LengthInUse(lens, g, k);
    CompleteFits(lens, g, k);
    Pow2Add(w, k - w);
    if q >= Pow2(w) {
      MulMono(Pow2(w), q, Pow2(k - w));
    }
  }

  lemma LessByFactor(a: nat, b: nat, u: nat)
    requires a * u <= b * u && u > 0
    ensures a <= b
  {
    MulStep(u, b, a);
  }

  /** Below a hazardous node there is a string of l more bits that is not, and does not begin with, a code. */
  lemma {:induction false} HazardPoint(lens: seq<nat>, l: nat, g: nat, w: nat, q: nat) returns (x: nat)
    requires Complete(lens, g) && l >= 1 && HazardAt(lens, l, w, q)
    ensures w + l < g && q < Pow2(w) && x < Pow2(w + l)
    ensures q * Pow2(l) <= x < (q + 1) * Pow2(l) && Used(lens, w + l) <= x
  {
    var d := w + l;
    var k :| d <= k && FirstIn(lens, w, q, k) && (k > d || !Closed(lens, w, q, l));
    FirstInFits(lens, g, w, q, k);
    Pow2Add(w, l);
    MulSucc(q, Pow2(l));
    MulMono(q + 1, Pow2(w), Pow2(l));
    if k > d {
      x := q * Pow2(l);
      UsedGrows(lens, d, k);
      Pow2Add(l, k - d);
      MulAssoc(q, Pow2(l), Pow2(k - d));
      LessByFactor(Used(lens, d), x, Pow2(k - d));
    } else {
      x := Used(lens, d);
    }
  }

  /** The stream that goes on with a one after such a string. */
  lemma {:induction false} HazardStream(lens: seq<nat>, l: nat, g: nat, w: nat, q: nat) returns (s: seq<bool>)
    requires Complete(lens, g) && l >= 1 && HazardAt(lens, l, w, q)
    ensures |s| == g && w + l < g && s[w + l] && Msb(s[..w]) == q
    ensures Msb(s) >= Used(lens, w + l) * Pow2(g - (w + l))
  {
    var x := HazardPoint(lens, l, g, w, q);
    var d := w + l;
    var r := Word(x, d);
    s := r + [true] + Falses(g - d - 1);
    WordIs(x, d);
    PrefixInterval(r, s);
    MulMono(Used(lens, d), x, Pow2(g - d));
    WordIs(q, w);
    PrefixInterval(Word(q, w), r);
    assert s[..w] == r[..w] == Word(q, w);
  }

  lemma {:induction false} WalksFar(lens: seq<nat>, l: nat, g: nat, ts: Tables, nodes: seq<Node>, d: nat, s: seq<bool>)
    requires Complete(lens, g) && TablesOk(lens, l, ts, nodes) && |s| == g && 1 <= d < g
    requires Msb(s) >= Used(lens, d) * Pow2(g - d) && Walk(ts, 0, l, s, 0).Some?
    ensures Walk(ts, 0, l, s, 0).value.1 > d
  {
    var (sym, end) := Walk(ts, 0, l, s, 0).value;
    WalkSound(lens, l, ts, nodes, 0, s, 0);
    CompleteFits(lens, g, end);
    LongCode(lens, g, s, d, sym);
  }

  /** A stream through a hazardous node that is decoded has a zero after the node and l more bits. */
  lemma {:induction false} DecodedHasZero(lens: seq<nat>, l: nat, g: nat, ts: Tables, nodes: seq<Node>, z: nat, s: seq<bool>)
    requires l >= 1 && TablesOk(lens, l, ts, nodes) && NodesOk(lens, l, g, nodes)
    requires z >= 1 && OnWay(0, l, z) && z + l < |s| && HazardAt(lens, l, z, Msb(s[..z]))
    requires Walk(ts, 0, l, s, 0).Some? && Walk(ts, 0, l, s, 0).value.1 > z + l
    ensures !s[z + l]
  {
    var c := WalkPasses(lens, l, ts, nodes, 0, s, 0, z);
    HazardSize(lens, l, g, nodes[c]);
  }

  /** If some table other than the root cannot be given the bits it needs, some stream is not decoded. */
  lemma {:induction false} HazardBreaks(lens: seq<nat>, l: nat, g: nat, ts: Tables, nodes: seq<Node>) returns (s: seq<bool>)
    requires Complete(lens, g) && TablesOk(lens, l, ts, nodes) && NodesOk(lens, l, g, nodes) && Hazard(lens, l)
    ensures |s| == g && Walk(ts, 0, l, s, 0) == None
  {
    var z, q := HazardDepth(lens, l);
    s := HazardStream(lens, l, g, z, q);
    if Walk(ts, 0, l, s, 0).Some? {
      WalksFar(lens, l, g, ts, nodes, z + l, s);
      DecodedHasZero(lens, l, g, ts, nodes, z, s);
    }
  }

  lemma HazardDepth(lens: seq<nat>, l: nat) returns (z: nat, q: nat)
    requires l >= 1 && Hazard(lens, l)
    ensures z >= 1 && OnWay(0, l, z) && HazardAt(lens, l, z, q)
  {
    var h: nat;
    h, q :| h >= 1 && HazardAt(lens, l, l * h, q);
    OnWayFrom(l, 0, h);
    MulStep(l, 0, h);
    z := l * h;
  }
}
