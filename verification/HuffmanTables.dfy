/**
 The lookup tables that `huft_build` makes and `inflate_codes` walks: what it means for them to be
 right, and why writing them code by code keeps them so.
 */
module HuffmanTables {
  import opened BitStrings
  import opened HuffmanCode
  import opened Wrappers

  /** A table entry: never written; a code that ends here, `bits` after the start of the table; or a
      further table of 2^size entries, `bits` on. */
  datatype Entry = Unset | Leaf(bits: nat, sym: nat) | Link(bits: nat, size: nat, table: nat)

  type Tables = seq<seq<Entry>>

  /** The lookup of `inflate_codes`: from table t, which is indexed by the next nbits bits of s after w.
      The result is the symbol and where its code ends. */
  function Walk(ts: Tables, t: nat, nbits: nat, s: seq<bool>, w: nat): Option<(nat, nat)>
    decreases |ts| - t
  {
    if t < |ts| && w + nbits <= |s| && Lsb(s[w..w + nbits]) < |ts[t]| then
      match ts[t][Lsb(s[w..w + nbits])]
      case Unset => None
      case Leaf(b, sym) => Some((sym, w + b))
      case Link(b, size, t') => if t < t' then Walk(ts, t', size, s, w + b) else None
    else None
  }

  /** What a lookup relies on: every table is as long as it is linked for, and no entry uses more bits than were asked for. */
  ghost predicate Shaped(ts: Tables, l: nat) {
    && 1 <= l && |ts| > 0 && Pow2(l) <= |ts[0]|
    && forall t, i :: 0 <= t < |ts| && 0 <= i < |ts[t]| ==> EntryFits(ts, l, t, ts[t][i])
  }

  ghost predicate EntryFits(ts: Tables, l: nat, t: nat, e: Entry)
    requires t < |ts|
  {
    match e
    case Unset => true
    case Leaf(b, _) => 1 <= b <= l && (t > 0 ==> Pow2(b) <= |ts[t]|)
    case Link(b, size, t') => b == l && (t > 0 ==> Pow2(b) <= |ts[t]|) && size <= l && t < t' < |ts| && |ts[t']| == Pow2(size)
  }

  // ---------- tables that tell no lies ----------

  /** What a table stands for: the codes that begin with `prefix`, the first of which has `first` bits. */
  datatype Node = Node(prefix: seq<bool>, size: nat, first: nat)

  ghost predicate EntryOk(lens: seq<nat>, l: nat, nodes: seq<Node>, t: nat, idx: nat, e: Entry)
    requires t < |nodes|
  {
    var n := nodes[t];
    var r := FromLsb(idx, n.size);
    match e
    case Unset => true
    case Leaf(b, sym) => 1 <= b <= l && b <= n.size && sym < |lens| && CodeWord(lens, sym) == n.prefix + r[..b]
    case Link(b, size, t') =>
      && b == l <= n.size && t < t' < |nodes| && size == nodes[t'].size
      && nodes[t'].prefix == n.prefix + r[..l] && r[l..] == Falses(n.size - l)
  }

  ghost predicate TablesOk(lens: seq<nat>, l: nat, ts: Tables, nodes: seq<Node>) {
    && |ts| == |nodes| && |ts| > 0 && nodes[0].prefix == [] && nodes[0].size >= l >= 1
    && (forall t :: 0 <= t < |ts| ==> |ts[t]| == Pow2(nodes[t].size))
    && (forall t, i :: 0 <= t < |ts| && 0 <= i < |ts[t]| ==> EntryOk(lens, l, nodes, t, i, ts[t][i]))
  }

  /** The bits that table t is indexed by. */
  function LookupBits(l: nat, nodes: seq<Node>, t: nat): nat
    requires t < |nodes|
  {
    if t == 0 then l else nodes[t].size
  }

  /** Fewer bits index the entry whose further bits are zero. */
  lemma {:induction false} ShortIndex(x: seq<bool>, n: nat)
    requires |x| <= n
    ensures Lsb(x) < Pow2(n) && FromLsb(Lsb(x), n) == x + Falses(n - |x|)
  {
    var y := x + Falses(n - |x|);
    LsbConcat(x, Falses(n - |x|));
    FalsesZero(n - |x|);
    FromLsbOf(y);
  }

  /** The entry that stream s meets in table t, and the bits it agrees with. */
  lemma {:induction false} Meets(lens: seq<nat>, l: nat, ts: Tables, nodes: seq<Node>, t: nat, s: seq<bool>, w: nat)
    requires TablesOk(lens, l, ts, nodes) && t < |ts| && w + LookupBits(l, nodes, t) <= |s|
    ensures var nb := LookupBits(l, nodes, t); var i := Lsb(s[w..w + nb]); var r := FromLsb(i, nodes[t].size);
            && i < |ts[t]| && EntryOk(lens, l, nodes, t, i, ts[t][i])
            && r == s[w..w + nb] + Falses(nodes[t].size - nb)
            && forall m :: 0 <= m <= nb ==> r[..m] == s[w..w + m]
  {
    var nb := LookupBits(l, nodes, t);
    ShortIndex(s[w..w + nb], nodes[t].size);
    var r := FromLsb(Lsb(s[w..w + nb]), nodes[t].size);
    forall m | 0 <= m <= nb
      ensures r[..m] == s[w..w + m]
    {
      assert r[..m] == s[w..w + nb][..m];
    }
  }

  lemma {:induction false} LeafMet(lens: seq<nat>, l: nat, ts: Tables, nodes: seq<Node>, t: nat, s: seq<bool>, w: nat)
    requires TablesOk(lens, l, ts, nodes) && t < |ts| && w + LookupBits(l, nodes, t) <= |s| && nodes[t].prefix == s[..w]
    requires Lsb(s[w..w + LookupBits(l, nodes, t)]) < |ts[t]| && ts[t][Lsb(s[w..w + LookupBits(l, nodes, t)])].Leaf?
    ensures var e := ts[t][Lsb(s[w..w + LookupBits(l, nodes, t)])];
            1 <= e.bits && w + e.bits <= |s| && e.sym < |lens| && CodeWord(lens, e.sym) == s[..w + e.bits]
  {
    Meets(lens, l, ts, nodes, t, s, w);
    var b := ts[t][Lsb(s[w..w + LookupBits(l, nodes, t)])].bits;
    assert s[..w] + s[w..w + b] == s[..w + b];
  }

  lemma {:induction false} MeetsLink(lens: seq<nat>, l: nat, ts: Tables, nodes: seq<Node>, t: nat, s: seq<bool>, w: nat)
    requires TablesOk(lens, l, ts, nodes) && t < |ts| && w + LookupBits(l, nodes, t) <= |s| && nodes[t].prefix == s[..w]
    requires Lsb(s[w..w + LookupBits(l, nodes, t)]) < |ts[t]| && ts[t][Lsb(s[w..w + LookupBits(l, nodes, t)])].Link?
    ensures var e := ts[t][Lsb(s[w..w + LookupBits(l, nodes, t)])];
            && e.bits == l && t < e.table < |ts| && e.size == LookupBits(l, nodes, e.table)
            && w + l <= |s| && nodes[e.table].prefix == s[..w + l]
  {
    Meets(lens, l, ts, nodes, t, s, w);
    assert s[..w] + s[w..w + l] == s[..w + l];
  }

  /** Whatever a walk comes to is right: a symbol whose code the stream begins with. */
  lemma {:induction false} WalkSound(lens: seq<nat>, l: nat, ts: Tables, nodes: seq<Node>, t: nat, s: seq<bool>, w: nat)
    requires TablesOk(lens, l, ts, nodes) && t < |ts| && w <= |s| && nodes[t].prefix == s[..w]
    ensures match Walk(ts, t, LookupBits(l, nodes, t), s, w)
            case None => true
            case Some((sym, end)) => sym < |lens| && 1 <= end == lens[sym] && CodeWord(lens, sym) <= s
    decreases |ts| - t
  {
    var nb := LookupBits(l, nodes, t);
    if w + nb <= |s| && Lsb(s[w..w + nb]) < |ts[t]| {
      match ts[t][Lsb(s[w..w + nb])]
      case Unset =>
      case Leaf(b, sym) =>
        LeafMet(lens, l, ts, nodes, t, s, w);
      case Link(b, size, t') =>
        MeetsLink(lens, l, ts, nodes, t, s, w);
        WalkSound(lens, l, ts, nodes, t', s, w + l);
    }
  }

  // ---------- changes along one path ----------

  /** Entry i of a table lies on the path y: it is met only by streams that begin with y. */
  ghost predicate Along(n: Node, l: nat, i: nat, y: seq<bool>) {
    |n.prefix| <= |y| <= |n.prefix| + l && |y| <= |n.prefix| + n.size
    && n.prefix + FromLsb(i, n.size)[..|y| - |n.prefix|] == y
  }

  /** More tables, and old ones changed only along y. */
  ghost predicate ChangedAlong(l: nat, nodes: seq<Node>, ts: Tables, ts': Tables, y: seq<bool>) {
    && |ts| == |nodes| <= |ts'|
    && (forall t :: 0 <= t < |ts| ==> |ts'[t]| == |ts[t]|)
    && (forall t, i :: 0 <= t < |ts| && 0 <= i < |ts[t]| ==> ts'[t][i] == ts[t][i] || Along(nodes[t], l, i, y))
  }

  lemma {:induction false} MetAlong(lens: seq<nat>, l: nat, ts: Tables, nodes: seq<Node>, t: nat, s: seq<bool>, w: nat, y: seq<bool>)
    requires TablesOk(lens, l, ts, nodes) && t < |ts| && w + LookupBits(l, nodes, t) <= |s| && nodes[t].prefix == s[..w]
    requires Along(nodes[t], l, Lsb(s[w..w + LookupBits(l, nodes, t)]), y)
    ensures y <= s
  {
    Meets(lens, l, ts, nodes, t, s, w);
    var m := |y| - w;
    assert s[..w] + s[w..w + m] == s[..w + m];
  }

  /** A stream that does not begin with y does not notice. */
  lemma {:induction false} WalkAgrees(lens: seq<nat>, l: nat, ts: Tables, nodes: seq<Node>, ts': Tables, y: seq<bool>,
                                      t: nat, s: seq<bool>, w: nat)
    requires TablesOk(lens, l, ts, nodes) && ChangedAlong(l, nodes, ts, ts', y) && !(y <= s)
    requires t < |ts| && w <= |s| && nodes[t].prefix == s[..w]
    requires Walk(ts, t, LookupBits(l, nodes, t), s, w).Some?
    ensures Walk(ts', t, LookupBits(l, nodes, t), s, w) == Walk(ts, t, LookupBits(l, nodes, t), s, w)
    decreases |ts| - t
  {
    var e := SameEntry(lens, l, ts, nodes, ts', y, t, s, w);
    if e.Link? {
      MeetsLink(lens, l, ts, nodes, t, s, w);
      WalkAgrees(lens, l, ts, nodes, ts', y, e.table, s, w + l);
    }
  }

  lemma {:induction false} SameEntry(lens: seq<nat>, l: nat, ts: Tables, nodes: seq<Node>, ts': Tables, y: seq<bool>,
                                     t: nat, s: seq<bool>, w: nat) returns (e: Entry)
    requires TablesOk(lens, l, ts, nodes) && ChangedAlong(l, nodes, ts, ts', y) && !(y <= s)
    requires t < |ts| && w + LookupBits(l, nodes, t) <= |s| && nodes[t].prefix == s[..w]
    requires Lsb(s[w..w + LookupBits(l, nodes, t)]) < |ts[t]|
    ensures var i := Lsb(s[w..w + LookupBits(l, nodes, t)]);
            e == ts[t][i] && i < |ts'[t]| && ts'[t][i] == e
  {
    var i := Lsb(s[w..w + LookupBits(l, nodes, t)]);
    e := ts[t][i];
    if Along(nodes[t], l, i, y) {
      MetAlong(lens, l, ts, nodes, t, s, w, y);
    }
  }

  /** Every stream of g bits below a bound is decoded. */
  ghost predicate DecodesBelow(l: nat, ts: Tables, g: nat, bound: nat) {
    forall s: seq<bool> {:trigger Walk(ts, 0, l, s, 0)} :: |s| == g && Msb(s) < bound ==> Walk(ts, 0, l, s, 0).Some?
  }

  lemma {:induction false} StillDecodes(lens: seq<nat>, l: nat, ts: Tables, nodes: seq<Node>, ts': Tables, y: seq<bool>,
                                        g: nat, bound: nat)
    requires TablesOk(lens, l, ts, nodes) && ChangedAlong(l, nodes, ts, ts', y) && |y| <= g
    requires DecodesBelow(l, ts, g, bound) && bound <= Msb(y) * Pow2(g - |y|)
    ensures DecodesBelow(l, ts', g, bound)
  {
    forall s: seq<bool> | |s| == g && Msb(s) < bound
      ensures Walk(ts', 0, l, s, 0).Some?
    {
      PrefixInterval(y, s);
      WalkAgrees(lens, l, ts, nodes, ts', y, 0, s, 0);
    }
  }

  // ---------- the stack of tables on the way to a code ----------

  /** The bits that have been read when table t is reached. */
  function Depth(nodes: seq<Node>, t: nat): nat
    requires t < |nodes|
  {
    |nodes[t].prefix|
  }

  /** u[0], u[1], ... are tables on the way to p, from the root on, each linked from the one before and l bits deeper. */
  ghost predicate Chain(l: nat, ts: Tables, nodes: seq<Node>, u: seq<nat>, p: seq<bool>) {
    && |u| > 0 && u[0] == 0 && |ts| == |nodes| > 0 && Depth(nodes, 0) == 0
    && (forall m :: 0 <= m < |u| ==> u[m] < |nodes| && nodes[u[m]].prefix <= p)
    && (forall m :: 0 < m < |u| ==> LinkedOn(l, ts, nodes, u[m - 1], u[m], p))
  }

  ghost predicate LinkedOn(l: nat, ts: Tables, nodes: seq<Node>, a: nat, b: nat, p: seq<bool>)
    requires a < |nodes| && b < |nodes| && |ts| == |nodes|
  {
    var w := Depth(nodes, a);
    && a < b && Depth(nodes, b) == w + l <= |p| && Lsb(p[w..w + l]) < |ts[a]|
    && ts[a][Lsb(p[w..w + l])] == Link(l, nodes[b].size, b)
  }

  lemma {:induction false} WalkLink(l: nat, ts: Tables, nodes: seq<Node>, a: nat, b: nat, p: seq<bool>, s: seq<bool>)
    requires a < |nodes| && b < |nodes| && |ts| == |nodes| && LinkedOn(l, ts, nodes, a, b, p) && p <= s
    requires LookupBits(l, nodes, a) == l
    ensures Walk(ts, a, l, s, Depth(nodes, a)) == Walk(ts, b, LookupBits(l, nodes, b), s, Depth(nodes, b))
  {
    var w := Depth(nodes, a);
    assert s[w..w + l] == p[w..w + l];
  }

  /** If the tables that are linked from are indexed by l bits, a stream that is decoded in the last table is decoded. */
  lemma {:induction false} WalkChain(l: nat, ts: Tables, nodes: seq<Node>, u: seq<nat>, p: seq<bool>, m: nat, s: seq<bool>)
    requires Chain(l, ts, nodes, u, p) && m < |u| && p <= s
    requires forall j :: 0 <= j < |u| - 1 ==> LookupBits(l, nodes, u[j]) == l
    requires var t := u[|u| - 1]; Walk(ts, t, LookupBits(l, nodes, t), s, Depth(nodes, t)).Some?
    ensures Walk(ts, u[m], LookupBits(l, nodes, u[m]), s, Depth(nodes, u[m])).Some?
    decreases |u| - m
  {
    var n := m + 1;
    if n < |u| {
      WalkChain(l, ts, nodes, u, p, n, s);
      assert LinkedOn(l, ts, nodes, u[n - 1], u[n], p);
      WalkLink(l, ts, nodes, u[m], u[n], p, s);
    }
  }

  /** Down the chain, tables are later and deeper. */
  lemma {:induction false} ChainAscends(l: nat, ts: Tables, nodes: seq<Node>, u: seq<nat>, p: seq<bool>, a: nat, b: nat)
    requires Chain(l, ts, nodes, u, p) && a < b < |u|
    ensures u[a] < u[b] && Depth(nodes, u[a]) + l <= Depth(nodes, u[b])
    decreases b
  {
    assert LinkedOn(l, ts, nodes, u[b - 1], u[b], p);
    if a + 1 < b {
      ChainAscends(l, ts, nodes, u, p, a, b - 1);
    }
  }
}
