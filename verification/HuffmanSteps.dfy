/**
 The steps of `huft_build`'s main loop, each kept right: a longer code length, a new table, the entries of
 one code, and the way to the next code.
 */
module HuffmanSteps {
  import opened Arithmetic
  import opened BitStrings
  import opened HuffmanCode
  import opened HuffmanTables
  import opened HuffmanShape
  import opened Wrappers

  ghost predicate FalseFrom(p: seq<bool>, d: nat) {
    forall i :: d <= i < |p| ==> !p[i]
  }

  /** No table reads more bits than it is linked for, or than a stream has. */
  ghost predicate NodesSmall(l: nat, g: nat, nodes: seq<Node>) {
    forall t :: 1 <= t < |nodes| ==> nodes[t].size <= l && |nodes[t].prefix| + nodes[t].size <= g
  }

  function Top(u: seq<nat>): nat
    requires u != []
  {
    u[|u| - 1]
  }

  /** The state when the code c of length k is next: the tables so far tell no lies and, if the way is clear,
      decode every stream below that code; the stack holds the tables on the way to it; and if a further table
      is needed, the code is the first in it. */
  ghost predicate Building(lens: seq<nat>, l: nat, g: nat, ts: Tables, nodes: seq<Node>, u: seq<nat>, k: nat, c: nat, clear: bool) {
    && TablesOk(lens, l, ts, nodes) && NodesOk(lens, l, g, nodes)
    && k <= g && c < Pow2(k) && Chain(l, ts, nodes, u, Word(c, k)) && Depth(nodes, Top(u)) < k
    && FalseFrom(Word(c, k), Depth(nodes, Top(u)) + l)
    && (clear ==> NodesSmall(l, g, nodes) && DecodesBelow(l, ts, g, c * Pow2(g - k)))
  }

  /** c is one of the codes of length k. */
  ghost predicate IsCode(lens: seq<nat>, k: nat, c: nat) {
    FirstCode(lens, k) <= c < Used(lens, k) && c < Pow2(k)
  }

  // ---------- a longer code length ----------

  lemma {:induction false} ChainLonger(l: nat, ts: Tables, nodes: seq<Node>, u: seq<nat>, p: seq<bool>, p': seq<bool>)
    requires Chain(l, ts, nodes, u, p) && p <= p'
    ensures Chain(l, ts, nodes, u, p')
  {
    forall m | 0 < m < |u|
      ensures LinkedOn(l, ts, nodes, u[m - 1], u[m], p')
    {
      assert LinkedOn(l, ts, nodes, u[m - 1], u[m], p);
      var w := Depth(nodes, u[m - 1]);
      assert p'[w..w + l] == p[w..w + l];
    }
  }

  lemma {:induction false} WordDoubled(c: nat, k: nat)
    requires c < Pow2(k)
    ensures 2 * c < Pow2(k + 1) && Word(2 * c, k + 1) == Word(c, k) + [false]
    ensures Lsb(Word(2 * c, k + 1)) == Lsb(Word(c, k))
  {
    LsbConcat(Word(c, k), [false]);
  }

  lemma {:induction false} BoundDoubled(c: nat, k: nat, g: nat)
    requires k < g
    ensures (2 * c) * Pow2(g - (k + 1)) == c * Pow2(g - k)
  {
    var p := Pow2(g - (k + 1));
    assert Pow2(g - k) == 2 * p;
    MulDouble(c, p);
    MulDouble(p, c);
  }

  lemma {:induction false} NextLength(lens: seq<nat>, l: nat, g: nat, ts: Tables, nodes: seq<Node>, u: seq<nat>, k: nat, c: nat, clear: bool)
    requires Building(lens, l, g, ts, nodes, u, k, c, clear) && k < g
    ensures Building(lens, l, g, ts, nodes, u, k + 1, 2 * c, clear)
    ensures Lsb(Word(2 * c, k + 1)) == Lsb(Word(c, k))
  {
    WordDoubled(c, k);
    ChainLonger(l, ts, nodes, u, Word(c, k), Word(2 * c, k + 1));
    BoundDoubled(c, k, g);
  }

  // ---------- a code and the tables above it ----------

  lemma {:induction false} WordBelow(lens: seq<nat>, k: nat, c: nat, w: nat)
    requires w < k && IsCode(lens, k, c)
    ensures Below(lens, w, Msb(Word(c, k)[..w]), k, c)
  {
    var p := Word(c, k);
    WordIs(c, k);
    PrefixInterval(p[..w], p);
  }

  lemma {:induction false} NodeRoom(lens: seq<nat>, l: nat, g: nat, n: Node, k: nat, c: nat)
    requires NodeOk(lens, l, g, n) && |n.prefix| < k && n.prefix <= Word(c, k) && IsCode(lens, k, c)
    ensures n.size >= l || k <= |n.prefix| + n.size
  {
    var w := |n.prefix|;
    WordBelow(lens, k, c, w);
    assert n.prefix == Word(c, k)[..w];
    if n.size < l {
      ClosedBound(lens, w, Msb(n.prefix), n.size, k, c);
    }
  }

  /** A table of the chain has room for the code, if it is no longer than its l bits. */
  lemma {:induction false} RoomForCode(lens: seq<nat>, l: nat, g: nat, ts: Tables, nodes: seq<Node>, u: seq<nat>, k: nat, c: nat, m: nat, clear: bool)
    requires Building(lens, l, g, ts, nodes, u, k, c, clear) && m < |u| && Depth(nodes, u[m]) < k && IsCode(lens, k, c)
    ensures nodes[u[m]].size >= l || k <= Depth(nodes, u[m]) + nodes[u[m]].size
  {
    if u[m] > 0 {
      NodeRoom(lens, l, g, nodes[u[m]], k, c);
    }
  }

  /** Without a hazard, the tables that the way to the code is linked through are indexed by l bits. */
  lemma {:induction false} WayIsClear(lens: seq<nat>, l: nat, g: nat, ts: Tables, nodes: seq<Node>, u: seq<nat>, k: nat, c: nat)
    requires Building(lens, l, g, ts, nodes, u, k, c, true) && IsCode(lens, k, c)
    ensures forall j :: 0 <= j < |u| - 1 ==> LookupBits(l, nodes, u[j]) == l
  {
    forall j | 0 <= j < |u| - 1
      ensures LookupBits(l, nodes, u[j]) == l
    {
      ChainAscends(l, ts, nodes, u, Word(c, k), j, |u| - 1);
      RoomForCode(lens, l, g, ts, nodes, u, k, c, j, true);
    }
  }

  lemma {:induction false} TopFits(l: nat, g: nat, ts: Tables, nodes: seq<Node>, u: seq<nat>, p: seq<bool>)
    requires Chain(l, ts, nodes, u, p) && NodesSmall(l, g, nodes) && l <= g
    ensures Depth(nodes, Top(u)) + LookupBits(l, nodes, Top(u)) <= g
  {
  }

  // ---------- the entries of one code ----------

  /** Table n with a leaf wherever the bits read begin with x. */
  function Filled(tab: seq<Entry>, size: nat, x: seq<bool>, e: Entry): (r: seq<Entry>)
    requires |x| <= size
    ensures |r| == |tab|
    ensures forall i :: 0 <= i < |tab| ==> r[i] == if FromLsb(i, size)[..|x|] == x then e else tab[i]
  {
    seq(|tab|, i requires 0 <= i < |tab| => if FromLsb(i, size)[..|x|] == x then e else tab[i])
  }

  /** The indexes that begin with x are those with its remainder. */
  lemma {:induction false} IndexBeginsWith(i: nat, size: nat, x: seq<bool>)
    requires i < Pow2(size) && |x| <= size
    ensures FromLsb(i, size)[..|x|] == x <==> i % Pow2(|x|) == Lsb(x)
  {
    var r := FromLsb(i, size);
    FromLsbIs(i, size);
    ShiftMask(r, |x|);
    if Lsb(r[..|x|]) == Lsb(x) {
      LsbInjective(r[..|x|], x);
    }
  }

  lemma {:induction false} FilledOk(lens: seq<nat>, l: nat, ts: Tables, nodes: seq<Node>, t: nat, x: seq<bool>, sym: nat)
    requires TablesOk(lens, l, ts, nodes) && t < |ts| && 1 <= |x| <= l && |x| <= nodes[t].size
    requires sym < |lens| && CodeWord(lens, sym) == nodes[t].prefix + x
    ensures var ts' := ts[t := Filled(ts[t], nodes[t].size, x, Leaf(|x|, sym))];
            TablesOk(lens, l, ts', nodes) && ChangedAlong(l, nodes, ts, ts', nodes[t].prefix + x)
  {
    var y := nodes[t].prefix + x;
    var tab := Filled(ts[t], nodes[t].size, x, Leaf(|x|, sym));
    var ts' := ts[t := tab];
    forall j, i | 0 <= j < |ts'| && 0 <= i < |ts'[j]|
      ensures EntryOk(lens, l, nodes, j, i, ts'[j][i]) && (ts'[j][i] == ts[j][i] || Along(nodes[j], l, i, y))
    {
      assert EntryOk(lens, l, nodes, j, i, ts[j][i]);
    }
  }

  /** A stream meets a leaf in the table just filled. */
  lemma {:induction false} MeetsLeaf(lens: seq<nat>, l: nat, ts: Tables, nodes: seq<Node>, t: nat, x: seq<bool>, sym: nat,
                                     s: seq<bool>, w: nat)
    requires TablesOk(lens, l, ts, nodes) && t < |ts| && 1 <= |x| <= l && |x| <= nodes[t].size
    requires w + LookupBits(l, nodes, t) <= |s| && s[w..w + |x|] == x
    requires forall i :: 0 <= i < |ts[t]| && FromLsb(i, nodes[t].size)[..|x|] == x ==> ts[t][i] == Leaf(|x|, sym)
    ensures Walk(ts, t, LookupBits(l, nodes, t), s, w).Some?
  {
    Meets(lens, l, ts, nodes, t, s, w);
  }

  /** The chain does not see the entries of its last table. */
  lemma {:induction false} ChainFilled(l: nat, ts: Tables, nodes: seq<Node>, u: seq<nat>, p: seq<bool>, tab: seq<Entry>)
    requires Chain(l, ts, nodes, u, p)
    ensures Chain(l, ts[Top(u) := tab], nodes, u, p)
  {
    var ts' := ts[Top(u) := tab];
    forall m | 0 < m < |u|
      ensures LinkedOn(l, ts', nodes, u[m - 1], u[m], p)
    {
      assert LinkedOn(l, ts, nodes, u[m - 1], u[m], p);
      ChainAscends(l, ts, nodes, u, p, m - 1, |u| - 1);
    }
  }

  /** The code word p goes into the last table of the stack, where it leaves x. */
  ghost predicate GoesInto(l: nat, ts: Tables, nodes: seq<Node>, u: seq<nat>, p: seq<bool>, x: seq<bool>) {
    && Chain(l, ts, nodes, u, p) && nodes[Top(u)].prefix + x == p && 1 <= |x| <= l && |x| <= nodes[Top(u)].size
  }

  lemma {:induction false} RoomOnTop(lens: seq<nat>, l: nat, g: nat, ts: Tables, nodes: seq<Node>, u: seq<nat>, k: nat, c: nat, clear: bool)
    requires Building(lens, l, g, ts, nodes, u, k, c, clear) && k <= Depth(nodes, Top(u)) + l && IsCode(lens, k, c)
    ensures GoesInto(l, ts, nodes, u, Word(c, k), Word(c, k)[Depth(nodes, Top(u))..])
  {
    var p, w := Word(c, k), Depth(nodes, Top(u));
    RoomForCode(lens, l, g, ts, nodes, u, k, c, |u| - 1, clear);
    assert nodes[Top(u)].prefix == p[..w] && p[..w] + p[w..] == p;
  }

  /** The tables after the entries of a code have been written. */
  function Written(ts: Tables, nodes: seq<Node>, u: seq<nat>, x: seq<bool>, sym: nat): (ts': Tables)
    requires u != [] && Top(u) < |ts| == |nodes| && |x| <= nodes[Top(u)].size
    ensures |ts'| == |ts|
  {
    ts[Top(u) := Filled(ts[Top(u)], nodes[Top(u)].size, x, Leaf(|x|, sym))]
  }

  lemma {:induction false} WriteKeeps(lens: seq<nat>, l: nat, ts: Tables, nodes: seq<Node>, u: seq<nat>, p: seq<bool>,
                                      x: seq<bool>, sym: nat)
    requires TablesOk(lens, l, ts, nodes) && GoesInto(l, ts, nodes, u, p, x)
    requires sym < |lens| && CodeWord(lens, sym) == p
    ensures var ts' := Written(ts, nodes, u, x, sym);
            TablesOk(lens, l, ts', nodes) && ChangedAlong(l, nodes, ts, ts', p) && GoesInto(l, ts', nodes, u, p, x)
  {
    FilledOk(lens, l, ts, nodes, Top(u), x, sym);
    ChainFilled(l, ts, nodes, u, p, Filled(ts[Top(u)], nodes[Top(u)].size, x, Leaf(|x|, sym)));
  }

  /** Every entry of table t whose bits begin with x says that the code of sym ends there. */
  ghost predicate LeavesIn(ts: Tables, nodes: seq<Node>, t: nat, x: seq<bool>, sym: nat)
    requires t < |ts| && t < |nodes| && |x| <= nodes[t].size
  {
    forall i :: 0 <= i < |ts[t]| && FromLsb(i, nodes[t].size)[..|x|] == x ==> ts[t][i] == Leaf(|x|, sym)
  }

  /** Streams that begin with the code are decoded, if the tables on the way are indexed as they are linked. */
  lemma {:induction false} CodeDecodes(lens: seq<nat>, l: nat, ts: Tables, nodes: seq<Node>, u: seq<nat>, p: seq<bool>,
                                       x: seq<bool>, sym: nat, s: seq<bool>)
    requires TablesOk(lens, l, ts, nodes) && GoesInto(l, ts, nodes, u, p, x) && p <= s
    requires Depth(nodes, Top(u)) + LookupBits(l, nodes, Top(u)) <= |s|
    requires forall j :: 0 <= j < |u| - 1 ==> LookupBits(l, nodes, u[j]) == l
    requires LeavesIn(ts, nodes, Top(u), x, sym)
    ensures Walk(ts, 0, l, s, 0).Some?
  {
    var w := Depth(nodes, Top(u));
    assert s[w..w + |x|] == x;
    MeetsLeaf(lens, l, ts, nodes, Top(u), x, sym, s, w);
    WalkChain(l, ts, nodes, u, p, 0, s);
  }

  /** With the streams of the code itself, all streams up to its end are decoded. */
  lemma {:induction false} WrittenDecodes(lens: seq<nat>, l: nat, g: nat, ts: Tables, nodes: seq<Node>, u: seq<nat>, p: seq<bool>,
                                          x: seq<bool>, sym: nat)
    requires TablesOk(lens, l, ts, nodes) && GoesInto(l, ts, nodes, u, p, x) && |p| <= g
    requires Depth(nodes, Top(u)) + LookupBits(l, nodes, Top(u)) <= g
    requires forall j :: 0 <= j < |u| - 1 ==> LookupBits(l, nodes, u[j]) == l
    requires LeavesIn(ts, nodes, Top(u), x, sym)
    requires DecodesBelow(l, ts, g, Msb(p) * Pow2(g - |p|))
    ensures DecodesBelow(l, ts, g, (Msb(p) + 1) * Pow2(g - |p|))
  {
    forall s: seq<bool> | |s| == g && Msb(s) < (Msb(p) + 1) * Pow2(g - |p|)
      ensures Walk(ts, 0, l, s, 0).Some?
    {
      if Msb(s) >= Msb(p) * Pow2(g - |p|) {
        PrefixInterval(p, s);
        CodeDecodes(lens, l, ts, nodes, u, p, x, sym, s);
      }
    }
  }

  /** All streams up to the end of the code are decoded after it is written. */
  lemma {:induction false} WriteCodeDecodes(lens: seq<nat>, l: nat, g: nat, ts: Tables, nodes: seq<Node>, u: seq<nat>, k: nat, c: nat,
                                            x: seq<bool>, sym: nat, ts': Tables)
    requires c < Pow2(k) && k <= g && TablesOk(lens, l, ts, nodes) && DecodesBelow(l, ts, g, c * Pow2(g - k))
    requires TablesOk(lens, l, ts', nodes) && ChangedAlong(l, nodes, ts, ts', Word(c, k)) && GoesInto(l, ts', nodes, u, Word(c, k), x)
    requires Depth(nodes, Top(u)) + LookupBits(l, nodes, Top(u)) <= g
    requires forall j :: 0 <= j < |u| - 1 ==> LookupBits(l, nodes, u[j]) == l
    requires LeavesIn(ts', nodes, Top(u), x, sym)
    ensures DecodesBelow(l, ts', g, (c + 1) * Pow2(g - k))
  {
    var p := Word(c, k);
    WordIs(c, k);
    var bound: nat := Msb(p) * Pow2(g - |p|);
    StillDecodes(lens, l, ts, nodes, ts', p, g, bound);
    WrittenDecodes(lens, l, g, ts', nodes, u, p, x, sym);
  }

  // ---------- a new table ----------

  function Blank(size: nat): (r: seq<Entry>)
    ensures |r| == Pow2(size) && forall i :: 0 <= i < |r| ==> r[i] == Unset
  {
    seq(Pow2(size), _ => Unset)
  }

  /** The tables after a new one of the given size is linked from table t under the bits x. */
  function Grown(ts: Tables, t: nat, l: nat, x: seq<bool>, size: nat): (ts': Tables)
    requires t < |ts| && Lsb(x) < |ts[t]|
    ensures |ts'| == |ts| + 1
  {
    ts[t := ts[t][Lsb(x) := Link(l, size, |ts|)]] + [Blank(size)]
  }

  lemma {:induction false} EntryOkMore(lens: seq<nat>, l: nat, nodes: seq<Node>, n: Node, t: nat, i: nat, e: Entry)
    requires t < |nodes| && EntryOk(lens, l, nodes, t, i, e)
    ensures EntryOk(lens, l, nodes + [n], t, i, e)
  {
  }

  lemma {:induction false} ShortIndexParts(x: seq<bool>, size: nat)
    requires |x| <= size
    ensures Lsb(x) < Pow2(size)
    ensures FromLsb(Lsb(x), size)[..|x|] == x && FromLsb(Lsb(x), size)[|x|..] == Falses(size - |x|)
  {
    ShortIndex(x, size);
  }

  lemma {:induction false} LinkEntryOk(lens: seq<nat>, l: nat, nodes: seq<Node>, t: nat, x: seq<bool>, n: Node)
    requires t < |nodes| && |x| == l <= nodes[t].size && n.prefix == nodes[t].prefix + x
    ensures Lsb(x) < Pow2(nodes[t].size)
    ensures EntryOk(lens, l, nodes + [n], t, Lsb(x), Link(l, n.size, |nodes|))
    ensures Along(nodes[t], l, Lsb(x), nodes[t].prefix + x)
  {
    ShortIndexParts(x, nodes[t].size);
    var nodes' := nodes + [n];
    assert nodes'[t] == nodes[t] && nodes'[|nodes|] == n;
  }

  lemma {:induction false} GrownOk(lens: seq<nat>, l: nat, ts: Tables, nodes: seq<Node>, t: nat, x: seq<bool>, n: Node)
    requires TablesOk(lens, l, ts, nodes) && t < |ts| && |x| == l <= nodes[t].size && n.prefix == nodes[t].prefix + x
    ensures Lsb(x) < |ts[t]|
    ensures var ts' := Grown(ts, t, l, x, n.size);
            TablesOk(lens, l, ts', nodes + [n]) && ChangedAlong(l, nodes, ts, ts', nodes[t].prefix + x)
  {
    LinkEntryOk(lens, l, nodes, t, x, n);
    var ts', nodes', y := Grown(ts, t, l, x, n.size), nodes + [n], nodes[t].prefix + x;
    forall j, i | 0 <= j < |ts| && 0 <= i < |ts[j]|
      ensures EntryOk(lens, l, nodes', j, i, ts'[j][i]) && (ts'[j][i] == ts[j][i] || Along(nodes[j], l, i, y))
    {
      if !(j == t && i == Lsb(x)) {
        assert EntryOk(lens, l, nodes, j, i, ts[j][i]);
        EntryOkMore(lens, l, nodes, n, j, i, ts[j][i]);
      }
    }
    forall j | 0 <= j < |ts'|
      ensures |ts'[j]| == Pow2(nodes'[j].size)
    {
      assert j < |ts| ==> |ts[j]| == Pow2(nodes[j].size);
    }
    forall j, i | 0 <= j < |ts'| && 0 <= i < |ts'[j]|
      ensures EntryOk(lens, l, nodes', j, i, ts'[j][i])
    {
      if j == |ts| {
        assert ts'[j] == Blank(n.size);
      } else {
        assert |ts'[j]| == |ts[j]|;
      }
    }
  }

  lemma {:induction false} ChainPush(l: nat, ts: Tables, nodes: seq<Node>, u: seq<nat>, p: seq<bool>, x: seq<bool>, n: Node)
    requires Chain(l, ts, nodes, u, p) && |x| == l && n.prefix == nodes[Top(u)].prefix + x <= p
    requires Lsb(x) < |ts[Top(u)]|
    ensures Chain(l, Grown(ts, Top(u), l, x, n.size), nodes + [n], u + [|ts|], p)
  {
    var ts', nodes', u' := Grown(ts, Top(u), l, x, n.size), nodes + [n], u + [|ts|];
    forall m | 0 < m < |u'|
      ensures LinkedOn(l, ts', nodes', u'[m - 1], u'[m], p)
    {
      if m < |u| {
        assert LinkedOn(l, ts, nodes, u[m - 1], u[m], p);
        ChainAscends(l, ts, nodes, u, p, m - 1, |u| - 1);
        LinkKept(l, ts, nodes, Top(u), x, n, u[m - 1], u[m], p);
      } else {
        LinkMade(l, ts, nodes, Top(u), x, n, p);
      }
    }
  }

  lemma LinkKept(l: nat, ts: Tables, nodes: seq<Node>, t: nat, x: seq<bool>, n: Node, a: nat, b: nat, p: seq<bool>)
    requires |ts| == |nodes| && t < |ts| && Lsb(x) < |ts[t]| && a < |nodes| && b < |nodes| && a != t && LinkedOn(l, ts, nodes, a, b, p)
    ensures LinkedOn(l, Grown(ts, t, l, x, n.size), nodes + [n], a, b, p)
  {
  }

  lemma LinkMade(l: nat, ts: Tables, nodes: seq<Node>, t: nat, x: seq<bool>, n: Node, p: seq<bool>)
    requires |ts| == |nodes| && t < |ts| && |x| == l && Lsb(x) < |ts[t]| && n.prefix == nodes[t].prefix + x <= p
    ensures LinkedOn(l, Grown(ts, t, l, x, n.size), nodes + [n], t, |ts|, p)
  {
    PrefixPart(nodes[t].prefix, x, p);
    var ts', nodes' := Grown(ts, t, l, x, n.size), nodes + [n];
    assert Depth(nodes', t) == Depth(nodes, t) && Depth(nodes', |ts|) == Depth(nodes, t) + l;
  }

  lemma PrefixPart(a: seq<bool>, x: seq<bool>, p: seq<bool>)
    requires a + x <= p
    ensures |a| + |x| <= |p| && p[|a|..|a| + |x|] == x
  {
    assert p[..|a| + |x|] == a + x;
    assert p[|a|..|a| + |x|] == p[..|a| + |x|][|a|..];
  }

  /** A code word that ends in zeros is its beginning times a power of two. */
  lemma {:induction false} ZeroTail(c: nat, k: nat, d: nat)
    requires c < Pow2(k) && d <= k && FalseFrom(Word(c, k), d)
    ensures c == Msb(Word(c, k)[..d]) * Pow2(k - d)
  {
    var p := Word(c, k);
    WordIs(c, k);
    assert p == p[..d] + p[d..] && p[d..] == Falses(k - d);
    MsbConcat(p[..d], p[d..]);
    FalsesZero(k - d);
  }

  lemma {:induction false} NewNodeOk(lens: seq<nat>, l: nat, g: nat, w: nat, k: nat, c: nat, size: nat)
    requires w < k && FalseFrom(Word(c, k), w) && IsCode(lens, k, c) && exists h: nat :: h >= 1 && w == l * h
    requires SizeOk(lens, l, g, w, Msb(Word(c, k)[..w]), k, size)
    ensures NodeOk(lens, l, g, Node(Word(c, k)[..w], size, k))
  {
    ZeroTail(c, k, w);
  }

  /** Tables lie at multiples of l bits. */
  lemma {:induction false} NextDepth(lens: seq<nat>, l: nat, g: nat, ts: Tables, nodes: seq<Node>, t: nat)
    requires TablesOk(lens, l, ts, nodes) && NodesOk(lens, l, g, nodes) && t < |nodes|
    ensures exists h: nat :: h >= 1 && Depth(nodes, t) + l == l * h
  {
    if t == 0 {
      assert Depth(nodes, t) + l == l * 1;
    } else {
      assert NodeOk(lens, l, g, nodes[t]);
      var h: nat :| h >= 1 && |nodes[t].prefix| == l * h;
      assert Depth(nodes, t) + l == l * (h + 1);
    }
  }

  /** The bound of the streams decoded so far is where the new table begins. */
  lemma {:induction false} NewTableBound(c: nat, k: nat, d: nat, g: nat)
    requires c < Pow2(k) && d <= k <= g && FalseFrom(Word(c, k), d)
    ensures c * Pow2(g - k) == Msb(Word(c, k)[..d]) * Pow2(g - d)
  {
    ZeroTail(c, k, d);
    Pow2Add(k - d, g - k);
    MulAssoc(Msb(Word(c, k)[..d]), Pow2(k - d), Pow2(g - k));
  }

  /** The last table can be linked from. */
  lemma {:induction false} RoomForLink(lens: seq<nat>, l: nat, g: nat, ts: Tables, nodes: seq<Node>, u: seq<nat>, k: nat, c: nat, clear: bool)
    requires Building(lens, l, g, ts, nodes, u, k, c, clear) && Depth(nodes, Top(u)) + l < k && IsCode(lens, k, c)
    ensures nodes[Top(u)].size >= l
    ensures var p, w := Word(c, k), Depth(nodes, Top(u)); nodes[Top(u)].prefix + p[w..w + l] == p[..w + l]
  {
    RoomForCode(lens, l, g, ts, nodes, u, k, c, |u| - 1, clear);
    var p, w := Word(c, k), Depth(nodes, Top(u));
    assert p[..w] + p[w..w + l] == p[..w + l];
  }

  lemma {:induction false} NewTableKeeps(lens: seq<nat>, l: nat, ts: Tables, nodes: seq<Node>, u: seq<nat>, p: seq<bool>, x: seq<bool>, n: Node)
    requires TablesOk(lens, l, ts, nodes) && Chain(l, ts, nodes, u, p) && nodes[Top(u)].size >= l == |x|
    requires n.prefix == nodes[Top(u)].prefix + x <= p
    ensures Lsb(x) < |ts[Top(u)]|
    ensures var ts' := Grown(ts, Top(u), l, x, n.size);
            && TablesOk(lens, l, ts', nodes + [n]) && ChangedAlong(l, nodes, ts, ts', n.prefix)
            && Chain(l, ts', nodes + [n], u + [|ts|], p)
  {
    GrownOk(lens, l, ts, nodes, Top(u), x, n);
    ChainPush(l, ts, nodes, u, p, x, n);
  }

  /** The new table is the top of the stack, and what was decoded still is. */
  lemma {:induction false} NewTable(lens: seq<nat>, l: nat, g: nat, ts: Tables, nodes: seq<Node>, u: seq<nat>, k: nat, c: nat, clear: bool,
                                    x: seq<bool>, n: Node)
    requires Building(lens, l, g, ts, nodes, u, k, c, clear) && Depth(nodes, Top(u)) + l < k && IsCode(lens, k, c)
    requires NodeOk(lens, l, g, n) && (clear ==> n.size <= l && |n.prefix| + n.size <= g)
    requires |x| == l && n.prefix == nodes[Top(u)].prefix + x <= Word(c, k)
    ensures Lsb(x) < |ts[Top(u)]|
    ensures Building(lens, l, g, Grown(ts, Top(u), l, x, n.size), nodes + [n], u + [|ts|], k, c, clear)
  {
    RoomForLink(lens, l, g, ts, nodes, u, k, c, clear);
    NewTableKeeps(lens, l, ts, nodes, u, Word(c, k), x, n);
    if clear {
      NewTableDecodes(lens, l, g, ts, nodes, k, c, n.prefix, Grown(ts, Top(u), l, x, n.size));
    }
    Deeper(nodes, Top(u), n, u, |ts|);
  }

  lemma Deeper(nodes: seq<Node>, t: nat, n: Node, u: seq<nat>, top: nat)
    requires t < |nodes| == top
    ensures Top(u + [top]) == top && Depth(nodes + [n], top) == |n.prefix|
  {
  }

  lemma {:induction false} NewTableDecodes(lens: seq<nat>, l: nat, g: nat, ts: Tables, nodes: seq<Node>, k: nat, c: nat, y: seq<bool>, ts': Tables)
    requires TablesOk(lens, l, ts, nodes) && ChangedAlong(l, nodes, ts, ts', y)
    requires k <= g && c < Pow2(k) && y <= Word(c, k) && FalseFrom(Word(c, k), |y|) && DecodesBelow(l, ts, g, c * Pow2(g - k))
    ensures DecodesBelow(l, ts', g, c * Pow2(g - k))
  {
    assert y == Word(c, k)[..|y|];
    NewTableBound(c, k, |y|, g);
    StillDecodes(lens, l, ts, nodes, ts', y, g, c * Pow2(g - k));
  }

  lemma {:induction false} WordZero(k: nat)
    ensures Word(0, k) == Falses(k)
  {
    if k > 0 {
      WordZero(k - 1);
    }
  }

  /** The root table. */
  lemma {:induction false} RootTable(lens: seq<nat>, l: nat, g: nat, k: nat, size: nat, clear: bool)
    requires 1 <= l <= size && 1 <= k <= g
    ensures Building(lens, l, g, [Blank(size)], [Node([], size, k)], [0], k, 0, clear)
    ensures Lsb(Word(0, k)) == 0
  {
    WordZero(k);
    FalsesZero(k);
  }

  // ---------- the next code ----------

  /** p' comes next after p: the last zero of p becomes a one and the ones after it become zeros. */
  ghost predicate NextWord(p: seq<bool>, p': seq<bool>, d: nat) {
    d < |p| && !p[d] && (forall i :: d < i < |p| ==> p[i]) && p' == p[..d] + [true] + Falses(|p| - d - 1)
  }

  /** The stack cut down to the tables that are on the way to the next code. */
  lemma {:induction false} PopTables(l: nat, ts: Tables, nodes: seq<Node>, u: seq<nat>, p: seq<bool>, p': seq<bool>, d: nat, m: nat)
    requires Chain(l, ts, nodes, u, p) && NextWord(p, p', d) && 1 <= m <= |u| && |p| <= Depth(nodes, Top(u)) + l
    requires nodes[u[m - 1]].prefix <= p' && (m < |u| ==> !(nodes[u[m]].prefix <= p'))
    ensures Chain(l, ts, nodes, u[..m], p') && FalseFrom(p', Depth(nodes, Top(u[..m])) + l)
  {
    var q := nodes[u[m - 1]].prefix;
    ChainCut(l, ts, nodes, u, p, m);
    ChainLonger(l, ts, nodes, u[..m], q, p');
    if m < |u| {
      assert LinkedOn(l, ts, nodes, u[m - 1], u[m], p);
      LateChange(nodes[u[m]].prefix, p, p', d);
    }
  }

  /** A beginning of p that p' does not have reaches beyond the place where they part. */
  lemma LateChange(q: seq<bool>, p: seq<bool>, p': seq<bool>, d: nat)
    requires q <= p && NextWord(p, p', d) && !(q <= p')
    ensures d < |q| && FalseFrom(p', |q|)
  {
    assert forall i :: 0 <= i < |q| && i < d ==> q[i] == p'[i];
  }

  /** The first m tables of the chain lead to the m-th. */
  lemma {:induction false} ChainCut(l: nat, ts: Tables, nodes: seq<Node>, u: seq<nat>, p: seq<bool>, m: nat)
    requires Chain(l, ts, nodes, u, p) && 1 <= m <= |u|
    ensures Chain(l, ts, nodes, u[..m], nodes[u[m - 1]].prefix)
  {
    var q := nodes[u[m - 1]].prefix;
    forall j | 0 <= j < m
      ensures nodes[u[j]].prefix <= q
    {
      if j < m - 1 {
        ChainAscends(l, ts, nodes, u, p, j, m - 1);
      }
    }
    forall j | 0 < j < m
      ensures LinkedOn(l, ts, nodes, u[j - 1], u[j], q)
    {
      assert LinkedOn(l, ts, nodes, u[j - 1], u[j], p);
      var w := Depth(nodes, u[j - 1]);
      assert nodes[u[j]].prefix <= q;
      assert q[w..w + l] == p[w..w + l];
    }
  }
}
