/**
 `huft_build` of lib/inflate.c: from code lengths to lookup tables.
 */
module HuffmanBuild {
  import opened Arithmetic
  import opened BitStrings
  import opened HuffmanCode
  import opened HuffmanTables
  import opened HuffmanShape
  import opened HuffmanSteps

  const BMAX: nat := 16

  /** c[k] symbols have codes of length k. */
  ghost predicate Counts(c: seq<nat>, lens: seq<nat>) {
    |c| == BMAX + 1 && forall k :: 0 <= k <= BMAX ==> c[k] == Count(lens, k)
  }

  // ---------- how many bits a table gets ----------

  /** Strings of j bits below the node (w, q) that no code of at most w + j bits begins. */
  ghost function Unused(lens: seq<nat>, w: nat, q: nat, j: nat): int {
    (q + 1) * Pow2(j) - Used(lens, w + j)
  }

  lemma {:induction false} UnusedStep(lens: seq<nat>, w: nat, q: nat, j: nat)
    requires w + j >= 1
    ensures Unused(lens, w, q, j + 1) == 2 * Unused(lens, w, q, j) - Count(lens, w + j + 1)
  {
    MulDouble(Pow2(j), q + 1);
    assert Pow2(j + 1) == 2 * Pow2(j);
  }

  /** The choice of table size in `huft_build`: the a + 1 codes of length k that are left, then the longer ones,
      are taken from the patterns below the node until none is left, up to l bits. */
  method TableSize(ghost lens: seq<nat>, c: seq<nat>, l: nat, g: nat, k: nat, a: nat, w: nat, ghost q: nat) returns (j: nat)
    requires Counts(c, lens) && g <= BMAX && w < k <= g && 1 <= l <= g
    requires Complete(lens, g) && FirstIn(lens, w, q, k) && a + 1 == Used(lens, k) - q * Pow2(k - w)
    ensures SizeRule(lens, l, g, w, q, k, j)
  {
    var z := if g - w > l then l else g - w;
    j := k - w;
    var f: int := Pow2(j);
    MulSucc(q, Pow2(k - w));
    assert f - (a + 1) == Unused(lens, w, q, j);
    if f > a + 1 {
      j := LargerTable(lens, c, g, k, w, q, f - (a + 1), z);
      assert !Closed(lens, w, q, k - w);
    }
  }

  /** The loop that tries larger tables up to z bits; f patterns of k - w bits are left. */
  method LargerTable(ghost lens: seq<nat>, c: seq<nat>, ghost g: nat, k: nat, w: nat, ghost q: nat, f0: int, z: nat) returns (j: nat)
    requires Counts(c, lens) && w < k && w + z <= g <= BMAX && f0 == Unused(lens, w, q, k - w) > 0
    ensures if k - w >= z then j == k - w + 1 else k - w < j <= z && (j == z || Closed(lens, w, q, j))
  {
    var f := f0;
    j := k - w + 1;
    while j < z
      invariant k - w < j && f == Unused(lens, w, q, j - 1) > 0
      invariant if k - w >= z then j == k - w + 1 else j <= z
    {
      f := 2 * f;
      UnusedStep(lens, w, q, j - 1);
      if f <= c[w + j] {
        assert Closed(lens, w, q, j);
        return;
      }
      f := f - c[w + j];
      j := j + 1;
    }
  }

  /** What the choice comes to. */
  ghost predicate SizeRule(lens: seq<nat>, l: nat, g: nat, w: nat, q: nat, k: nat, j: nat) {
    w < k &&
    var z := if g - w > l then l else g - w;
    || (j == k - w && Closed(lens, w, q, j))
    || (!Closed(lens, w, q, k - w) && k - w >= z && j == k - w + 1)
    || (k - w < j <= z && (j == z || Closed(lens, w, q, j)))
  }

  /** At the greatest length every node is closed. */
  lemma {:induction false} ClosedAtEnd(lens: seq<nat>, g: nat, w: nat, q: nat, j: nat)
    requires Complete(lens, g) && q < Pow2(w) && w + j >= g
    ensures Closed(lens, w, q, j)
  {
    CompleteBeyond(lens, g, w + j);
    Pow2Add(w, j);
    MulMono(q + 1, Pow2(w), Pow2(j));
  }

  /** For a table other than the root, the rule gives what its node needs. */
  lemma {:induction false} RuleGivesSize(lens: seq<nat>, l: nat, g: nat, w: nat, q: nat, k: nat, j: nat)
    requires Complete(lens, g) && FirstIn(lens, w, q, k) && 1 <= l && SizeRule(lens, l, g, w, q, k, j)
    ensures SizeOk(lens, l, g, w, q, k, j)
  {
    FirstInFits(lens, g, w, q, k);
    if w + j >= g {
      ClosedAtEnd(lens, g, w, q, j);
    }
    if k >= g {
      ClosedAtEnd(lens, g, w, q, k - w);
    }
  }

  /** The root is given at least the l bits it is indexed by. */
  lemma {:induction false} RuleGivesRoot(lens: seq<nat>, l: nat, g: nat, k: nat, j: nat)
    requires Complete(lens, g) && 1 <= k <= l <= g && SizeRule(lens, l, g, 0, 0, k, j)
    ensures j >= l
  {
    assert 1 * Pow2(j) == Pow2(j);
    if 1 <= j < g {
      CompleteFits(lens, g, j);
      assert !Closed(lens, 0, 0, j);
    }
  }

  // ---------- the next code ----------

  lemma {:induction false} TruesMsb(n: nat)
    ensures Msb(seq(n, _ => true)) == Pow2(n) - 1
  {
    if n > 0 {
      var t := seq(n, _ => true);
      assert t[..n - 1] == seq(n - 1, _ => true);
      TruesMsb(n - 1);
    }
  }

  lemma {:induction false} NextWordIs(p: seq<bool>, p': seq<bool>, d: nat)
    requires NextWord(p, p', d)
    ensures |p'| == |p| && Msb(p') == Msb(p) + 1
  {
    var n := |p| - d - 1;
    var t := seq(n, _ => true);
    assert p == p[..d] + [false] + t;
    MsbConcat(p[..d] + [false], t);
    MsbConcat(p[..d] + [true], Falses(n));
    MsbConcat(p[..d], [false]);
    MsbConcat(p[..d], [true]);
    TruesMsb(n);
    FalsesZero(n);
    assert Msb([true]) == 1 && Msb([false]) == 0 by {
      assert [true][..0] == [] && [false][..0] == [];
    }
    MulSucc(2 * Msb(p[..d]), Pow2(n));
  }

  lemma {:induction false} LsbTop(p: seq<bool>, m: nat)
    requires m < |p|
    ensures Lsb(p[..m + 1]) == Lsb(p[..m]) + Pow2(m) * Bit(p[m])
    ensures Lsb(p[..m + 1]) / Pow2(m) % 2 == Bit(p[m])
  {
    assert p[..m + 1] == p[..m] + [p[m]];
    LsbConcat(p[..m], [p[m]]);
    assert [p[m]][1..] == [];
    assert Lsb([p[m]]) == Bit(p[m]);
    LsbBound(p[..m]);
    DivModUnique(Pow2(m), Bit(p[m]), Lsb(p[..m]));
  }

  lemma {:induction false} LsbRaised(p: seq<bool>, m: nat)
    requires m < |p|
    ensures Lsb(p[..m] + [true] + Falses(|p| - m - 1)) == Lsb(p[..m]) + Pow2(m)
  {
    LsbConcat(p[..m] + [true], Falses(|p| - m - 1));
    LsbConcat(p[..m], [true]);
    assert [true][1..] == [];
    assert Lsb([true]) == 1;
    FalsesZero(|p| - m - 1);
  }

  /** The next word is the next number, read from its other end. */
  lemma Mirrored(p: seq<bool>, p': seq<bool>, d: int)
    requires if d >= 0 then NextWord(p, p', d) else p' == Falses(|p|) && forall n :: 0 <= n < |p| ==> p[n]
    ensures Msb(FromLsb(Lsb(p'), |p|)) == if Msb(p) + 1 == Pow2(|p|) then 0 else Msb(p) + 1
  {
    FromLsbOf(p');
    if d >= 0 {
      NextWordIs(p, p', d);
      MsbBound(p');
    } else {
      assert p == seq(|p|, _ => true);
      TruesMsb(|p|);
      FalsesZero(|p|);
    }
  }

  /** The backwards increment of the k-bit code i, whose bits are p. */
  method NextCode(i0: nat, k: nat, ghost p: seq<bool>) returns (i: nat, ghost d: int, ghost p': seq<bool>)
    requires |p| == k >= 1 && i0 == Lsb(p)
    ensures |p'| == k && i == Lsb(p')
    ensures d >= 0 ==> NextWord(p, p', d)
    ensures d < 0 ==> forall n :: 0 <= n < k ==> p[n]
    ensures Msb(FromLsb(i, k)) == if Msb(p) + 1 == Pow2(k) then 0 else Msb(p) + 1
  {
    i := i0;
    var j := Pow2(k - 1);
    ghost var m := k - 1;
    assert p[..k] == p;
    while j != 0 && i / j % 2 == 1
      invariant -1 <= m < k && j == (if m >= 0 then Pow2(m) else 0)
      invariant i == Lsb(p[..m + 1]) && forall n :: m < n < k ==> p[n]
      decreases j
    {
      LsbTop(p, m);
      i := i - j;
      j := j / 2;
      m := m - 1;
    }
    d := m;
    p' := Falses(k);
    if m >= 0 {
      p' := p[..m] + [true] + Falses(k - m - 1);
      LsbTop(p, m);
      LsbRaised(p, m);
    } else {
      assert p[..0] == [];
      FalsesZero(k);
    }
    i := i + j;
    Mirrored(p, p', d);
  }

  // ---------- the main loop ----------

  /** The working variables: the tables, the stack u of tables with the stack x of codes they begin with,
      the table q that entries go to, the bits w before the last table of the stack, and the code i. */
  datatype Work = Work(ts: Tables, u: seq<nat>, x: seq<nat>, q: nat, w: nat, i: nat)

  ghost predicate WorkOk(lens: seq<nat>, l: nat, g: nat, st: Work, nodes: seq<Node>, k: nat, c: nat, clear: bool) {
    && Building(lens, l, g, st.ts, nodes, st.u, k, c, clear) && StackOk(st, nodes) && st.i == Lsb(Word(c, k))
    && AtTop(l, st, k)
  }

  /** Backing up over tables leaves q behind, but then the next code needs a new table. */
  ghost predicate AtTop(l: nat, st: Work, k: nat) {
    st.u != [] && (k <= st.w + l ==> st.q == Top(st.u))
  }

  ghost predicate StackOk(st: Work, nodes: seq<Node>) {
    && |st.x| == |st.u| > 0 && (forall m :: 0 <= m < |st.u| ==> st.u[m] < |nodes| && st.x[m] == Lsb(nodes[st.u[m]].prefix))
    && st.w == Depth(nodes, Top(st.u))
  }

  /** A number whose bits from d on are zero. */
  lemma {:induction false} LsbZeroTail(p: seq<bool>, w: nat, d: nat)
    requires w <= d <= |p| && FalseFrom(p, d)
    ensures Lsb(p) == Lsb(p[..d]) && Lsb(p) / Pow2(w) == Lsb(p[w..d])
  {
    assert p[d..] == Falses(|p| - d);
    FalsesZero(|p| - d);
    assert p == p[..d] + p[d..] && p[w..] == p[w..d] + p[d..];
    LsbConcat(p[..d], p[d..]);
    LsbConcat(p[w..d], p[d..]);
    ShiftMask(p, w);
  }

  /** The code is the first in the table it needs. */
  lemma {:induction false} FirstInNew(lens: seq<nat>, k: nat, c: nat, w: nat)
    requires IsCode(lens, k, c) && w < k && FalseFrom(Word(c, k), w)
    ensures FirstIn(lens, w, Msb(Word(c, k)[..w]), k) && c == Msb(Word(c, k)[..w]) * Pow2(k - w)
  {
    ZeroTail(c, k, w);
  }

  /** One round of the loop that makes tables up to the required level. */
  method AddTable(ghost lens: seq<nat>, counts: seq<nat>, l: nat, g: nat, k: nat, a: nat, st: Work,
                  ghost nodes: seq<Node>, ghost c: nat, ghost clear: bool)
    returns (st': Work, ghost nodes': seq<Node>)
    requires Counts(counts, lens) && g <= BMAX && 1 <= l <= g && Complete(lens, g) && (clear ==> !Hazard(lens, l))
    requires WorkOk(lens, l, g, st, nodes, k, c, clear) && st.w + l < k && IsCode(lens, k, c) && a + 1 == Used(lens, k) - c
    ensures WorkOk(lens, l, g, st', nodes', k, c, clear) && st'.w == st.w + l
  {
    ghost var p := Word(c, k);
    var w := st.w + l;
    FirstInNew(lens, k, c, w);
    ghost var q := Msb(p[..w]);
    var size := TableSize(lens, counts, l, g, k, a, w, q);
    RuleGivesSize(lens, l, g, w, q, k, size);
    NextDepth(lens, l, g, st.ts, nodes, Top(st.u));
    NewNodeOk(lens, l, g, w, k, c, size);
    ghost var n := Node(p[..w], size, k);
    if clear {
      NoHazardSize(lens, l, g, n);
    }
    RoomForLink(lens, l, g, st.ts, nodes, st.u, k, c, clear);
    ghost var x := p[st.w..w];
    NewTable(lens, l, g, st.ts, nodes, st.u, k, c, clear, x, n);
    LsbZeroTail(p, st.w, w);
    var j := st.i / Pow2(st.w);
    var t := st.u[|st.u| - 1];
    st' := Work(st.ts[t := st.ts[t][j := Link(l, size, |st.ts|)]] + [Blank(size)],
                st.u + [|st.ts|], st.x + [st.i], |st.ts|, w, st.i);
    nodes' := nodes + [n];
    Deeper(nodes, t, n, st.u, |st.ts|);
    assert StackOk(st', nodes');
  }

  /** Every f-th number from r on. */
  predicate Hit(i: nat, f: nat, r: nat)
    requires f > 0
  {
    i % f == r
  }

  lemma HitNext(f: nat, r: nat, a: nat)
    requires r < f && Hit(a, f, r)
    ensures Hit(a + f, f, r) && forall i :: a < i < a + f ==> !Hit(i, f, r)
  {
    DivModAdd(f, 1, a);
    forall i | a < i < a + f
      ensures !Hit(i, f, r)
    {
      ModWindow(f, a, i);
    }
  }

  lemma HitFirst(f: nat, r: nat)
    requires r < f
    ensures Hit(r, f, r) && forall i :: 0 <= i < r ==> !Hit(i, f, r)
  {
    DivModUnique(f, 0, r);
    forall i | 0 <= i < r
      ensures !Hit(i, f, r)
    {
      DivModUnique(f, 0, i);
    }
  }

  /** The table entries of one code: every f-th from j on. */
  method FillEntries(tab: seq<Entry>, ghost size: nat, ghost x: seq<bool>, j0: nat, f: nat, e: Entry) returns (r: seq<Entry>)
    requires |tab| == Pow2(size) && |x| <= size && j0 == Lsb(x) && f == Pow2(|x|)
    ensures r == Filled(tab, size, x, e)
  {
    r := tab;
    var j := j0;
    LsbBound(x);
    HitFirst(f, j0);
    while j < |tab|
      invariant |r| == |tab| && Hit(j, f, j0)
      invariant forall i :: 0 <= i < |tab| ==> r[i] == if i < j && Hit(i, f, j0) then e else tab[i]
      decreases |tab| - j
    {
      r := r[j := e];
      HitNext(f, j0, j);
      j := j + f;
    }
    FilledByHits(tab, size, x, e, r);
  }

  lemma {:induction false} FilledByHits(tab: seq<Entry>, size: nat, x: seq<bool>, e: Entry, r: seq<Entry>)
    requires |r| == |tab| == Pow2(size) && |x| <= size
    requires forall i :: 0 <= i < |tab| ==> r[i] == if Hit(i, Pow2(|x|), Lsb(x)) then e else tab[i]
    ensures r == Filled(tab, size, x, e)
  {
    forall i | 0 <= i < |tab|
      ensures r[i] == Filled(tab, size, x, e)[i]
    {
      IndexBeginsWith(i, size, x);
    }
  }

  /** The tables of the stack lie l bits apart, and none deeper than |p|. */
  ghost predicate StackSteps(l: nat, u: seq<nat>, nodes: seq<Node>, p: seq<bool>) {
    && u != [] && (forall m :: 0 <= m < |u| ==> u[m] < |nodes| && Depth(nodes, u[m]) <= |p|) && Depth(nodes, u[0]) == 0
    && (forall m :: 0 < m < |u| ==> Depth(nodes, u[m]) == Depth(nodes, u[m - 1]) + l)
  }

  lemma {:induction false} ChainSteps(l: nat, ts: Tables, nodes: seq<Node>, u: seq<nat>, p: seq<bool>, p': seq<bool>)
    requires Chain(l, ts, nodes, u, p) && |p'| == |p|
    ensures StackSteps(l, u, nodes, p')
  {
    forall m | 0 < m < |u|
      ensures Depth(nodes, u[m]) == Depth(nodes, u[m - 1]) + l
    {
      assert LinkedOn(l, ts, nodes, u[m - 1], u[m], p);
    }
  }

  /** The low w bits of i are x. */
  predicate Matches(i: nat, w: nat, x: nat) {
    i % Pow2(w) == x
  }

  lemma {:induction false} MaskIsPrefix(p: seq<bool>, q: seq<bool>)
    requires |q| <= |p|
    ensures Matches(Lsb(p), |q|, Lsb(q)) <==> q <= p
  {
    ShiftMask(p, |q|);
    assert q <= p <==> p[..|q|] == q;
    if Lsb(p[..|q|]) == Lsb(q) {
      LsbInjective(p[..|q|], q);
    }
  }

  /** The loop that backs up over finished tables. */
  method PopStack(l: nat, st: Work, ghost nodes: seq<Node>, ghost p: seq<bool>) returns (st': Work, ghost m: nat)
    requires StackOk(st, nodes) && st.i == Lsb(p) && StackSteps(l, st.u, nodes, p)
    ensures 1 <= m <= |st.u| && StackOk(st', nodes) && st'.ts == st.ts && st'.u == st.u[..m] && st'.i == st.i
    ensures st'.q == st.q && (m < |st.u| ==> st'.w + l <= st.w)
    ensures nodes[st.u[m - 1]].prefix <= p && (m < |st.u| ==> !(nodes[st.u[m]].prefix <= p))
  {
    var h := |st.u|;
    var w := st.w;
    MaskIsPrefix(p, nodes[st.u[h - 1]].prefix);
    while !Matches(st.i, w, st.x[h - 1])
      invariant 1 <= h <= |st.u| && w == Depth(nodes, st.u[h - 1])
      invariant Matches(st.i, w, st.x[h - 1]) <==> nodes[st.u[h - 1]].prefix <= p
      invariant h < |st.u| ==> !(nodes[st.u[h]].prefix <= p) && w + l <= st.w
      decreases h
    {
      assert Depth(nodes, st.u[h - 1]) > 0;
      h := h - 1;
      w := w - l;
      MaskIsPrefix(p, nodes[st.u[h - 1]].prefix);
    }
    m := h;
    st' := Work(st.ts, st.u[..h], st.x[..h], st.q, w, st.i);
  }

  /** The state between codes: the code c of length k is next, or all strings are used up. */
  ghost predicate Stage(lens: seq<nat>, l: nat, g: nat, st: Work, nodes: seq<Node>, k: nat, c: nat, clear: bool) {
    if c < Pow2(k) then WorkOk(lens, l, g, st, nodes, k, c, clear) else Done(lens, l, g, st.ts, nodes, clear)
  }

  ghost predicate Done(lens: seq<nat>, l: nat, g: nat, ts: Tables, nodes: seq<Node>, clear: bool) {
    TablesOk(lens, l, ts, nodes) && NodesOk(lens, l, g, nodes) && (clear ==> DecodesBelow(l, ts, g, Pow2(g)))
  }

  /** The tables are done, for some code words that lead to them. */
  ghost predicate Finished(lens: seq<nat>, l: nat, g: nat, ts: Tables, clear: bool) {
    (exists nodes :: Done(lens, l, g, ts, nodes, clear)) == true
  }

  /** The entries of the code are written. */
  ghost predicate CodeWritten(lens: seq<nat>, l: nat, g: nat, ts: Tables, nodes: seq<Node>, u: seq<nat>, k: nat, c: nat, clear: bool) {
    && TablesOk(lens, l, ts, nodes) && NodesOk(lens, l, g, nodes) && c < Pow2(k) && k <= g
    && Chain(l, ts, nodes, u, Word(c, k)) && Depth(nodes, Top(u)) < k <= Depth(nodes, Top(u)) + l
    && (clear ==> NodesSmall(l, g, nodes) && DecodesBelow(l, ts, g, (c + 1) * Pow2(g - k)))
  }

  method WriteEntries(ghost lens: seq<nat>, ghost l: nat, ghost g: nat, k: nat, sym: nat, st: Work,
                      ghost nodes: seq<Node>, ghost c: nat, ghost clear: bool) returns (ts: Tables)
    requires WorkOk(lens, l, g, st, nodes, k, c, clear) && k <= st.w + l && l <= g && IsCode(lens, k, c)
    requires sym < |lens| && CodeWord(lens, sym) == Word(c, k)
    ensures CodeWritten(lens, l, g, ts, nodes, st.u, k, c, clear)
  {
    ghost var p := Word(c, k);
    ghost var x := p[st.w..];
    var t := st.q;
    RoomOnTop(lens, l, g, st.ts, nodes, st.u, k, c, clear);
    WriteKeeps(lens, l, st.ts, nodes, st.u, p, x, sym);
    ShiftMask(p, st.w);
    var tab := FillEntries(st.ts[t], nodes[t].size, x, st.i / Pow2(st.w), Pow2(k - st.w), Leaf(k - st.w, sym));
    ts := st.ts[t := tab];
    assert ts == Written(st.ts, nodes, st.u, x, sym);
    if clear {
      ClearWay(lens, l, g, st.ts, nodes, st.u, k, c);
      WrittenLeaves(st.ts, nodes, st.u, x, sym);
      WriteCodeDecodes(lens, l, g, st.ts, nodes, st.u, k, c, x, sym, ts);
    }
  }

  lemma {:induction false} ClearWay(lens: seq<nat>, l: nat, g: nat, ts: Tables, nodes: seq<Node>, u: seq<nat>, k: nat, c: nat)
    requires Building(lens, l, g, ts, nodes, u, k, c, true) && l <= g && IsCode(lens, k, c)
    ensures Depth(nodes, Top(u)) + LookupBits(l, nodes, Top(u)) <= g
    ensures forall j :: 0 <= j < |u| - 1 ==> LookupBits(l, nodes, u[j]) == l
  {
    WayIsClear(lens, l, g, ts, nodes, u, k, c);
    TopFits(l, g, ts, nodes, u, Word(c, k));
  }

  lemma WrittenLeaves(ts: Tables, nodes: seq<Node>, u: seq<nat>, x: seq<bool>, sym: nat)
    requires u != [] && Top(u) < |ts| == |nodes| && |x| <= nodes[Top(u)].size
    ensures var ts' := Written(ts, nodes, u, x, sym);
            LeavesIn(ts', nodes, Top(u), x, sym)
  {
  }

  /** The last code is all ones. */
  lemma {:induction false} LastCode(c: nat, k: nat)
    requires c < Pow2(k) && forall n :: 0 <= n < k ==> Word(c, k)[n]
    ensures c + 1 == Pow2(k)
  {
    WordIs(c, k);
    TruesMsb(k);
    assert Word(c, k) == seq(k, _ => true);
  }

  lemma {:induction false} NextCodeIs(c: nat, k: nat, p': seq<bool>, d: nat)
    requires c < Pow2(k) && NextWord(Word(c, k), p', d)
    ensures c + 1 < Pow2(k) && p' == Word(c + 1, k)
  {
    WordIs(c, k);
    NextWordIs(Word(c, k), p', d);
    MsbBound(p');
    WordOf(p');
  }

  /** From a written code to the next. */
  method Advance(ghost lens: seq<nat>, l: nat, ghost g: nat, k: nat, st: Work, ts: Tables,
                 ghost nodes: seq<Node>, ghost c: nat, ghost clear: bool) returns (st': Work)
    requires CodeWritten(lens, l, g, ts, nodes, st.u, k, c, clear) && StackOk(st, nodes) && st.i == Lsb(Word(c, k)) && k >= 1
    requires AtTop(l, st, k) && (c + 1 == Pow2(k) ==> k == g)
    ensures st'.u != [] && Stage(lens, l, g, st', nodes, k, c + 1, clear)
  {
    ghost var p := Word(c, k);
    var i; ghost var d, p';
    i, d, p' := NextCode(st.i, k, p);
    ChainSteps(l, ts, nodes, st.u, p, p');
    ghost var m;
    st', m := PopStack(l, Work(ts, st.u, st.x, st.q, st.w, i), nodes, p');
    if d >= 0 {
      NextCodeIs(c, k, p', d);
      PopTables(l, ts, nodes, st.u, p, p', d, m);
    } else {
      LastCode(c, k);
      assert Pow2(0) == 1;
    }
  }

  method MakeRoot(ghost lens: seq<nat>, counts: seq<nat>, l: nat, g: nat, k: nat, a: nat, ghost clear: bool)
    returns (st: Work, ghost nodes: seq<Node>)
    requires Counts(counts, lens) && g <= BMAX && 1 <= k <= l <= g && Complete(lens, g)
    requires IsCode(lens, k, 0) && a + 1 == Used(lens, k)
    ensures WorkOk(lens, l, g, st, nodes, k, 0, clear) && st.w == 0
  {
    assert 0 * Pow2(k) == 0;
    var size := TableSize(lens, counts, l, g, k, a, 0, 0);
    RuleGivesRoot(lens, l, g, k, size);
    RootTable(lens, l, g, k, size, clear);
    st := Work([Blank(size)], [0], [0], 0, 0, 0);
    nodes := [Node([], size, k)];
  }

  /** Before the code c of length k nothing is made yet, or the codes before it are in place.  (This predicate and Ready
      are equations so that the verifier passes them on whole.) */
  ghost predicate Before(lens: seq<nat>, l: nat, g: nat, st: Work, nodes: seq<Node>, k: nat, c: nat, clear: bool) {
    Placed(lens, l, g, st, nodes, k, c, clear) == true
  }

  ghost predicate Placed(lens: seq<nat>, l: nat, g: nat, st: Work, nodes: seq<Node>, k: nat, c: nat, clear: bool) {
    if st.u == [] then c == 0 && k <= l else Stage(lens, l, g, st, nodes, k, c, clear)
  }

  /** The body of the loop over the codes: tables up to the required level, the entries, and the next code. */
  method PlaceCode(ghost lens: seq<nat>, counts: seq<nat>, l: nat, g: nat, k: nat, a: nat, sym: nat, st0: Work,
                   ghost nodes0: seq<Node>, ghost c: nat, ghost clear: bool)
    returns (st: Work, ghost nodes: seq<Node>)
    requires Counts(counts, lens) && g <= BMAX && 1 <= l <= g && 1 <= k <= g && Complete(lens, g) && (clear ==> !Hazard(lens, l))
    requires Before(lens, l, g, st0, nodes0, k, c, clear)
    requires IsCode(lens, k, c) && a + 1 == Used(lens, k) - c && (c + 1 == Pow2(k) ==> k == g)
    requires sym < |lens| && CodeWord(lens, sym) == Word(c, k)
    ensures st.u != [] && Before(lens, l, g, st, nodes, k, c + 1, clear)
  {
    if st0.u == [] {
      st, nodes := MakeRoot(lens, counts, l, g, k, a, clear);
    } else {
      st, nodes := st0, nodes0;
    }
    while k > st.w + l
      invariant WorkOk(lens, l, g, st, nodes, k, c, clear)
      decreases k - st.w
    {
      st, nodes := AddTable(lens, counts, l, g, k, a, st, nodes, c, clear);
    }
    var ts := WriteEntries(lens, l, g, k, sym, st, nodes, c, clear);
    st := Advance(lens, l, g, k, st, ts, nodes, c, clear);
  }

  /** The symbols in the order of their codes. */
  ghost predicate Sorted(v: seq<nat>, lens: seq<nat>, g: nat) {
    forall k, r :: 1 <= k <= g && 0 <= r < Count(lens, k) ==> HasPlace(v, lens, lens, k, r)
  }

  /** The symbol of rank r among the first ones of length k is in its place. */
  ghost predicate HasPlace(v: seq<nat>, lens: seq<nat>, front: seq<nat>, k: nat, r: nat)
    requires r < Count(front, k)
  {
    Offset(lens, k) + r < |v| && v[Offset(lens, k) + r] == SymOf(front, k, r)
  }

  /** How many symbols have codes shorter than k. */
  function Offset(lens: seq<nat>, k: nat): nat {
    if k <= 1 then 0 else Offset(lens, k - 1) + Count(lens, k - 1)
  }

  /** The first of the last a codes of length k. */
  function CodeFrom(lens: seq<nat>, k: nat, a: nat): nat
    requires a <= Count(lens, k)
  {
    FirstCode(lens, k) + (Count(lens, k) - a)
  }

  /** a codes of length k are left, the symbol of the first of them at place p, and the codes before are in place. */
  ghost predicate CodesLeft(lens: seq<nat>, l: nat, g: nat, st: Work, nodes: seq<Node>, k: nat, a: nat, p: nat, clear: bool) {
    && a <= Count(lens, k) && p == Offset(lens, k) + (Count(lens, k) - a)
    && (st.u == [] ==> a > 0) && Before(lens, l, g, st, nodes, k, CodeFrom(lens, k, a), clear)
  }

  ghost predicate Ready(lens: seq<nat>, l: nat, g: nat, st: Work, nodes: seq<Node>, k: nat, a: nat, p: nat, clear: bool) {
    CodesLeft(lens, l, g, st, nodes, k, a, p, clear) == true
  }

  lemma {:induction false} SymbolAt(lens: seq<nat>, v: seq<nat>, g: nat, k: nat, c: nat)
    requires Sorted(v, lens, g) && Complete(lens, g) && 1 <= k <= g && FirstCode(lens, k) <= c < Used(lens, k)
    ensures var p := Offset(lens, k) + c - FirstCode(lens, k);
            p < |v| && v[p] < |lens| && CodeWord(lens, v[p]) == Word(c, k)
  {
    CodeOfSym(lens, k, c - FirstCode(lens, k));
    assert HasPlace(v, lens, lens, k, c - FirstCode(lens, k));
  }

  /** One code, taken from the sorted symbols. */
  method PlaceNext(ghost lens: seq<nat>, counts: seq<nat>, v: seq<nat>, l: nat, g: nat, k: nat, a: nat, p: nat, st0: Work,
                   ghost nodes0: seq<Node>, ghost clear: bool)
    returns (st: Work, ghost nodes: seq<Node>)
    requires Counts(counts, lens) && g <= BMAX && 1 <= l <= g && 1 <= k <= g && Complete(lens, g) && (clear ==> !Hazard(lens, l))
    requires Sorted(v, lens, g) && Ready(lens, l, g, st0, nodes0, k, a + 1, p, clear)
    ensures Ready(lens, l, g, st, nodes, k, a, p + 1, clear)
  {
    ghost var c := CodeNext(lens, l, g, st0, nodes0, k, a, p, clear);
    SymbolAt(lens, v, g, k, c);
    st, nodes := PlaceCode(lens, counts, l, g, k, a, v[p], st0, nodes0, c, clear);
    CodeBehind(lens, l, g, st, nodes, k, a, p, c, clear);
  }

  lemma CodeNext(lens: seq<nat>, l: nat, g: nat, st: Work, nodes: seq<Node>, k: nat, a: nat, p: nat, clear: bool)
    returns (c: nat)
    requires Ready(lens, l, g, st, nodes, k, a + 1, p, clear) && Complete(lens, g) && 1 <= k <= g
    ensures Before(lens, l, g, st, nodes, k, c, clear) && IsCode(lens, k, c) && a + 1 == Used(lens, k) - c
    ensures p == Offset(lens, k) + c - FirstCode(lens, k) && (c + 1 == Pow2(k) ==> k == g)
  {
    SomeLeft(lens, l, g, st, nodes, k, a + 1, p, clear);
    CodeFits(lens, g, k, a);
    c := CodeFrom(lens, k, a + 1);
  }

  lemma SomeLeft(lens: seq<nat>, l: nat, g: nat, st: Work, nodes: seq<Node>, k: nat, a: nat, p: nat, clear: bool)
    requires Ready(lens, l, g, st, nodes, k, a, p, clear)
    ensures a <= Count(lens, k) && p == Offset(lens, k) + (Count(lens, k) - a)
    ensures Before(lens, l, g, st, nodes, k, CodeFrom(lens, k, a), clear)
  {
  }

  lemma {:induction false} CodeFits(lens: seq<nat>, g: nat, k: nat, a: nat)
    requires Complete(lens, g) && 1 <= k <= g && a + 1 <= Count(lens, k)
    ensures var c := CodeFrom(lens, k, a + 1);
            IsCode(lens, k, c) && a + 1 == Used(lens, k) - c && (c + 1 == Pow2(k) ==> k == g)
  {
    CompleteFits(lens, g, k);
  }

  lemma {:induction false} CodeBehind(lens: seq<nat>, l: nat, g: nat, st: Work, nodes: seq<Node>, k: nat, a: nat, p: nat, c: nat,
                                      clear: bool)
    requires st.u != [] && Before(lens, l, g, st, nodes, k, c + 1, clear) && FirstCode(lens, k) <= c
    requires a + 1 == Used(lens, k) - c && p == Offset(lens, k) + c - FirstCode(lens, k)
    ensures Ready(lens, l, g, st, nodes, k, a, p + 1, clear)
  {
    ReadyFor(lens, l, g, st, nodes, k, a, p + 1, c + 1, clear);
  }

  lemma ReadyFor(lens: seq<nat>, l: nat, g: nat, st: Work, nodes: seq<Node>, k: nat, a: nat, p: nat, c: nat, clear: bool)
    requires st.u != [] && Before(lens, l, g, st, nodes, k, c, clear) && FirstCode(lens, k) <= c
    requires a == Used(lens, k) - c && p == Offset(lens, k) + c - FirstCode(lens, k)
    ensures Ready(lens, l, g, st, nodes, k, a, p, clear)
  {
    assert a <= Count(lens, k) && CodeFrom(lens, k, a) == c;
  }

  /** The codes of one length. */
  method PlaceLength(ghost lens: seq<nat>, counts: seq<nat>, v: seq<nat>, l: nat, g: nat, k: nat, p0: nat, st0: Work,
                     ghost nodes0: seq<Node>, ghost clear: bool)
    returns (p: nat, st: Work, ghost nodes: seq<Node>)
    requires Counts(counts, lens) && g <= BMAX && 1 <= l <= g && 1 <= k <= g && Complete(lens, g) && (clear ==> !Hazard(lens, l))
    requires Sorted(v, lens, g) && FromLength(lens, l, g, st0, nodes0, k, p0, clear)
    ensures FromLength(lens, l, g, st, nodes, k + 1, p, clear)
  {
    var a := counts[k];
    LengthBegins(lens, l, g, st0, nodes0, k, p0, clear);
    p, st, nodes := p0, st0, nodes0;
    while a > 0
      invariant Ready(lens, l, g, st, nodes, k, a, p, clear)
    {
      a := a - 1;
      st, nodes := PlaceNext(lens, counts, v, l, g, k, a, p, st, nodes, clear);
      p := p + 1;
    }
    LengthOver(lens, l, g, st, nodes, k, p, clear);
  }

  lemma LengthBegins(lens: seq<nat>, l: nat, g: nat, st: Work, nodes: seq<Node>, k: nat, p: nat, clear: bool)
    requires FromLength(lens, l, g, st, nodes, k, p, clear) && k <= g
    ensures Ready(lens, l, g, st, nodes, k, Count(lens, k), p, clear)
  {
  }

  lemma LengthOver(lens: seq<nat>, l: nat, g: nat, st: Work, nodes: seq<Node>, k: nat, p: nat, clear: bool)
    requires Ready(lens, l, g, st, nodes, k, 0, p, clear) && 1 <= k <= g && Complete(lens, g)
    ensures FromLength(lens, l, g, st, nodes, k + 1, p, clear)
  {
    if k < g {
      LengthDone(lens, l, g, st, nodes, k, p, clear);
    }
  }

  /** Ready for the codes of length k, or done if there is no such length. */
  ghost predicate FromLength(lens: seq<nat>, l: nat, g: nat, st: Work, nodes: seq<Node>, k: nat, p: nat, clear: bool) {
    (if k <= g then Ready(lens, l, g, st, nodes, k, Count(lens, k), p, clear) else Ready(lens, l, g, st, nodes, g, 0, p, clear)) == true
  }

  /** From one length to the next: a code doubles. */
  lemma {:induction false} LengthDone(lens: seq<nat>, l: nat, g: nat, st: Work, nodes: seq<Node>, k: nat, p: nat, clear: bool)
    requires Ready(lens, l, g, st, nodes, k, 0, p, clear) && 1 <= k < g && Complete(lens, g)
    ensures Ready(lens, l, g, st, nodes, k + 1, Count(lens, k + 1), p, clear)
  {
    NoneLeft(lens, l, g, st, nodes, k, p, clear);
    CodeDoubled(lens, l, g, st, nodes, k, p, clear);
  }

  lemma NoneLeft(lens: seq<nat>, l: nat, g: nat, st: Work, nodes: seq<Node>, k: nat, p: nat, clear: bool)
    requires Ready(lens, l, g, st, nodes, k, 0, p, clear) && k >= 1
    ensures st.u != [] && Before(lens, l, g, st, nodes, k, Used(lens, k), clear) && p == Offset(lens, k + 1)
  {
    assert CodeFrom(lens, k, 0) == Used(lens, k);
  }

  lemma AllLeft(lens: seq<nat>, l: nat, g: nat, st: Work, nodes: seq<Node>, k: nat, p: nat, clear: bool)
    requires st.u != [] && Before(lens, l, g, st, nodes, k, FirstCode(lens, k), clear) && p == Offset(lens, k)
    ensures Ready(lens, l, g, st, nodes, k, Count(lens, k), p, clear)
  {
    assert CodeFrom(lens, k, Count(lens, k)) == FirstCode(lens, k);
  }

  lemma {:induction false} CodeDoubled(lens: seq<nat>, l: nat, g: nat, st: Work, nodes: seq<Node>, k: nat, p: nat, clear: bool)
    requires Before(lens, l, g, st, nodes, k, Used(lens, k), clear) && st.u != [] && 1 <= k < g && Complete(lens, g)
    requires p == Offset(lens, k + 1)
    ensures Ready(lens, l, g, st, nodes, k + 1, Count(lens, k + 1), p, clear)
  {
    CompleteFits(lens, g, k);
    BeforeIsWork(lens, l, g, st, nodes, k, Used(lens, k), clear);
    WorkDoubled(lens, l, g, st, nodes, k, Used(lens, k), clear);
    assert FirstCode(lens, k + 1) == 2 * Used(lens, k);
    BeforeIsWork(lens, l, g, st, nodes, k + 1, FirstCode(lens, k + 1), clear);
    AllLeft(lens, l, g, st, nodes, k + 1, p, clear);
  }

  lemma BeforeIsWork(lens: seq<nat>, l: nat, g: nat, st: Work, nodes: seq<Node>, k: nat, c: nat, clear: bool)
    requires st.u != [] && c < Pow2(k)
    ensures Before(lens, l, g, st, nodes, k, c, clear) == WorkOk(lens, l, g, st, nodes, k, c, clear)
  {
  }

  lemma {:induction false} WorkDoubled(lens: seq<nat>, l: nat, g: nat, st: Work, nodes: seq<Node>, k: nat, c: nat, clear: bool)
    requires WorkOk(lens, l, g, st, nodes, k, c, clear) && k < g
    ensures 2 * c < Pow2(k + 1) && WorkOk(lens, l, g, st, nodes, k + 1, 2 * c, clear)
  {
    NextLength(lens, l, g, st.ts, nodes, st.u, k, c, clear);
  }

  lemma AllDone(lens: seq<nat>, l: nat, g: nat, st: Work, nodes: seq<Node>, p: nat, clear: bool)
    requires FromLength(lens, l, g, st, nodes, g + 1, p, clear) && Complete(lens, g)
    ensures Finished(lens, l, g, st.ts, clear)
  {
    assert Done(lens, l, g, st.ts, nodes, clear);
  }

  lemma NothingYet(lens: seq<nat>, l: nat, g: nat, kmin: nat, st: Work, nodes: seq<Node>, clear: bool)
    requires 1 <= kmin <= l <= g && Count(lens, kmin) > 0 && (forall k :: 1 <= k < kmin ==> Count(lens, k) == 0) && st.u == []
    ensures FromLength(lens, l, g, st, nodes, kmin, 0, clear)
  {
    NoneShorter(lens, kmin);
  }

  /** The tables of a complete set of code lengths, made length by length. */
  method BuildTables(ghost lens: seq<nat>, counts: seq<nat>, v: seq<nat>, l: nat, kmin: nat, g: nat, ghost clear: bool)
    returns (ts: Tables)
    requires Counts(counts, lens) && g <= BMAX && 1 <= kmin <= l <= g && Complete(lens, g) && (clear ==> !Hazard(lens, l))
    requires Sorted(v, lens, g) && counts[kmin] > 0 && forall k :: 1 <= k < kmin ==> counts[k] == 0
    ensures Finished(lens, l, g, ts, clear)
  {
    var st := Work([], [], [], 0, 0, 0);
    NothingYet(lens, l, g, kmin, st, [], clear);
    ghost var p, nodes;
    st, p, nodes := PlaceLengths(lens, counts, v, l, kmin, g, st, clear);
    AllDone(lens, l, g, st, nodes, p, clear);
    ts := st.ts;
  }

  /** The loop over the lengths. */
  method PlaceLengths(ghost lens: seq<nat>, counts: seq<nat>, v: seq<nat>, l: nat, kmin: nat, g: nat, st0: Work, ghost clear: bool)
    returns (st: Work, ghost last: nat, ghost nodes: seq<Node>)
    requires Counts(counts, lens) && g <= BMAX && 1 <= kmin <= l <= g && Complete(lens, g) && (clear ==> !Hazard(lens, l))
    requires Sorted(v, lens, g) && FromLength(lens, l, g, st0, [], kmin, 0, clear)
    ensures FromLength(lens, l, g, st, nodes, g + 1, last, clear)
  {
    var k, p := kmin, 0;
    st, nodes := st0, [];
    while k <= g
      invariant kmin <= k <= g + 1 && FromLength(lens, l, g, st, nodes, k, p, clear)
    {
      p, st, nodes := PlaceLength(lens, counts, v, l, g, k, p, st, nodes, clear);
      k := k + 1;
    }
    last := p;
  }

  lemma {:induction false} NoneShorter(lens: seq<nat>, kmin: nat)
    requires kmin >= 1 && forall k :: 1 <= k < kmin ==> Count(lens, k) == 0
    ensures FirstCode(lens, kmin) == 0 && Offset(lens, kmin) == 0
    decreases kmin
  {
    if kmin > 1 {
      NoneShorter(lens, kmin - 1);
    }
  }
}
