/**
 The canonical Huffman code of a list of code lengths (section 3.2.2 of RFC 1951).
 */
module HuffmanCode {
  import opened Arithmetic
  import opened BitStrings

  /** How many symbols have a code of length k. */
  function Count(lens: seq<nat>, k: nat): nat {
    if lens == [] then 0 else Count(lens[..|lens| - 1], k) + if lens[|lens| - 1] == k then 1 else 0
  }

  /** The smallest code of length k. */
  function FirstCode(lens: seq<nat>, k: nat): nat
    decreases k
  {
    if k <= 1 then 0 else 2 * (FirstCode(lens, k - 1) + Count(lens, k - 1))
  }

  /** How many strings of k bits begin with a code of length at most k. */
  function Used(lens: seq<nat>, k: nat): nat {
    FirstCode(lens, k) + Count(lens, k)
  }

  /** The number of earlier symbols with a code of the same length. */
  function Rank(lens: seq<nat>, sym: nat): nat
    requires sym < |lens|
  {
    Count(lens[..sym], lens[sym])
  }

  /** The code of a symbol, as a string of bits. */
  function CodeWord(lens: seq<nat>, sym: nat): (s: seq<bool>)
    requires sym < |lens|
    ensures |s| == lens[sym]
  {
    Word(FirstCode(lens, lens[sym]) + Rank(lens, sym), lens[sym])
  }

  ghost predicate MaxLength(lens: seq<nat>, g: nat) {
    g >= 1 && (forall i :: 0 <= i < |lens| ==> lens[i] <= g) && exists i :: 0 <= i < |lens| && lens[i] == g
  }

  /** The codes use up all strings: the Kraft sum is 1. */
  ghost predicate Complete(lens: seq<nat>, g: nat) {
    MaxLength(lens, g) && Used(lens, g) == Pow2(g)
  }

  // ---------- the Kraft sum ----------

  /** The sum over all symbols of 2^(g - length), length 0 meaning no code. */
  function KraftSum(lens: seq<nat>, g: nat): nat
    requires forall i :: 0 <= i < |lens| ==> lens[i] <= g
  {
    if lens == [] then 0
    else
      var x := lens[|lens| - 1];
      KraftSum(lens[..|lens| - 1], g) + if x == 0 then 0 else Pow2(g - x)
  }

  lemma {:induction false} UsedSnoc(lens: seq<nat>, x: nat, m: nat)
    requires m >= 1
    ensures Used(lens + [x], m) == Used(lens, m) + if 1 <= x <= m then Pow2(m - x) else 0
    ensures FirstCode(lens + [x], m) == FirstCode(lens, m) + if 1 <= x < m then Pow2(m - x) else 0
    decreases m
  {
    var l2 := lens + [x];
    assert l2[..|l2| - 1] == lens;
    if m > 1 {
      UsedSnoc(lens, x, m - 1);
    }
  }

  lemma {:induction false} UsedNothing(m: nat)
    requires m >= 1
    ensures Used([], m) == 0
    decreases m
  {
    if m > 1 {
      UsedNothing(m - 1);
    }
  }

  /** The space the codes use is the Kraft sum. */
  lemma {:induction false} UsedIsKraft(lens: seq<nat>, g: nat)
    requires g >= 1 && forall i :: 0 <= i < |lens| ==> lens[i] <= g
    ensures Used(lens, g) == KraftSum(lens, g)
  {
    if lens == [] {
      UsedNothing(g);
    } else {
      var front, x := lens[..|lens| - 1], lens[|lens| - 1];
      assert lens == front + [x];
      UsedIsKraft(front, g);
      UsedSnoc(front, x, g);
    }
  }

  // ---------- order ----------

  /** From one length to a longer one, the space used doubles at each step and gains the codes between. */
  lemma {:induction false} UsedGrows(lens: seq<nat>, a: nat, b: nat)
    requires 1 <= a < b
    ensures Used(lens, a) * Pow2(b - a) <= FirstCode(lens, b)
    decreases b
  {
    if b == a + 1 {
      assert Pow2(1) == 2;
    } else {
      UsedGrows(lens, a, b - 1);
      var x, p := Used(lens, a), Pow2(b - 1 - a);
      MulDouble(p, x);
      assert Pow2(b - a) == 2 * p;
      assert x * Pow2(b - a) == 2 * (x * p) <= 2 * FirstCode(lens, b - 1);
    }
  }

  lemma {:induction false} CountZero(lens: seq<nat>, k: nat)
    requires forall i :: 0 <= i < |lens| ==> lens[i] != k
    ensures Count(lens, k) == 0
  {
    if lens != [] {
      CountZero(lens[..|lens| - 1], k);
    }
  }

  lemma {:induction false} CountHas(lens: seq<nat>, i: nat)
    requires i < |lens|
    ensures Count(lens, lens[i]) >= 1
  {
    if i < |lens| - 1 {
      CountHas(lens[..|lens| - 1], i);
    }
  }

  /** In a complete code no length is over-used, and space is left below the greatest length. */
  lemma {:induction false} CompleteFits(lens: seq<nat>, g: nat, k: nat)
    requires Complete(lens, g) && 1 <= k <= g
    ensures Used(lens, k) <= Pow2(k)
    ensures k < g ==> Used(lens, k) < Pow2(k)
  {
    if k < g {
      UsedGrows(lens, k, g);
      Pow2Add(k, g - k);
      var i :| 0 <= i < |lens| && lens[i] == g;
      CountHas(lens, i);
      // Used(k) * 2^(g-k) <= FirstCode(g) < Used(g) == 2^k * 2^(g-k)
      if Used(lens, k) >= Pow2(k) {
        MulMono(Pow2(k), Used(lens, k), Pow2(g - k));
      }
    }
  }

  lemma MulMono(a: nat, b: nat, u: nat)
    requires a <= b
    ensures a * u <= b * u && u * a <= u * b
  {
  }

  /** Beyond the greatest length the space used only doubles. */
  lemma {:induction false} CompleteBeyond(lens: seq<nat>, g: nat, k: nat)
    requires Complete(lens, g) && k >= g
    ensures Used(lens, k) == Pow2(k)
    decreases k
  {
    if k > g {
      CompleteBeyond(lens, g, k - 1);
      CountZero(lens, k);
    }
  }

  // ---------- symbols by length and rank ----------

  /** The symbol of rank r among those with codes of length k. */
  function SymOf(lens: seq<nat>, k: nat, r: nat): (sym: nat)
    requires r < Count(lens, k)
    ensures sym < |lens|
  {
    var n := |lens| - 1;
    if lens[n] == k && Count(lens[..n], k) == r then n else SymOf(lens[..n], k, r)
  }

  lemma {:induction false} SymOfIs(lens: seq<nat>, k: nat, r: nat)
    requires r < Count(lens, k)
    ensures var sym := SymOf(lens, k, r); lens[sym] == k && Rank(lens, sym) == r
  {
    var n := |lens| - 1;
    if !(lens[n] == k && Count(lens[..n], k) == r) {
      SymOfIs(lens[..n], k, r);
      var sym := SymOf(lens[..n], k, r);
      assert lens[..n][..sym] == lens[..sym];
    }
  }

  lemma {:induction false} RankBelowCount(lens: seq<nat>, sym: nat)
    requires sym < |lens|
    ensures Rank(lens, sym) < Count(lens, lens[sym])
  {
    var n := |lens| - 1;
    if sym < n {
      RankBelowCount(lens[..n], sym);
      assert lens[..n][..sym] == lens[..sym];
    }
  }

  /** The code of length k and rank r. */
  function Code(lens: seq<nat>, k: nat, r: nat): seq<bool> {
    Word(FirstCode(lens, k) + r, k)
  }

  lemma CodeOfSym(lens: seq<nat>, k: nat, r: nat)
    requires r < Count(lens, k)
    ensures CodeWord(lens, SymOf(lens, k, r)) == Code(lens, k, r) && lens[SymOf(lens, k, r)] == k
  {
    SymOfIs(lens, k, r);
  }
}
