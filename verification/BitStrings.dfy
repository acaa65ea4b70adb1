/**
 Strings of bits read as numbers: first bit least significant, as the bit buffer and the table
 indexes have it, or first bit most significant, as Huffman codes are ordered.
 */
module BitStrings {
  import opened Arithmetic

  function Pow2(n: nat): (r: nat)
    ensures r > 0
  {
    if n == 0 then 1 else 2 * Pow2(n - 1)
  }

  lemma {:induction false} Pow2Add(a: nat, b: nat)
    ensures Pow2(a + b) == Pow2(a) * Pow2(b)
    decreases b
  {
    if b > 0 {
      Pow2Add(a, b - 1);
      MulDouble(Pow2(b - 1), Pow2(a));
    }
  }

  lemma {:induction false} Pow2Mono(a: nat, b: nat)
    requires a <= b
    ensures Pow2(a) <= Pow2(b)
    ensures a < b ==> 2 * Pow2(a) <= Pow2(b)
    decreases b
  {
    if a < b {
      Pow2Mono(a, b - 1);
    }
  }

  function Bit(b: bool): nat {
    if b then 1 else 0
  }

  // ---------- first bit least significant ----------

  function Lsb(s: seq<bool>): nat {
    if s == [] then 0 else Bit(s[0]) + 2 * Lsb(s[1..])
  }

  lemma {:induction false} LsbBound(s: seq<bool>)
    ensures Lsb(s) < Pow2(|s|)
  {
    if s != [] {
      LsbBound(s[1..]);
    }
  }

  lemma {:induction false} LsbConcat(a: seq<bool>, b: seq<bool>)
    ensures Lsb(a + b) == Lsb(a) + Pow2(|a|) * Lsb(b)
  {
    if a == [] {
      assert a + b == b;
    } else {
      assert (a + b)[1..] == a[1..] + b;
      LsbConcat(a[1..], b);
      MulDouble(Pow2(|a| - 1), Lsb(b));
    }
  }

  lemma {:induction false} LsbInjective(a: seq<bool>, b: seq<bool>)
    requires |a| == |b| && Lsb(a) == Lsb(b)
    ensures a == b
  {
    if a != [] {
      assert a[0] == b[0];
      LsbInjective(a[1..], b[1..]);
      assert a == [a[0]] + a[1..] && b == [b[0]] + b[1..];
    }
  }

  /** The n bits of v. */
  function FromLsb(v: nat, n: nat): (s: seq<bool>)
    ensures |s| == n
    decreases n, v
  {
    if n == 0 then [] else [v % 2 == 1] + FromLsb(v / 2, n - 1)
  }

  lemma {:induction false} FromLsbIs(v: nat, n: nat)
    requires v < Pow2(n)
    ensures Lsb(FromLsb(v, n)) == v
    decreases n
  {
    if n > 0 {
      FromLsbIs(v / 2, n - 1);
      assert FromLsb(v, n)[1..] == FromLsb(v / 2, n - 1);
    }
  }

  lemma {:induction false} FromLsbOf(s: seq<bool>)
    ensures Lsb(s) < Pow2(|s|) && FromLsb(Lsb(s), |s|) == s
  {
    LsbBound(s);
    FromLsbIs(Lsb(s), |s|);
    LsbInjective(FromLsb(Lsb(s), |s|), s);
  }

  /** Shifting right by w drops the first w bits; masking with w ones keeps them. */
  lemma {:induction false} ShiftMask(s: seq<bool>, w: nat)
    requires w <= |s|
    ensures Lsb(s) / Pow2(w) == Lsb(s[w..]) && Lsb(s) % Pow2(w) == Lsb(s[..w])
  {
    assert s == s[..w] + s[w..];
    LsbConcat(s[..w], s[w..]);
    LsbBound(s[..w]);
    DivModUnique(Pow2(w), Lsb(s[w..]), Lsb(s[..w]));
  }

  // ---------- first bit most significant ----------

  function Msb(s: seq<bool>): nat {
    if s == [] then 0 else 2 * Msb(s[..|s| - 1]) + Bit(s[|s| - 1])
  }

  lemma {:induction false} MsbBound(s: seq<bool>)
    ensures Msb(s) < Pow2(|s|)
  {
    if s != [] {
      MsbBound(s[..|s| - 1]);
    }
  }

  lemma {:induction false} MsbConcat(a: seq<bool>, b: seq<bool>)
    ensures Msb(a + b) == Msb(a) * Pow2(|b|) + Msb(b)
    decreases |b|
  {
    if b == [] {
      assert a + b == a;
    } else {
      var c, b1 := a + b, b[..|b| - 1];
      assert c[..|c| - 1] == a + b1 && c[|c| - 1] == b[|b| - 1];
      MsbConcat(a, b1);
      DoubleSum(Msb(a), Pow2(|b1|), Msb(b1), Bit(b[|b| - 1]));
    }
  }

  lemma {:induction false} MsbInjective(a: seq<bool>, b: seq<bool>)
    requires |a| == |b| && Msb(a) == Msb(b)
    ensures a == b
  {
    if a != [] {
      var n := |a| - 1;
      assert a[n] == b[n];
      MsbInjective(a[..n], b[..n]);
      assert a == a[..n] + [a[n]] && b == b[..n] + [b[n]];
    }
  }

  /** The n-bit code word of v. */
  function Word(v: nat, n: nat): (s: seq<bool>)
    ensures |s| == n
    decreases n
  {
    if n == 0 then [] else Word(v / 2, n - 1) + [v % 2 == 1]
  }

  lemma {:induction false} WordIs(v: nat, n: nat)
    requires v < Pow2(n)
    ensures Msb(Word(v, n)) == v
    decreases n
  {
    if n > 0 {
      WordIs(v / 2, n - 1);
      assert Word(v, n)[..n - 1] == Word(v / 2, n - 1);
    }
  }

  lemma {:induction false} WordOf(s: seq<bool>)
    ensures Word(Msb(s), |s|) == s
  {
    MsbBound(s);
    WordIs(Msb(s), |s|);
    MsbInjective(Word(Msb(s), |s|), s);
  }

  /** The strings of n bits that begin with p are an interval of numbers. */
  lemma {:induction false} PrefixInterval(p: seq<bool>, s: seq<bool>)
    requires |p| <= |s|
    ensures p <= s <==> Msb(p) * Pow2(|s| - |p|) <= Msb(s) < (Msb(p) + 1) * Pow2(|s| - |p|)
  {
    var k := |p|;
    assert s == s[..k] + s[k..];
    MsbConcat(s[..k], s[k..]);
    MsbBound(s[k..]);
    IntervalQuotient(Pow2(|s| - k), Msb(p), Msb(s[..k]), Msb(s[k..]));
    assert p <= s <==> p == s[..k];
    SameMsb(p, s[..k]);
  }

  lemma {:induction false} SameMsb(a: seq<bool>, b: seq<bool>)
    requires |a| == |b|
    ensures Msb(a) == Msb(b) <==> a == b
  {
    if Msb(a) == Msb(b) {
      MsbInjective(a, b);
    }
  }

  lemma IntervalQuotient(u: nat, p: nat, q: nat, r: nat)
    requires r < u
    ensures p == q <==> p * u <= q * u + r < (p + 1) * u
  {
    MulSucc(p, u);
    MulStep(u, p, q);
    MulStep(u, q, p);
  }

  function Falses(n: nat): (s: seq<bool>)
    ensures |s| == n && forall i :: 0 <= i < n ==> !s[i]
  {
    seq(n, _ => false)
  }

  lemma {:induction false} FalsesZero(n: nat)
    ensures Msb(Falses(n)) == 0 && Lsb(Falses(n)) == 0
  {
    if n > 0 {
      FalsesZero(n - 1);
      assert Falses(n)[..n - 1] == Falses(n - 1) && Falses(n)[1..] == Falses(n - 1);
    }
  }
}
