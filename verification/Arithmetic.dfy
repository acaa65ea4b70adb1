/**
 Quotients and remainders of sums.
 */
module Arithmetic {

  lemma MulNonNeg(x: int, y: int)
    requires x >= 0 && y >= 0
    ensures x * y >= 0
  {
  }

  lemma MulDouble(p: int, x: int)
    ensures (2 * p) * x == 2 * (p * x) == x * (2 * p) == p * (2 * x)
  {
  }

  lemma DoubleSum(x: int, p: int, m: int, c: int)
    ensures 2 * (x * p + m) + c == x * (2 * p) + (2 * m + c)
  {
  }

  lemma MulSucc(p: int, u: int)
    ensures (p + 1) * u == p * u + u == u * p + u
  {
  }

  lemma MulStep(u: nat, a: int, b: int)
    ensures a < b ==> u * a + u <= u * b
  {
    if a < b {
      MulNonNeg(u, b - a - 1);
      assert u * (b - a - 1) == u * b - u * a - u;
    }
  }

  lemma DivModUnique(u: nat, k: int, y: int)
    requires 0 <= y < u
    ensures (u * k + y) / u == k && (u * k + y) % u == y
  {
    var x := u * k + y;
    assert x == u * (x / u) + x % u;
    MulStep(u, x / u, k);
    MulStep(u, k, x / u);
  }

  lemma DivModAdd(u: nat, a: int, r: int)
    requires u > 0
    ensures (u * a + r) / u == a + r / u && (u * a + r) % u == r % u
  {
    var x, y := r / u, r % u;
    assert u * a + r == u * (a + x) + y;
    DivModUnique(u, a + x, y);
  }

  /** In a window of s numbers, a remainder names one number. */
  lemma ModWindow(s: nat, b: nat, a: nat)
    requires s > 0 && b <= a < b + s
    ensures a % s == b % s <==> a == b
  {
    if a % s == b % s {
      var p, q := a / s, b / s;
      assert a == s * p + a % s && b == s * q + b % s;
      MulStep(s, q, p);
      MulStep(s, p, q);
    }
  }

  lemma DivBelow(u: nat, a: nat, q: int)
    requires u > 0
    ensures a < u * q ==> a / u < q
    ensures u * q <= a ==> q <= a / u
  {
    assert a == u * (a / u) + a % u;
    MulStep(u, a / u, q);
    MulStep(u, q - 1, a / u);
    MulStep(u, a / u, q - 1);
  }

  /** Rounding up to a multiple of u. */
  lemma CeilStep(u: nat, x: nat)
    requires u > 0
    ensures (x + u) / u == x / u + 1
    ensures (x + u - 1) / u == if x % u == 0 then x / u else x / u + 1
  {
    var q, r := x / u, x % u;
    assert x == u * q + r;
    assert u * (q + 1) == u * q + u;
    DivModUnique(u, q + 1, r);
    if r == 0 {
      DivModUnique(u, q, u - 1);
    } else {
      DivModUnique(u, q + 1, r - 1);
    }
  }

  /** From u to u * s ticks on, a number lies in one of the s blocks of u that begin at t or later. */
  lemma BlockFits(u: nat, s: nat, now: nat, t: nat, d: nat)
    requires u > 0 && now <= t <= now + 1 && now + u <= d < now + u * s
    ensures (t + u - 1) / u <= d / u < (t + u - 1) / u + s
  {
    var c := (t + u - 1) / u;
    assert t + u - 1 == u * c + (t + u - 1) % u;
    assert u * (c + s) == u * c + u * s;
    DivBelow(u, d, c);
    DivBelow(u, d, c + s);
  }

  lemma ModDivides(u: nat, c: nat, x: nat)
    requires u > 0 && c > 0 && u * c > 0 && x % (u * c) == 0
    ensures x % u == 0
  {
    var q := x / (u * c);
    assert x == (u * c) * q == u * (c * q) + 0;
    DivModUnique(u, c * q, 0);
  }
}
