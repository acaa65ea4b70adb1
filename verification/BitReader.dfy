/**
 The bit buffer of lib/inflate.c: NEEDBITS and DUMPBITS as reading from one string of bits.
 */
module BitReaders {
  import opened Arithmetic
  import opened BitStrings
  import opened Windows

  /** The bits of a file, least significant bit of each byte first. */
  function BitsOf(bytes: seq<Byte>): (r: seq<bool>)
    ensures |r| == 8 * |bytes|
  {
    if bytes == [] then [] else FromLsb(bytes[0], 8) + BitsOf(bytes[1..])
  }

  function Shifted(x: nat, k: nat): nat {
    x * Pow2(k)
  }

  /** One more byte above the k bits of v. */
  lemma {:induction false} ByteAbove(v: nat, k: nat, x: nat)
    requires v < Pow2(k) && x < 256
    ensures v + Shifted(x, k) < Pow2(k + 8) && FromLsb(v + Shifted(x, k), k + 8) == FromLsb(v, k) + FromLsb(x, 8)
  {
    var a, b := FromLsb(v, k), FromLsb(x, 8);
    assert Pow2(8) == 256;
    FromLsbIs(v, k);
    FromLsbIs(x, 8);
    LsbConcat(a, b);
    FromLsbOf(a + b);
    assert Pow2(k) * x == x * Pow2(k);
  }

  /** A byte goes from the input to the buffer. */
  lemma {:induction false} ByteMoves(v: nat, k: nat, input: seq<Byte>, pos: nat)
    requires v < Pow2(k) && pos < |input|
    ensures v + Shifted(input[pos], k) < Pow2(k + 8)
    ensures FromLsb(v + Shifted(input[pos], k), k + 8) + BitsOf(input[pos + 1..]) == FromLsb(v, k) + BitsOf(input[pos..])
  {
    ByteAbove(v, k, input[pos]);
    assert input[pos..][1..] == input[pos + 1..];
    var a, b, c := FromLsb(v, k), FromLsb(input[pos], 8), BitsOf(input[pos + 1..]);
    assert a + (b + c) == (a + b) + c;
  }

  class BitReader {
    const input: seq<Byte>
    var pos: nat
    var bb: nat
    var bk: nat

    /** The buffer never needs more than 23 bits of its 32. */
    ghost predicate Valid()
      reads this
    {
      pos <= |input| && bk <= 23 && bb < Pow2(bk)
    }

    /** The bits not yet used. */
    ghost function Stream(): seq<bool>
      requires Valid()
      reads this
    {
      FromLsb(bb, bk) + BitsOf(input[pos..])
    }

    constructor (input: seq<Byte>)
      ensures Valid() && Stream() == BitsOf(input)
    {
      this.input := input;
      pos, bb, bk := 0, 0, 0;
      new;
      assert input[0..] == input;
    }

    /** NEEDBITS; false if the input ends before there are n bits. */
    method NeedBits(n: nat) returns (ok: bool)
      requires Valid() && n <= 16
      modifies this
      ensures Valid() && Stream() == old(Stream()) && (ok <==> |Stream()| >= n) && (ok ==> bk >= n)
    {
      while bk < n
        invariant Valid() && Stream() == old(Stream())
        decreases |input| - pos
      {
        if pos == |input| {
          return false;
        }
        NextByte();
      }
      return true;
    }

    method NextByte()
      requires Valid() && pos < |input| && bk <= 15
      modifies this
      ensures Valid() && Stream() == old(Stream()) && pos == old(pos) + 1
    {
      ByteMoves(bb, bk, input, pos);
      bb := bb + Shifted(input[pos], bk);
      bk := bk + 8;
      pos := pos + 1;
    }

    /** The next n bits as a number. */
    method Peek(n: nat) returns (v: nat)
      requires Valid() && n <= bk
      ensures n <= |Stream()| && v == Lsb(Stream()[..n])
    {
      v := bb % Pow2(n);
      ghost var s := FromLsb(bb, bk);
      FromLsbIs(bb, bk);
      ShiftMask(s, n);
      assert Stream()[..n] == s[..n];
    }

    /** DUMPBITS. */
    method DumpBits(n: nat)
      requires Valid() && n <= bk
      modifies this`bb, this`bk
      ensures Valid() && n <= |old(Stream())| && Stream() == old(Stream())[n..] && bk == old(bk) - n
    {
      ghost var s, t := FromLsb(bb, bk), BitsOf(input[pos..]);
      FromLsbIs(bb, bk);
      ShiftMask(s, n);
      FromLsbOf(s[n..]);
      assert (s + t)[n..] == s[n..] + t;
      bb := bb / Pow2(n);
      bk := bk - n;
    }
  }
}
