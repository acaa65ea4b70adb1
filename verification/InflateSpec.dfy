/**
 What a block of Huffman codes means (sections 3.2.3 and 3.2.5 of RFC 1951): literals, and copies from the output so far,
 up to the end-of-block code.
 */
module InflateSpec {
  import opened BitStrings
  import opened HuffmanCode
  import opened Huft
  import opened Windows
  import opened Wrappers

  // ---------- lengths and distances ----------

  const LENGTHS: nat := 29
  const DISTANCES: nat := 30
  const END_OF_BLOCK: nat := 256

  const LENGTH_BASE: seq<nat> := [3, 4, 5, 6, 7, 8, 9, 10, 11, 13, 15, 17, 19, 23, 27, 31, 35, 43, 51, 59, 67, 83, 99, 115,
    131, 163, 195, 227, 258]
  const LENGTH_EXTRA: seq<nat> := [0, 0, 0, 0, 0, 0, 0, 0, 1, 1, 1, 1, 2, 2, 2, 2, 3, 3, 3, 3, 4, 4, 4, 4, 5, 5, 5, 5, 0]
  const DIST_BASE: seq<nat> := [1, 2, 3, 4, 5, 7, 9, 13, 17, 25, 33, 49, 65, 97, 129, 193, 257, 385, 513, 769, 1025, 1537,
    2049, 3073, 4097, 6145, 8193, 12289, 16385, 24577]
  const DIST_EXTRA: seq<nat> := [0, 0, 0, 0, 1, 1, 2, 2, 3, 3, 4, 4, 5, 5, 6, 6, 7, 7, 8, 8, 9, 9, 10, 10, 11, 11, 12, 12,
    13, 13]

  function LengthBase(k: nat): (n: nat)
    requires k < LENGTHS
    ensures 3 <= n <= 258
  {
    LENGTH_BASE[k]
  }

  function LengthExtra(k: nat): (n: nat)
    requires k < LENGTHS
    ensures n <= 5
  {
    LENGTH_EXTRA[k]
  }

  function DistBase(k: nat): (n: nat)
    requires k < DISTANCES
    ensures n >= 1
  {
    DIST_BASE[k]
  }

  function DistExtra(k: nat): (n: nat)
    requires k < DISTANCES
    ensures n <= 13
  {
    DIST_EXTRA[k]
  }

  /** No distance is beyond the window. */
  lemma DistFits(k: nat, x: nat)
    requires k < DISTANCES && x < Pow2(DistExtra(k))
    ensures DistBase(k) + x <= WSIZE
  {
    var e := DistExtra(k);
    assert Pow2(0) == 1 && Pow2(1) == 2 && Pow2(2) == 4 && Pow2(3) == 8 && Pow2(4) == 16 && Pow2(5) == 32 && Pow2(6) == 64;
    assert Pow2(7) == 128 && Pow2(8) == 256 && Pow2(9) == 512 && Pow2(10) == 1024 && Pow2(11) == 2048 && Pow2(12) == 4096;
    assert Pow2(13) == 8192;
  }

  // ---------- one code ----------

  /** A set of code lengths that is not over-subscribed. */
  ghost predicate CodeSet(b: seq<nat>) {
    !AllZero(b) && Spare(b) >= 0
  }

  /** One code at most begins a stream, and leaves one rest. */
  lemma {:induction false} CodeUnique(b: seq<nat>, x: nat, y: nat, r: seq<bool>, r': seq<bool>)
    requires CodeSet(b) && x < |b| && y < |b| && b[x] >= 1 && b[y] >= 1 && CodeWord(b, x) + r == CodeWord(b, y) + r'
    ensures x == y && r == r'
  {
    var g, n := Longest(b), Spare(b);
    LongestIn(b);
    PaddedComplete(b, Shortest(b), g, n);
    PaddedCode(b, g, n, x);
    PaddedCode(b, g, n, y);
    OneCode(Padded(b, g, n), g, CodeWord(b, x) + r, x, y);
    SameRest(CodeWord(b, x), r, r');
  }

  lemma SameRest(a: seq<bool>, r: seq<bool>, r': seq<bool>)
    requires a + r == a + r'
    ensures r == r'
  {
    assert r == (a + r)[|a|..] && r' == (a + r')[|a|..];
  }

  /** Nor do extra bits leave a choice. */
  lemma ExtraUnique(x: nat, y: nat, n: nat, r: seq<bool>, r': seq<bool>)
    requires x < Pow2(n) && y < Pow2(n) && FromLsb(x, n) + r == FromLsb(y, n) + r'
    ensures x == y && r == r'
  {
    assert FromLsb(x, n) == (FromLsb(x, n) + r)[..n] == FromLsb(y, n);
    FromLsbIs(x, n);
    FromLsbIs(y, n);
    SameRest(FromLsb(x, n), r, r');
  }

  // ---------- what an encoder may write ----------

  /** A literal, or a length and a distance with their extra bits. */
  datatype Token = Lit(byte: Byte) | Copy(len: nat, lx: nat, dist: nat, dx: nat)

  /** The symbol of the literal or length. */
  function Sym(t: Token): nat {
    match t
    case Lit(byte) => byte
    case Copy(len, _, _, _) => 257 + len
  }

  ghost predicate HasCode(b: seq<nat>, sym: nat) {
    sym < |b| && b[sym] >= 1
  }

  ghost predicate DistOk(bd: seq<nat>, dist: nat, dx: nat) {
    dist < DISTANCES && HasCode(bd, dist) && dx < Pow2(DistExtra(dist))
  }

  /** The token may be written in these codes. */
  ghost predicate TokenOk(bl: seq<nat>, bd: seq<nat>, t: Token) {
    && HasCode(bl, Sym(t))
    && (t.Copy? ==> t.len < LENGTHS && t.lx < Pow2(LengthExtra(t.len)) && DistOk(bd, t.dist, t.dx))
  }

  ghost function DistBits(bd: seq<nat>, dist: nat, dx: nat): seq<bool>
    requires DistOk(bd, dist, dx)
  {
    CodeWord(bd, dist) + FromLsb(dx, DistExtra(dist))
  }

  /** What follows the code of the symbol. */
  ghost function Tail(bl: seq<nat>, bd: seq<nat>, t: Token): seq<bool>
    requires TokenOk(bl, bd, t)
  {
    match t
    case Lit(_) => []
    case Copy(len, lx, dist, dx) => FromLsb(lx, LengthExtra(len)) + DistBits(bd, dist, dx)
  }

  ghost function TokenBits(bl: seq<nat>, bd: seq<nat>, t: Token): seq<bool>
    requires TokenOk(bl, bd, t)
  {
    CodeWord(bl, Sym(t)) + Tail(bl, bd, t)
  }

  ghost predicate TokensOk(bl: seq<nat>, bd: seq<nat>, ts: seq<Token>) {
    forall i :: 0 <= i < |ts| ==> TokenOk(bl, bd, ts[i])
  }

  ghost function Bits(bl: seq<nat>, bd: seq<nat>, ts: seq<Token>): seq<bool>
    requires TokensOk(bl, bd, ts)
  {
    if ts == [] then [] else TokenBits(bl, bd, ts[0]) + Bits(bl, bd, ts[1..])
  }

  /** The stream is a block of these tokens, its end, and the rest. */
  ghost predicate IsBlock(bl: seq<nat>, bd: seq<nat>, s: seq<bool>, ts: seq<Token>, rest: seq<bool>) {
    HasCode(bl, END_OF_BLOCK) && TokensOk(bl, bd, ts) && s == Bits(bl, bd, ts) + (CodeWord(bl, END_OF_BLOCK) + rest)
  }

  /** The output after a token; nothing if it copies from before the beginning. */
  ghost function After(t: Token, h: seq<Byte>): Option<seq<Byte>> {
    match t
    case Lit(byte) => Some(h + [byte])
    case Copy(len, lx, dist, dx) =>
      if len >= LENGTHS || dist >= DISTANCES || DistBase(dist) + dx > |h| then None
      else Some(Copied(h, DistBase(dist) + dx, LengthBase(len) + lx))
  }

  /** The output after all of them. */
  ghost function Output(ts: seq<Token>, h: seq<Byte>): Option<seq<Byte>> {
    if ts == [] then Some(h)
    else match After(ts[0], h)
      case None => None
      case Some(h1) => Output(ts[1..], h1)
  }

  // ---------- one block at most ----------

  ghost function FirstSym(ts: seq<Token>): nat {
    if ts == [] then END_OF_BLOCK else Sym(ts[0])
  }

  /** What follows the first code of a block. */
  ghost function Behind(bl: seq<nat>, bd: seq<nat>, ts: seq<Token>, rest: seq<bool>): seq<bool>
    requires HasCode(bl, END_OF_BLOCK) && TokensOk(bl, bd, ts)
  {
    if ts == [] then rest else Tail(bl, bd, ts[0]) + (Bits(bl, bd, ts[1..]) + (CodeWord(bl, END_OF_BLOCK) + rest))
  }

  lemma Assoc(a: seq<bool>, b: seq<bool>, c: seq<bool>)
    ensures (a + b) + c == a + (b + c)
  {
  }

  lemma BlockBegins(bl: seq<nat>, bd: seq<nat>, s: seq<bool>, ts: seq<Token>, rest: seq<bool>)
    requires IsBlock(bl, bd, s, ts, rest)
    ensures HasCode(bl, FirstSym(ts)) && FirstSym(ts) < 257 + LENGTHS
    ensures s == CodeWord(bl, FirstSym(ts)) + Behind(bl, bd, ts, rest) && |rest| <= |Behind(bl, bd, ts, rest)|
  {
    var end := CodeWord(bl, END_OF_BLOCK) + rest;
    if ts != [] {
      var c, x, b := CodeWord(bl, Sym(ts[0])), Tail(bl, bd, ts[0]), Bits(bl, bd, ts[1..]);
      Assoc(c + x, b, end);
      Assoc(c, x, b + end);
    }
  }

  /** A block whose first code is known. */
  lemma FirstKnown(bl: seq<nat>, bd: seq<nat>, s: seq<bool>, ts: seq<Token>, rest: seq<bool>, sym: nat, t: seq<bool>)
    requires CodeSet(bl) && IsBlock(bl, bd, s, ts, rest) && HasCode(bl, sym) && s == CodeWord(bl, sym) + t
    ensures FirstSym(ts) == sym && t == Behind(bl, bd, ts, rest) && |rest| <= |t|
  {
    BlockBegins(bl, bd, s, ts, rest);
    CodeUnique(bl, sym, FirstSym(ts), t, Behind(bl, bd, ts, rest));
  }

  /** A block whose first length is known goes on with a distance. */
  lemma LengthKnown(bl: seq<nat>, bd: seq<nat>, s: seq<bool>, ts: seq<Token>, rest: seq<bool>, len: nat, lx: nat, t: seq<bool>)
    requires CodeSet(bl) && IsBlock(bl, bd, s, ts, rest) && len < LENGTHS && HasCode(bl, 257 + len) && lx < Pow2(LengthExtra(len))
    requires s == CodeWord(bl, 257 + len) + (FromLsb(lx, LengthExtra(len)) + t)
    ensures ts != [] && ts[0].Copy? && ts[0].len == len && ts[0].lx == lx && TokenOk(bl, bd, ts[0])
    ensures t == DistBits(bd, ts[0].dist, ts[0].dx) + (Bits(bl, bd, ts[1..]) + (CodeWord(bl, END_OF_BLOCK) + rest))
  {
    FirstKnown(bl, bd, s, ts, rest, 257 + len, FromLsb(lx, LengthExtra(len)) + t);
    var more, d := Bits(bl, bd, ts[1..]) + (CodeWord(bl, END_OF_BLOCK) + rest), DistBits(bd, ts[0].dist, ts[0].dx);
    Assoc(FromLsb(ts[0].lx, LengthExtra(len)), d, more);
    ExtraUnique(lx, ts[0].lx, LengthExtra(len), t, d + more);
  }

  lemma DistKnown(bd: seq<nat>, dist: nat, dx: nat, r: seq<bool>, dist': nat, dx': nat, r': seq<bool>)
    requires CodeSet(bd) && DistOk(bd, dist, dx) && DistOk(bd, dist', dx') && DistBits(bd, dist, dx) + r == DistBits(bd, dist', dx') + r'
    ensures dist == dist' && dx == dx' && r == r'
  {
    var y, y' := FromLsb(dx, DistExtra(dist)), FromLsb(dx', DistExtra(dist'));
    Assoc(CodeWord(bd, dist), y, r);
    Assoc(CodeWord(bd, dist'), y', r');
    CodeUnique(bd, dist, dist', y + r, y' + r');
    ExtraUnique(dx, dx', DistExtra(dist), r, r');
  }

  /** A block that begins with a token goes on behind it. */
  lemma TokenKnown(bl: seq<nat>, bd: seq<nat>, s: seq<bool>, ts: seq<Token>, rest: seq<bool>, t: Token, more: seq<bool>)
    requires CodeSet(bl) && CodeSet(bd) && IsBlock(bl, bd, s, ts, rest) && TokenOk(bl, bd, t) && s == TokenBits(bl, bd, t) + more
    ensures ts != [] && ts[0] == t && IsBlock(bl, bd, more, ts[1..], rest)
  {
    Assoc(CodeWord(bl, Sym(t)), Tail(bl, bd, t), more);
    if t.Copy? {
      CopyKnown(bl, bd, s, ts, rest, t, more);
    } else {
      LitKnown(bl, bd, s, ts, rest, t, more);
    }
  }

  lemma LitKnown(bl: seq<nat>, bd: seq<nat>, s: seq<bool>, ts: seq<Token>, rest: seq<bool>, t: Token, more: seq<bool>)
    requires CodeSet(bl) && IsBlock(bl, bd, s, ts, rest) && TokenOk(bl, bd, t) && t.Lit?
    requires s == CodeWord(bl, Sym(t)) + (Tail(bl, bd, t) + more)
    ensures ts != [] && ts[0] == t && IsBlock(bl, bd, more, ts[1..], rest)
  {
    assert Tail(bl, bd, t) + more == more;
    FirstKnown(bl, bd, s, ts, rest, Sym(t), more);
    var after := Bits(bl, bd, ts[1..]) + (CodeWord(bl, END_OF_BLOCK) + rest);
    assert Tail(bl, bd, ts[0]) + after == after;
  }

  lemma CopyKnown(bl: seq<nat>, bd: seq<nat>, s: seq<bool>, ts: seq<Token>, rest: seq<bool>, t: Token, more: seq<bool>)
    requires CodeSet(bl) && CodeSet(bd) && IsBlock(bl, bd, s, ts, rest) && TokenOk(bl, bd, t) && t.Copy?
    requires s == CodeWord(bl, Sym(t)) + (Tail(bl, bd, t) + more)
    ensures ts != [] && ts[0] == t && IsBlock(bl, bd, more, ts[1..], rest)
  {
    var d := DistBits(bd, t.dist, t.dx);
    Assoc(FromLsb(t.lx, LengthExtra(t.len)), d, more);
    LengthKnown(bl, bd, s, ts, rest, t.len, t.lx, d + more);
    DistKnown(bd, t.dist, t.dx, more, ts[0].dist, ts[0].dx, Bits(bl, bd, ts[1..]) + (CodeWord(bl, END_OF_BLOCK) + rest));
  }

  /** A block that begins with these tokens goes on behind them. */
  lemma {:induction false} TokensKnown(bl: seq<nat>, bd: seq<nat>, s: seq<bool>, ts: seq<Token>, rest: seq<bool>,
                                       done: seq<Token>, more: seq<bool>)
    requires CodeSet(bl) && CodeSet(bd) && IsBlock(bl, bd, s, ts, rest) && TokensOk(bl, bd, done) && s == Bits(bl, bd, done) + more
    ensures done <= ts && IsBlock(bl, bd, more, ts[|done|..], rest)
    decreases |done|
  {
    if done == [] {
      assert s == more;
    } else {
      var t := Bits(bl, bd, done[1..]) + more;
      Assoc(TokenBits(bl, bd, done[0]), Bits(bl, bd, done[1..]), more);
      TokenKnown(bl, bd, s, ts, rest, done[0], t);
      TokensKnown(bl, bd, t, ts[1..], rest, done[1..], more);
      Joined(done, ts);
    }
  }

  lemma Joined(done: seq<Token>, ts: seq<Token>)
    requires done != [] && ts != [] && done[0] == ts[0] && done[1..] <= ts[1..]
    ensures done <= ts && ts[|done|..] == ts[1..][|done| - 1..]
  {
    assert done == [done[0]] + done[1..];
    assert ts == [ts[0]] + ts[1..];
  }

  /** A stream is a block in one way at most. */
  lemma BlockUnique(bl: seq<nat>, bd: seq<nat>, s: seq<bool>, ts: seq<Token>, rest: seq<bool>, ts': seq<Token>, rest': seq<bool>)
    requires CodeSet(bl) && CodeSet(bd) && IsBlock(bl, bd, s, ts, rest) && IsBlock(bl, bd, s, ts', rest')
    ensures ts == ts' && rest == rest'
  {
    TokensKnown(bl, bd, s, ts, rest, ts', CodeWord(bl, END_OF_BLOCK) + rest');
    FirstKnown(bl, bd, CodeWord(bl, END_OF_BLOCK) + rest', ts[|ts'|..], rest, END_OF_BLOCK, rest');
  }

  // ---------- token by token ----------

  lemma {:induction false} BitsSnoc(bl: seq<nat>, bd: seq<nat>, ts: seq<Token>, t: Token)
    requires TokensOk(bl, bd, ts) && TokenOk(bl, bd, t)
    ensures TokensOk(bl, bd, ts + [t]) && Bits(bl, bd, ts + [t]) == Bits(bl, bd, ts) + TokenBits(bl, bd, t)
  {
    if ts == [] {
      assert Bits(bl, bd, [t][1..]) == [];
    } else {
      BitsSnoc(bl, bd, ts[1..], t);
      assert (ts + [t])[1..] == ts[1..] + [t];
      Assoc(TokenBits(bl, bd, ts[0]), Bits(bl, bd, ts[1..]), TokenBits(bl, bd, t));
    }
  }

  lemma {:induction false} OutputSplit(a: seq<Token>, b: seq<Token>, h: seq<Byte>)
    ensures Output(a + b, h) == match Output(a, h) case None => None case Some(h1) => Output(b, h1)
  {
    if a == [] {
      assert a + b == b;
    } else {
      assert (a + b)[1..] == a[1..] + b;
      if After(a[0], h).Some? {
        OutputSplit(a[1..], b, After(a[0], h).value);
      }
    }
  }
}
