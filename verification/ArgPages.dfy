/**
 The argument pages of fs/exec.c: `copy_strings` copies strings downwards into pages made as they are needed, a byte or
 a stretch of a page at a time, and `remove_arg_zero` steps over the first of them.
 */
module ArgPages {
  type Byte = bv8

  /** Pages by number; a page that is not there yet counts as zeros. */
  type Pages = map<nat, seq<Byte>>

  predicate PagesOk(pages: Pages) {
    forall k :: k in pages ==> |pages[k]| == 4096
  }

  function ByteAt(pages: Pages, x: nat): Byte
    requires PagesOk(pages)
  {
    if x / 4096 in pages then pages[x / 4096][x % 4096] else 0
  }

  /** The bytes from a on are `data`, all others as they were. */
  ghost predicate Wrote(was: Pages, now: Pages, a: nat, data: seq<Byte>) {
    && PagesOk(was) && PagesOk(now)
    && forall x: nat :: ByteAt(now, x) == if a <= x < a + |data| then data[x - a] else ByteAt(was, x)
  }

  lemma SamePage(k: nat, o: nat, x: nat)
    requires o < 4096
    ensures (k * 4096 + o) / 4096 == k && (k * 4096 + o) % 4096 == o
    ensures x / 4096 == k <==> k * 4096 <= x < k * 4096 + 4096
    ensures x / 4096 == k ==> x % 4096 == x - k * 4096
  {
  }

  function Zeros(): (r: seq<Byte>)
    ensures |r| == 4096 && forall i :: 0 <= i < |r| ==> r[i] == 0
  {
    seq(4096, _ => 0)
  }

  /** A page of zeros makes no difference. */
  lemma FreshPage(pages: Pages, k: nat, a: nat)
    requires PagesOk(pages) && k !in pages
    ensures Wrote(pages, pages[k := Zeros()], a, [])
  {
  }

  /** A stretch of one page overwritten. */
  function Poked(pages: Pages, k: nat, o: nat, data: seq<Byte>): Pages
    requires k in pages && PagesOk(pages) && o + |data| <= 4096
  {
    pages[k := pages[k][..o] + data + pages[k][o + |data|..]]
  }

  lemma PokedWrote(pages: Pages, k: nat, o: nat, data: seq<Byte>)
    requires k in pages && PagesOk(pages) && o < 4096 && o + |data| <= 4096
    ensures Wrote(pages, Poked(pages, k, o, data), k * 4096 + o, data)
  {
    var now := Poked(pages, k, o, data);
    forall x: nat
      ensures ByteAt(now, x) == if k * 4096 + o <= x < k * 4096 + o + |data| then data[x - (k * 4096 + o)] else ByteAt(pages, x)
    {
      SamePage(k, o, x);
    }
  }

  lemma WroteBefore(m0: Pages, m1: Pages, m2: Pages, a: nat, d1: seq<Byte>, d2: seq<Byte>)
    requires Wrote(m0, m1, a + |d2|, d1) && Wrote(m1, m2, a, d2)
    ensures Wrote(m0, m2, a, d2 + d1)
  {
  }

  lemma StretchDone(m0: Pages, m1: Pages, m2: Pages, a: nat, str: seq<Byte>, i: nat, j: nat)
    requires i <= j <= |str| && Wrote(m0, m1, a + (j - i), str[j..]) && Wrote(m1, m2, a, str[i..j])
    ensures Wrote(m0, m2, a, str[i..])
  {
    WroteBefore(m0, m1, m2, a, str[j..], str[i..j]);
    assert str[i..j] + str[j..] == str[i..];
  }

  /** The strings, each with a zero after it. */
  function Image(argv: seq<seq<Byte>>): seq<Byte> {
    if argv == [] then [] else argv[0] + [0] + Image(argv[1..])
  }

  class ArgSpace {
    var pages: Pages
    /** How many pages get_free_page can still give. */
    var memory: nat

    ghost predicate Valid()
      reads this
    {
      PagesOk(pages)
    }

    constructor (memory: nat)
      ensures Valid() && pages == map[]
    {
      pages, this.memory := map[], memory;
    }

    /** The page of an address, made if it is not there. */
    method GetPage(k: nat) returns (ok: bool)
      requires Valid()
      modifies this
      ensures Valid() && Wrote(old(pages), pages, 0, []) && (ok ==> k in pages) && (ok || memory == 0)
      ensures old(pages).Keys <= pages.Keys
    {
      ok := k in pages || memory > 0;
      if ok && k !in pages {
        FreshPage(pages, k, 0);
        pages := pages[k := Zeros()];
        memory := memory - 1;
      }
    }

    /** A stretch written into the page of address a. */
    method Poke(a: nat, k: nat, o: nat, data: seq<Byte>)
      requires Valid() && k in pages && a == k * 4096 + o && o < 4096 && o + |data| <= 4096
      modifies this`pages
      ensures Valid() && Wrote(old(pages), pages, a, data) && pages.Keys == old(pages).Keys
    {
      PokedWrote(pages, k, o, data);
      pages := Poked(pages, k, o, data);
    }

    /** One round of the inner loop of `copy_strings`: the last of the first len bytes, and those before it that go
        into the same page. */
    method CopyStretch(str: seq<Byte>, len0: nat, p0: nat, offset0: int, k0: nat)
      returns (ok: bool, len: nat, p: nat, offset: int, k: nat)
      requires Valid() && 1 <= len0 <= |str| && len0 <= p0 && Ready(pages, p0, offset0, k0)
      modifies this
      ensures Valid() && len <= len0 && p == p0 - (len0 - len) && Wrote(old(pages), pages, p, str[len..len0])
      ensures ok ==> len < len0 && Ready(pages, p, offset, k) && Present(pages, p, p0)
      ensures !ok ==> len == len0 && memory == 0
      ensures old(pages).Keys <= pages.Keys
    {
      p, len := p0 - 1, len0 - 1;
      ghost var was := pages;
      ok, offset, k := PageBefore(p0, offset0, k0);
      if !ok {
        p, len := p0, len0;
        WroteHere(was, pages, p);
        return;
      }
      ghost var page := pages;
      if len == 0 || offset == 0 {
        assert str[len..len0] == [str[len]];
        Poke(p, k, offset, [str[len]]);
      } else {
        var n := if len > offset then offset else len;
        p, offset, len := p - n, offset - n, len - n;
        Poke(p, k, offset, str[len..len0]);
      }
      WroteAfter(was, page, pages, p, str[len..len0]);
      OnePage(pages, k, p, p0);
    }

    /** The offset and the page of the address before p0. */
    method PageBefore(p0: nat, offset0: int, k0: nat) returns (ok: bool, offset: int, k: nat)
      requires Valid() && p0 >= 1 && Ready(pages, p0, offset0, k0)
      modifies this
      ensures Valid() && Wrote(old(pages), pages, 0, []) && old(pages).Keys <= pages.Keys
      ensures ok ==> k in pages && offset == (p0 - 1) % 4096 && k == (p0 - 1) / 4096 && p0 - 1 == k * 4096 + offset
      ensures !ok ==> memory == 0
    {
      ok, offset, k := true, offset0 - 1, k0;
      if offset < 0 {
        offset, k := (p0 - 1) % 4096, (p0 - 1) / 4096;
        ok := GetPage(k);
      } else {
        WroteSame(pages);
      }
    }

    /** One string with its zero, copied to end at p0. */
    method CopyString(str: seq<Byte>, p0: nat, offset0: int, k0: nat) returns (ok: bool, p: nat, offset: int, k: nat)
      requires Valid() && |str| <= p0 && Ready(pages, p0, offset0, k0)
      modifies this
      ensures Valid() && old(pages).Keys <= pages.Keys && p <= p0
      ensures ok ==> p == p0 - |str| && Wrote(old(pages), pages, p, str) && Ready(pages, p, offset, k) && Present(pages, p, p0)
      ensures !ok ==> memory == 0 && p0 - |str| <= p && Wrote(old(pages), pages, p, str[|str| - (p0 - p)..])
    {
      var len: nat := |str|;
      ok, p, offset, k := true, p0, offset0, k0;
      WroteSame(pages);
      WroteHere(pages, pages, p0);
      while len > 0
        invariant Valid() && len <= |str| && p == p0 - (|str| - len) && Wrote(old(pages), pages, p, str[len..])
        invariant Ready(pages, p, offset, k) && Present(pages, p, p0) && old(pages).Keys <= pages.Keys
      {
        ghost var was, len1, p1 := pages, len, p;
        ok, len, p, offset, k := CopyStretch(str, len, p, offset, k);
        StretchDone(old(pages), was, pages, p, str, len, len1);
        if !ok {
          return;
        }
      }
    }

    /** `copy_strings`: all strings, the last first, to end at p0; 0 if there is no room or no page. */
    method CopyStrings(argv: seq<seq<Byte>>, p0: nat) returns (p: nat)
      requires Valid()
      modifies this
      ensures Valid() && old(pages).Keys <= pages.Keys
      ensures p0 == 0 ==> p == 0 && pages == old(pages)
      ensures p > 0 ==> p + |Image(argv)| == p0 && Wrote(old(pages), pages, p, Image(argv)) && Present(pages, p, p0)
      ensures p == 0 ==> memory == 0 || |Image(argv)| >= p0
      ensures p == 0 ==> forall x: nat :: x >= p0 ==> ByteAt(pages, x) == ByteAt(old(pages), x)
    {
      p := p0;
      if p == 0 {
        return;
      }
      var argc: nat, offset, k := |argv|, 0, 0;
      assert argv[|argv|..] == [];
      WroteSame(pages);
      WroteHere(pages, pages, p0);
      while argc > 0
        invariant Valid() && argc <= |argv| && 0 <= p && p + |Image(argv[argc..])| == p0 && Ready(pages, p, offset, k)
        invariant Wrote(old(pages), pages, p, Image(argv[argc..])) && Present(pages, p, p0) && old(pages).Keys <= pages.Keys
      {
        ghost var was, p1 := pages, p;
        argc := argc - 1;
        var str := argv[argc] + [0];
        ImageStep(argv, argc);
        if p < |str| {
          ImageLonger(argv, argc);
          return 0;
        }
        var ok;
        ok, p, offset, k := CopyString(str, p, offset, k);
        if !ok {
          return 0;
        }
        WroteBefore(old(pages), was, pages, p, Image(argv[argc + 1..]), str);
      }
      assert argv[0..] == argv;
    }

    /** `remove_arg_zero`: on to the byte after the next zero. */
    method RemoveArgZero(p0: nat, argc0: nat, ghost z: nat) returns (p: nat, argc: nat)
      requires Valid() && (argc0 > 0 ==> p0 <= z && ByteAt(pages, z) == 0 && Present(pages, p0, z + 1))
      ensures argc0 == 0 ==> p == p0 && argc == 0
      ensures argc0 > 0 ==> argc == argc0 - 1 && AfterZero(pages, p0, p)
    {
      p, argc := p0, argc0;
      if argc == 0 {
        return;
      }
      var offset, k := p % 4096, p / 4096;
      assert k in pages;
      var c := pages[k][offset];
      p, offset := p + 1, offset + 1;
      while c != 0
        invariant p0 < p <= z + 1 && p == k * 4096 + offset && 1 <= offset <= 4096 && k in pages
        invariant c == ByteAt(pages, p - 1) && forall x :: p0 <= x < p - 1 ==> ByteAt(pages, x) != 0
        decreases z + 1 - p
      {
        assert p != z + 1;
        if offset == 4096 {
          offset := 0;
          k := p / 4096;
        }
        SamePage(k, offset, p);
        assert p / 4096 in pages;
        c := pages[k][offset];
        p, offset := p + 1, offset + 1;
      }
      argc := argc - 1;
    }
  }

  /** The byte before q is the first zero from p on. */
  ghost predicate AfterZero(pages: Pages, p: nat, q: nat) {
    PagesOk(pages) && p < q && ByteAt(pages, q - 1) == 0 && forall x :: p <= x < q - 1 ==> ByteAt(pages, x) != 0
  }

  /** Behind the first of the strings copied begin the others. */
  lemma {:induction false} StepsOverFirst(was: Pages, now: Pages, argv: seq<seq<Byte>>, p: nat, q: nat)
    requires Wrote(was, now, p, Image(argv)) && argv != [] && (forall i :: 0 <= i < |argv[0]| ==> argv[0][i] != 0)
    requires AfterZero(now, p, q)
    ensures q == p + |argv[0]| + 1 && q + |Image(argv[1..])| == p + |Image(argv)|
    ensures forall i :: 0 <= i < |Image(argv[1..])| ==> ByteAt(now, q + i) == Image(argv[1..])[i]
  {
    TwoParts(was, now, p, argv[0] + [0], Image(argv[1..]));
    FirstZero(now, p, q, argv[0] + [0]);
  }

  lemma TwoParts(was: Pages, now: Pages, p: nat, first: seq<Byte>, rest: seq<Byte>)
    requires Wrote(was, now, p, first + rest)
    ensures forall i :: 0 <= i < |first| ==> ByteAt(now, p + i) == first[i]
    ensures forall i :: 0 <= i < |rest| ==> ByteAt(now, p + |first| + i) == rest[i]
  {
    forall i | 0 <= i < |first|
      ensures ByteAt(now, p + i) == first[i]
    {
      assert (first + rest)[i] == first[i];
    }
    forall i | 0 <= i < |rest|
      ensures ByteAt(now, p + |first| + i) == rest[i]
    {
      assert (first + rest)[|first| + i] == rest[i];
    }
  }

  lemma FirstZero(now: Pages, p: nat, q: nat, first: seq<Byte>)
    requires AfterZero(now, p, q) && first != [] && first[|first| - 1] == 0
    requires forall i :: 0 <= i < |first| ==> ByteAt(now, p + i) == first[i]
    requires forall i :: 0 <= i < |first| - 1 ==> first[i] != 0
    ensures q == p + |first|
  {
    var i := q - 1 - p;
    assert ByteAt(now, p + (|first| - 1)) == 0;
    assert i < |first| ==> ByteAt(now, p + i) == first[i];
  }

  ghost predicate Present(pages: Pages, a: nat, b: nat) {
    forall x: nat :: a <= x < b ==> x / 4096 in pages
  }

  lemma OnePage(pages: Pages, k: nat, a: nat, b: nat)
    requires k in pages && k * 4096 <= a && b <= k * 4096 + 4096
    ensures Present(pages, a, b)
  {
    forall x: nat | a <= x < b
      ensures x / 4096 in pages
    {
      SamePage(k, 0, x);
    }
  }

  lemma ImageStep(argv: seq<seq<Byte>>, i: nat)
    requires i < |argv|
    ensures Image(argv[i..]) == argv[i] + [0] + Image(argv[i + 1..])
  {
    assert argv[i..][1..] == argv[i + 1..];
  }

  lemma {:induction false} ImageLonger(argv: seq<seq<Byte>>, i: nat)
    requires i <= |argv|
    ensures |Image(argv[i..])| <= |Image(argv)|
  {
    if i == 0 {
      assert argv[0..] == argv;
    } else {
      ImageStep(argv, i - 1);
      ImageLonger(argv, i - 1);
    }
  }

  /** The page at hand is that of address p, or the next byte needs another. */
  ghost predicate Ready(pages: Pages, p: nat, offset: int, k: nat) {
    offset == 0 || (offset == p % 4096 && k == p / 4096 && k in pages)
  }

  lemma WroteHere(was: Pages, now: Pages, a: nat)
    requires Wrote(was, now, 0, [])
    ensures Wrote(was, now, a, [])
  {
  }

  lemma WroteSame(pages: Pages)
    requires PagesOk(pages)
    ensures Wrote(pages, pages, 0, [])
  {
  }

  lemma WroteAfter(m0: Pages, m1: Pages, m2: Pages, a: nat, d: seq<Byte>)
    requires Wrote(m0, m1, 0, []) && Wrote(m1, m2, a, d)
    ensures Wrote(m0, m2, a, d)
  {
  }
}
