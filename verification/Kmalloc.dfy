/**
 The block allocator of mm/kmalloc.c: pages cut into blocks of one size, a chain of free blocks in each page, and
 for each size a list of the pages that have both free and used blocks.
 */
module Kmallocs {
  import opened Arithmetic
  import opened Wrappers

  const ORDERS: nat := 13
  const PAGE_SIZE: nat := 4096
  const PAGE_HEADER: nat := 16
  const BLOCK_HEADER: nat := 8

  function BlockSize(o: nat): (s: nat)
    requires o < ORDERS
    ensures s > 8
  {
    [32, 64, 128, 252, 508, 1020, 2040, 4080, 8176, 16368, 32752, 65520, 131056][o]
  }

  function NBlocks(o: nat): (n: nat)
    requires o < ORDERS
    ensures n > 0
  {
    [127, 63, 31, 16, 8, 4, 2, 1, 1, 1, 1, 1, 1][o]
  }

  function AreaSize(o: nat): (n: nat)
    requires o < ORDERS
    ensures n >= 4096
  {
    [4096, 4096, 4096, 4096, 4096, 4096, 4096, 4096, 8192, 16384, 32768, 65536, 131072][o]
  }

  /** A block is free and linked to the next free one of its page (-1 after the last), or in use. */
  datatype Block = Free(next: int) | Used(dma: bool, length: nat)

  datatype Page = Page(order: nat, firstfree: int, nfree: int, blocks: seq<Block>)

  // ---------- where blocks lie ----------

  /** Block i of the page at a. */
  function BlockAt(a: nat, o: nat, i: nat): nat
    requires o < ORDERS
  {
    a + PAGE_HEADER + i * BlockSize(o)
  }

  /** What `kmalloc` returns for it: the address after its header. */
  function UserAt(a: nat, o: nat, i: nat): nat
    requires o < ORDERS
  {
    BlockAt(a, o, i) + BLOCK_HEADER
  }

  /** What `kmalloc_init` checks: the blocks fit into their area.  And block headers lie in its first page. */
  lemma TableFits(o: nat)
    requires o < ORDERS
    ensures PAGE_HEADER + NBlocks(o) * BlockSize(o) <= AreaSize(o)
    ensures PAGE_HEADER + (NBlocks(o) - 1) * BlockSize(o) + BLOCK_HEADER < PAGE_SIZE
  {
  }

  lemma BlockInArea(a: nat, o: nat, i: nat)
    requires o < ORDERS && i < NBlocks(o)
    ensures BlockAt(a, o, i) + BlockSize(o) <= a + AreaSize(o) && UserAt(a, o, i) < a + PAGE_SIZE
  {
    TableFits(o);
    MulStep(BlockSize(o), i, NBlocks(o));
    MulStep(BlockSize(o), i, NBlocks(o) - 1);
  }

  /** The page that PAGE_DESC finds, and the number of the block there. */
  function PageAddr(x: nat): nat {
    x / 4096 * 4096
  }

  function BlockNo(x: nat, a: nat, o: nat): int
    requires o < ORDERS
  {
    (x - a - PAGE_HEADER - BLOCK_HEADER) / BlockSize(o)
  }

  /** Masking the address of a block gives its page. */
  lemma PageOfBlock(a: nat, o: nat, i: nat)
    requires o < ORDERS && i < NBlocks(o) && a % 4096 == 0
    ensures PageAddr(UserAt(a, o, i)) == a && BlockNo(UserAt(a, o, i), a, o) == i
  {
    BlockInArea(a, o, i);
    MulNonNeg(i, BlockSize(o));
    PageOf(a, UserAt(a, o, i) - a);
    DivModUnique(BlockSize(o), i, 0);
    assert UserAt(a, o, i) - a - PAGE_HEADER - BLOCK_HEADER == BlockSize(o) * i + 0;
  }

  lemma PageOf(a: nat, offset: nat)
    requires a % 4096 == 0 && offset < 4096
    ensures (a + offset) / 4096 * 4096 == a
  {
  }

  // ---------- the free chain of a page ----------

  /** The free blocks of a page, in the order of their links. */
  ghost predicate FreeChain(p: Page, chain: seq<nat>) {
    && p.firstfree == (if chain == [] then -1 else chain[0]) && p.nfree == |chain|
    && (forall i :: 0 <= i < |chain| ==> Links(p, chain, i))
    && (forall i, j :: 0 <= i < j < |chain| ==> chain[i] != chain[j])
    && (forall b :: 0 <= b < |p.blocks| && p.blocks[b].Free? ==> b in chain)
  }

  ghost predicate Links(p: Page, chain: seq<nat>, i: nat)
    requires i < |chain|
  {
    chain[i] < |p.blocks| && p.blocks[chain[i]] == Free(if i + 1 < |chain| then chain[i + 1] else -1)
  }

  ghost predicate PageOk(a: nat, p: Page, chain: seq<nat>, dma: bool) {
    && a % 4096 == 0 && a > 0 && p.order < ORDERS && |p.blocks| == NBlocks(p.order) && FreeChain(p, chain)
    && forall b :: 0 <= b < |p.blocks| && p.blocks[b].Used? ==> p.blocks[b].dma == dma
  }

  lemma {:induction false} AtMost(chain: seq<nat>, n: nat)
    requires (forall i, j :: 0 <= i < j < |chain| ==> chain[i] != chain[j]) && forall i :: 0 <= i < |chain| ==> chain[i] < n
    ensures |chain| <= n
    decreases n
  {
    assert chain != [] ==> chain[0] < n;
    if n > 0 && n - 1 in chain {
      var i :| 0 <= i < |chain| && chain[i] == n - 1;
      var rest := chain[..i] + chain[i + 1..];
      assert forall j :: 0 <= j < |rest| ==> rest[j] == chain[if j < i then j else j + 1];
      AtMost(rest, n - 1);
    } else if n > 0 {
      assert forall i :: 0 <= i < |chain| ==> chain[i] in chain;
      AtMost(chain, n - 1);
    }
  }

  /** As many different numbers below n as n are all of them. */
  lemma {:induction false} DistinctCovers(chain: seq<nat>, n: nat, b: nat)
    requires |chain| == n && (forall i, j :: 0 <= i < j < n ==> chain[i] != chain[j]) && forall i :: 0 <= i < n ==> chain[i] < n
    requires b < n
    ensures b in chain
  {
    if b !in chain {
      AtMost(chain + [b], n);
    }
  }

  /** With as many free blocks as blocks, every block is free. */
  lemma AllFree(a: nat, p: Page, chain: seq<nat>, dma: bool)
    requires PageOk(a, p, chain, dma) && p.nfree == NBlocks(p.order)
    ensures forall b :: 0 <= b < |p.blocks| ==> p.blocks[b].Free?
  {
    forall i | 0 <= i < |chain|
      ensures chain[i] < |p.blocks| && p.blocks[chain[i]].Free?
    {
      assert Links(p, chain, i);
    }
    forall b | 0 <= b < |p.blocks|
      ensures p.blocks[b].Free?
    {
      DistinctCovers(chain, |p.blocks|, b);
    }
  }

  /** The first free block is taken. */
  function Taken(p: Page, dma: bool, size: nat): Page
    requires 0 <= p.firstfree < |p.blocks| && p.blocks[p.firstfree].Free?
  {
    var b := p.firstfree;
    p.(firstfree := p.blocks[b].next, nfree := p.nfree - 1, blocks := p.blocks[b := Used(dma, size)])
  }

  lemma TakenOk(a: nat, p: Page, chain: seq<nat>, dma: bool, size: nat)
    requires PageOk(a, p, chain, dma) && p.nfree > 0
    ensures 0 <= p.firstfree < |p.blocks| && p.blocks[p.firstfree].Free?
    ensures PageOk(a, Taken(p, dma, size), chain[1..], dma)
  {
    assert Links(p, chain, 0);
    var p', rest := Taken(p, dma, size), chain[1..];
    forall i | 0 <= i < |rest|
      ensures Links(p', rest, i)
    {
      assert Links(p, chain, i + 1);
    }
    forall b | 0 <= b < |p'.blocks| && p'.blocks[b].Free?
      ensures b in rest
    {
      assert b in chain;
    }
  }

  /** A used block is given back. */
  function Returned(p: Page, b: nat): Page
    requires b < |p.blocks|
  {
    p.(firstfree := b, nfree := p.nfree + 1, blocks := p.blocks[b := Free(p.firstfree)])
  }

  lemma ReturnedOk(a: nat, p: Page, chain: seq<nat>, dma: bool, b: nat)
    requires PageOk(a, p, chain, dma) && b < |p.blocks| && p.blocks[b].Used?
    ensures PageOk(a, Returned(p, b), [b] + chain, dma)
  {
    var p', chain' := Returned(p, b), [b] + chain;
    forall i | 0 <= i < |chain'|
      ensures Links(p', chain', i)
    {
      if i > 0 {
        assert Links(p, chain, i - 1);
      }
    }
    forall i, j | 0 <= i < j < |chain'|
      ensures chain'[i] != chain'[j]
    {
      assert Links(p, chain, j - 1);
    }
    forall x | 0 <= x < |p'.blocks| && p'.blocks[x].Free?
      ensures x in chain'
    {
      if x == b {
        assert chain'[0] == b;
      } else {
        assert x in chain;
      }
    }
  }

  // ---------- all pages ----------

  /** What is known of a page beside what it holds: its free chain and whether it is for DMA. */
  datatype Info = Info(chain: seq<nat>, dma: bool)

  type Lists = map<(nat, bool), seq<nat>>

  ghost predicate Apart(pages: map<nat, Page>) {
    forall a, b :: a in pages && b in pages && a < b ==> pages[a].order < ORDERS && a + AreaSize(pages[a].order) <= b
  }

  /** A list holds the pages of its order and kind that have a free block, each once. */
  ghost predicate ListOk(pages: map<nat, Page>, info: map<nat, Info>, list: seq<nat>, o: nat, dma: bool) {
    && (forall i, j :: 0 <= i < j < |list| ==> list[i] != list[j])
    && (forall a :: a in list <==> Belongs(pages, info, a, o, dma))
  }

  ghost predicate Belongs(pages: map<nat, Page>, info: map<nat, Info>, a: nat, o: nat, dma: bool) {
    a in pages && a in info && pages[a].order == o && info[a].dma == dma && pages[a].nfree > 0
  }

  /** As an equation, which the verifier passes on whole. */
  ghost predicate HeapOk(pages: map<nat, Page>, info: map<nat, Info>, lists: Lists) {
    HeapSound(pages, info, lists) == true
  }

  ghost predicate HeapSound(pages: map<nat, Page>, info: map<nat, Info>, lists: Lists) {
    && pages.Keys == info.Keys && Apart(pages)
    && (forall a :: a in pages ==> PageOk(a, pages[a], info[a].chain, info[a].dma))
    && (forall o, d :: 0 <= o < ORDERS ==> (o, d) in lists && ListOk(pages, info, lists[(o, d)], o, d))
  }

  /** No page is wholly free. */
  ghost predicate NoneIdle(pages: map<nat, Page>) {
    forall a :: a in pages ==> pages[a].order < ORDERS && pages[a].nfree < NBlocks(pages[a].order)
  }

  /** A page with other contents, and its list changed as that calls for. */
  lemma PageChanged(pages: map<nat, Page>, info: map<nat, Info>, lists: Lists, a: nat, p: Page, chain: seq<nat>, list: seq<nat>)
    requires HeapOk(pages, info, lists) && a in pages && p.order == pages[a].order && PageOk(a, p, chain, info[a].dma)
    requires forall i, j :: 0 <= i < j < |list| ==> list[i] != list[j]
    requires forall x :: x in list <==> if x == a then chain != [] else x in lists[(p.order, info[a].dma)]
    ensures HeapOk(pages[a := p], info[a := Info(chain, info[a].dma)], lists[(p.order, info[a].dma) := list])
  {
    var key := (p.order, info[a].dma);
    var pages', info', lists' := pages[a := p], info[a := Info(chain, info[a].dma)], lists[key := list];
    forall o, d | 0 <= o < ORDERS
      ensures (o, d) in lists' && ListOk(pages', info', lists'[(o, d)], o, d)
    {
      assert ListOk(pages, info, lists[(o, d)], o, d);
      forall x
        ensures x in lists'[(o, d)] <==> Belongs(pages', info', x, o, d)
      {
        assert x in lists[(o, d)] <==> Belongs(pages, info, x, o, d);
        assert (o, d) == key ==> x in list || x !in list;
      }
    }
  }

  /** A page given up. */
  lemma PageGone(pages: map<nat, Page>, info: map<nat, Info>, lists: Lists, a: nat, list: seq<nat>)
    requires HeapOk(pages, info, lists) && a in pages
    requires forall i, j :: 0 <= i < j < |list| ==> list[i] != list[j]
    requires forall x :: x in list <==> x != a && x in lists[(pages[a].order, info[a].dma)]
    ensures HeapOk(pages - {a}, info - {a}, lists[(pages[a].order, info[a].dma) := list])
  {
    var key := (pages[a].order, info[a].dma);
    var pages', info', lists' := pages - {a}, info - {a}, lists[key := list];
    forall o, d | 0 <= o < ORDERS
      ensures (o, d) in lists' && ListOk(pages', info', lists'[(o, d)], o, d)
    {
      assert ListOk(pages, info, lists[(o, d)], o, d);
      forall x
        ensures x in lists'[(o, d)] <==> Belongs(pages', info', x, o, d)
      {
        assert x in lists[(o, d)] <==> Belongs(pages, info, x, o, d);
      }
    }
  }

  /** A new page at the head of its list. */
  lemma PageNew(pages: map<nat, Page>, info: map<nat, Info>, lists: Lists, a: nat, p: Page, chain: seq<nat>, dma: bool)
    requires HeapOk(pages, info, lists) && a !in pages && PageOk(a, p, chain, dma) && chain != []
    requires forall b :: b in pages ==> a + AreaSize(p.order) <= b || b + AreaSize(pages[b].order) <= a
    ensures HeapOk(pages[a := p], info[a := Info(chain, dma)], lists[(p.order, dma) := [a] + lists[(p.order, dma)]])
  {
    var key := (p.order, dma);
    var pages', info', lists' := pages[a := p], info[a := Info(chain, dma)], lists[key := [a] + lists[key]];
    assert ListOk(pages, info, lists[key], p.order, dma);
    assert a !in lists[key];
    forall o, d | 0 <= o < ORDERS
      ensures (o, d) in lists' && ListOk(pages', info', lists'[(o, d)], o, d)
    {
      assert ListOk(pages, info, lists[(o, d)], o, d);
      forall x
        ensures x in lists'[(o, d)] <==> Belongs(pages', info', x, o, d)
      {
        assert x in lists[(o, d)] <==> Belongs(pages, info, x, o, d);
      }
    }
  }

  // ---------- the blocks in use ----------

  /** Block b of the page at a is in use with this length, and x is its address. */
  ghost predicate LiveAt(pages: map<nat, Page>, a: nat, b: nat, x: nat, length: nat) {
    && a in pages && pages[a].order < ORDERS && b < |pages[a].blocks| && pages[a].blocks[b].Used?
    && pages[a].blocks[b].length == length && x == UserAt(a, pages[a].order, b)
  }

  /** Memory of this length at x has been given out. */
  ghost predicate Live(pages: map<nat, Page>, x: nat, length: nat) {
    exists a: nat, b: nat :: LiveAt(pages, a, b, x, length)
  }

  /** Every block in use is as long as was asked for. */
  ghost predicate LongEnough(pages: map<nat, Page>) {
    forall a: nat, b: nat, x: nat, n: nat :: LiveAt(pages, a, b, x, n) ==> n + BLOCK_HEADER <= BlockSize(pages[a].order)
  }

  lemma BlocksApart(a: nat, o: nat, i: nat, j: nat)
    requires o < ORDERS && i < j
    ensures BlockAt(a, o, i) + BlockSize(o) <= BlockAt(a, o, j)
  {
    MulStep(BlockSize(o), i, j);
  }

  /** Blocks in use do not overlap, headers included, and lie in the areas of their pages. */
  lemma LiveDisjoint(pages: map<nat, Page>, info: map<nat, Info>, lists: Lists,
                     a: nat, i: nat, x: nat, m: nat, b: nat, j: nat, y: nat, n: nat)
    requires HeapOk(pages, info, lists) && LongEnough(pages)
    requires LiveAt(pages, a, i, x, m) && LiveAt(pages, b, j, y, n) && (a, i) != (b, j)
    ensures x + m + BLOCK_HEADER <= y || y + n + BLOCK_HEADER <= x
    ensures a + PAGE_HEADER + BLOCK_HEADER <= x && x + m <= a + AreaSize(pages[a].order)
  {
    var o, p := pages[a].order, pages[b].order;
    MulNonNeg(i, BlockSize(o));
    MulNonNeg(j, BlockSize(p));
    BlockInArea(a, o, i);
    BlockInArea(b, p, j);
    if a == b {
      if i < j {
        BlocksApart(a, o, i, j);
      } else {
        BlocksApart(a, o, j, i);
      }
    }
  }

  lemma LiveSame(a: nat, o: nat, i: nat, b: nat, p: nat, j: nat)
    requires o < ORDERS && p < ORDERS && i < NBlocks(o) && j < NBlocks(p) && a % 4096 == 0 && b % 4096 == 0
    requires UserAt(a, o, i) == UserAt(b, p, j)
    ensures a == b && (o == p ==> i == j)
  {
    PageOfBlock(a, o, i);
    PageOfBlock(b, p, j);
  }

  /** Memory for `size` bytes needs a block of this many. */
  function RealSize(size: nat): nat {
    (size + BLOCK_HEADER) % 0x1_0000_0000
  }

  /** The least order, from k on, whose blocks have the bytes needed. */
  function LeastOrder(need: nat, k: nat): (o: Option<nat>)
    requires k <= ORDERS
    ensures o.Some? ==> k <= o.value < ORDERS && need <= BlockSize(o.value)
    ensures o.Some? ==> forall j :: k <= j < o.value ==> BlockSize(j) < need
    ensures o.None? ==> forall j :: k <= j < ORDERS ==> BlockSize(j) < need
    decreases ORDERS - k
  {
    if k == ORDERS then None else if need <= BlockSize(k) then Some(k) else LeastOrder(need, k + 1)
  }

  function OrderOf(size: nat): Option<nat> {
    LeastOrder(RealSize(size), 0)
  }

  /** The search for the block size.  The sum is taken in 32 bits. */
  method OrderFor(size: nat) returns (o: Option<nat>)
    ensures o == OrderOf(size) && (o.None? <==> RealSize(size) > BlockSize(ORDERS - 1))
  {
    var need := RealSize(size);
    var k := 0;
    while k < ORDERS && need > BlockSize(k)
      invariant 0 <= k <= ORDERS && LeastOrder(need, k) == OrderOf(size)
    {
      k := k + 1;
    }
    SizesAscend(k);
    return if k < ORDERS then Some(k) else None;
  }

  lemma SizesAscend(k: nat)
    ensures k < ORDERS ==> BlockSize(k) <= BlockSize(ORDERS - 1)
  {
  }

  /** A request finds a block long enough exactly when adding the header does not wrap. */
  lemma WrapIsShort(size: nat, o: nat)
    requires o < ORDERS && size < 0x1_0000_0000 && RealSize(size) <= BlockSize(o)
    ensures size + BLOCK_HEADER <= BlockSize(o) <==> size + BLOCK_HEADER < 0x1_0000_0000
  {
  }

  /** A request of 0xffff_fff8 bytes finds a block of the smallest order. */
  lemma ShortBlockExample()
    ensures RealSize(0xffff_fff8) == 0 && OrderOf(0xffff_fff8) == Some(0) && BlockSize(0) < 0xffff_fff8
  {
    assert BLOCK_HEADER == 8;
  }

  /** The blocks of a new page, each linked to the next. */
  method NewPage(o: nat) returns (p: Page, ghost chain: seq<nat>)
    requires o < ORDERS
    ensures p.order == o && |p.blocks| == NBlocks(o) && FreeChain(p, chain) && |chain| == NBlocks(o)
    ensures forall b :: 0 <= b < |p.blocks| ==> p.blocks[b].Free?
  {
    var n := NBlocks(o);
    var blocks: seq<Block> := [];
    var i := n - 1;
    while i > 0
      invariant 0 <= i < n && |blocks| == n - 1 - i && forall b :: 0 <= b < |blocks| ==> blocks[b] == Free(b + 1)
    {
      i := i - 1;
      blocks := blocks + [Free(|blocks| + 1)];
    }
    blocks := blocks + [Free(-1)];
    p := Page(o, 0, n, blocks);
    chain := seq(n, i => i);
    forall i | 0 <= i < n
      ensures Links(p, chain, i) && i in chain
    {
      assert chain[i] == i;
    }
  }

  // ---------- the effect on the blocks in use ----------

  ghost predicate Unused(pages: map<nat, Page>, x: nat) {
    forall n: nat :: !Live(pages, x, n)
  }

  /** The block at x was not in use and is now, and nothing else has changed. */
  ghost predicate Gained(old_: map<nat, Page>, new_: map<nat, Page>, x: nat, size: nat) {
    Unused(old_, x) && Adds(old_, new_, x, size)
  }

  ghost predicate Adds(old_: map<nat, Page>, new_: map<nat, Page>, x: nat, size: nat) {
    forall y: nat, n: nat :: Live(new_, y, n) <==> Live(old_, y, n) || (y == x && n == size)
  }

  /** The block at x is in use no more. */
  ghost predicate Lost(old_: map<nat, Page>, new_: map<nat, Page>, x: nat) {
    forall y: nat, n: nat :: Live(new_, y, n) <==> Live(old_, y, n) && y != x
  }

  /** The block at x is on a page of blocks of order o, with or without DMA. */
  ghost predicate GivenFrom(pages: map<nat, Page>, info: map<nat, Info>, x: nat, size: nat, o: nat, dma: bool) {
    exists a: nat, b: nat :: LiveAt(pages, a, b, x, size) && pages[a].order == o && a in info && info[a].dma == dma
  }

  /** A block of order o at x has been given out, with pages `more` taken up for it. */
  ghost predicate Gave(old_: map<nat, Page>, new_: map<nat, Page>, info: map<nat, Info>, more: set<nat>,
                       x: nat, size: nat, o: nat, dma: bool)
  {
    && o < ORDERS && x > 0 && Gained(old_, new_, x, size) && new_.Keys == old_.Keys + more
    && GivenFrom(new_, info, x, size, o, dma)
    && (LongEnough(old_) ==> (LongEnough(new_) <==> size + BLOCK_HEADER <= BlockSize(o)))
  }

  /** The same as an equation. */
  ghost predicate Given(old_: map<nat, Page>, new_: map<nat, Page>, info: map<nat, Info>, more: set<nat>,
                        x: nat, size: nat, o: nat, dma: bool)
  {
    Gave(old_, new_, info, more, x, size, o, dma) == true
  }

  /** A page without blocks in use has been taken up. */
  ghost predicate Idled(old_: map<nat, Page>, new_: map<nat, Page>, a: nat) {
    && new_.Keys == old_.Keys + {a} && (LongEnough(old_) ==> LongEnough(new_))
    && forall y: nat, n: nat :: Live(new_, y, n) <==> Live(old_, y, n)
  }

  ghost predicate Added(old_: map<nat, Page>, new_: map<nat, Page>, a: nat) {
    Idled(old_, new_, a) == true
  }

  lemma AddedGives(old_: map<nat, Page>, mid: map<nat, Page>, new_: map<nat, Page>, info: map<nat, Info>, a: nat,
                   x: nat, size: nat, o: nat, dma: bool)
    requires Added(old_, mid, a) && Given(mid, new_, info, {}, x, size, o, dma)
    ensures Given(old_, new_, info, {a}, x, size, o, dma)
  {
  }

  lemma TakenGains(pages: map<nat, Page>, a: nat, dma: bool, size: nat)
    requires a in pages && pages[a].order < ORDERS
    requires 0 <= pages[a].firstfree < |pages[a].blocks| && pages[a].blocks[pages[a].firstfree].Free?
    ensures Adds(pages, pages[a := Taken(pages[a], dma, size)], UserAt(a, pages[a].order, pages[a].firstfree), size)
  {
    var p, f := pages[a], pages[a].firstfree;
    var new_, x := pages[a := Taken(p, dma, size)], UserAt(a, p.order, f);
    assert LiveAt(new_, a, f, x, size);
    forall y: nat, n: nat
      ensures Live(new_, y, n) <==> Live(pages, y, n) || (y == x && n == size)
    {
      if Live(new_, y, n) {
        var b: nat, j: nat :| LiveAt(new_, b, j, y, n);
        assert (b, j) == (a, f) || LiveAt(pages, b, j, y, n);
      }
      if Live(pages, y, n) {
        var b: nat, j: nat :| LiveAt(pages, b, j, y, n);
        assert LiveAt(new_, b, j, y, n);
      }
    }
  }

  lemma FreeIsUnused(pages: map<nat, Page>, info: map<nat, Info>, lists: Lists, a: nat, i: nat)
    requires HeapOk(pages, info, lists) && a in pages && i < |pages[a].blocks| && pages[a].blocks[i].Free?
    ensures Unused(pages, UserAt(a, pages[a].order, i))
  {
    forall n: nat
      ensures !Live(pages, UserAt(a, pages[a].order, i), n)
    {
      if Live(pages, UserAt(a, pages[a].order, i), n) {
        var b: nat, j: nat :| LiveAt(pages, b, j, UserAt(a, pages[a].order, i), n);
        LiveSame(b, pages[b].order, j, a, pages[a].order, i);
      }
    }
  }

  lemma ReturnedLoses(pages: map<nat, Page>, info: map<nat, Info>, lists: Lists, a: nat, i: nat)
    requires HeapOk(pages, info, lists) && a in pages && i < |pages[a].blocks| && pages[a].blocks[i].Used?
    ensures Lost(pages, pages[a := Returned(pages[a], i)], UserAt(a, pages[a].order, i))
  {
    var p := pages[a];
    var new_, x := pages[a := Returned(p, i)], UserAt(a, p.order, i);
    forall y: nat, n: nat
      ensures Live(new_, y, n) <==> Live(pages, y, n) && y != x
    {
      if Live(new_, y, n) {
        var b: nat, j: nat :| LiveAt(new_, b, j, y, n);
        assert LiveAt(pages, b, j, y, n);
        if y == x {
          LiveSame(b, new_[b].order, j, a, p.order, i);
        }
      }
      if Live(pages, y, n) && y != x {
        var b: nat, j: nat :| LiveAt(pages, b, j, y, n);
        assert LiveAt(new_, b, j, y, n);
      }
    }
  }

  /** A page without blocks in use makes no difference. */
  lemma IdleMakesNone(pages: map<nat, Page>, a: nat, y: nat, n: nat)
    requires a in pages && forall b :: 0 <= b < |pages[a].blocks| ==> pages[a].blocks[b].Free?
    ensures Live(pages - {a}, y, n) <==> Live(pages, y, n)
  {
    if Live(pages, y, n) {
      var b: nat, j: nat :| LiveAt(pages, b, j, y, n);
      assert LiveAt(pages - {a}, b, j, y, n);
    }
    if Live(pages - {a}, y, n) {
      var b: nat, j: nat :| LiveAt(pages - {a}, b, j, y, n);
      assert LiveAt(pages, b, j, y, n);
    }
  }

  /** How the first part of `kmalloc` ends. */
  datatype Start = TooLarge | Got(x: nat) | NeedsPage(order: nat)

  /** What `kfree` finds at an address that is no block: the link and the order at the start of the page, and the flags. */
  datatype Words = Words(next: nat, order: int, flags: nat)

  const MF_USED: nat := 0xffaa0055
  const MF_DMA: nat := 0xff00aa55

  /** What `kfree` refuses; the table has one order more than there are sizes. */
  predicate BadOrder(w: Words) {
    w.next % 4096 != 0 || w.order < 0 || w.order > ORDERS || (w.flags != MF_USED && w.flags != MF_DMA)
  }

  class Heap {
    var pages: map<nat, Page>
    var lists: Lists
    ghost var info: map<nat, Info>

    ghost predicate Valid()
      reads this
    {
      HeapOk(pages, info, lists) && NoneIdle(pages)
    }

    constructor ()
      ensures Valid() && pages == map[]
    {
      pages, info := map[], map[];
      lists := map o, d | 0 <= o < ORDERS && d in {false, true} :: (o, d) := [];
    }

    /** The end of `kmalloc`: the first free block of the first page of the list.  It is always free. */
    method TakeFirst(o: nat, dma: bool, size: nat) returns (notFree: bool, x: nat)
      requires HeapOk(pages, info, lists) && o < ORDERS && lists[(o, dma)] != []
      modifies this
      ensures HeapOk(pages, info, lists) && !notFree && Given(old(pages), pages, info, {}, x, size, o, dma)
      ensures var a := old(lists)[(o, dma)][0];
              a in old(pages) && (NoneIdle(old(pages) - {a}) && old(pages)[a].nfree <= NBlocks(o) ==> NoneIdle(pages))
    {
      TakeStep(pages, info, lists, o, dma, size);
      var list := lists[(o, dma)];
      var a := list[0];
      var p := pages[a];
      notFree := !p.blocks[p.firstfree].Free?;
      x := UserAt(a, o, p.firstfree);
      if !notFree {
        var p' := Taken(p, dma, size);
        info := info[a := Info(info[a].chain[1..], dma)];
        pages := pages[a := p'];
        lists := lists[(o, dma) := if p'.nfree == 0 then list[1..] else list];
      }
    }

    /** A new page, put at the head of its list. */
    method AddPage(o: nat, dma: bool, a: nat)
      requires HeapOk(pages, info, lists) && NoneIdle(pages) && o < ORDERS && a % 4096 == 0 && a > 0
      requires forall b :: b in pages ==> a + AreaSize(o) <= b || b + AreaSize(pages[b].order) <= a
      modifies this
      ensures HeapOk(pages, info, lists) && (o, dma) in lists && lists[(o, dma)] == [a] + old(lists)[(o, dma)]
      ensures Added(old(pages), pages, a) && a in pages && pages[a].nfree == NBlocks(o) && NoneIdle(pages - {a})
    {
      var p; ghost var chain;
      p, chain := NewPage(o);
      NotYet(pages, a, o);
      PageNew(pages, info, lists, a, p, chain, dma);
      NewAdded(pages, a, p);
      assert pages[a := p] - {a} == pages;
      pages, info := pages[a := p], info[a := Info(chain, dma)];
      lists := lists[(o, dma) := [a] + lists[(o, dma)]];
    }

    /** `kmalloc`, until it has a block or has to ask for a page, which may sleep. */
    method Kmalloc(size: nat, dma: bool) returns (notFree: bool, r: Start)
      requires Valid() && size < 0x1_0000_0000
      modifies this
      ensures Valid() && !notFree
      ensures r.TooLarge? <==> RealSize(size) > BlockSize(ORDERS - 1)
      ensures r.TooLarge? <==> OrderOf(size).None?
      ensures r.NeedsPage? ==> OrderOf(size) == Some(r.order) && r.order < ORDERS && old(lists)[(r.order, dma)] == []
      ensures !r.Got? ==> pages == old(pages) && lists == old(lists)
      ensures r.Got? ==> OrderOf(size).Some? && old(lists)[(OrderOf(size).value, dma)] != []
                         && Given(old(pages), pages, info, {}, r.x, size, OrderOf(size).value, dma)
      ensures r.Got? && LongEnough(old(pages)) ==> (LongEnough(pages) <==> size + BLOCK_HEADER < 0x1_0000_0000)
    {
      notFree, r := false, TooLarge;
      var order := OrderFor(size);
      if order.None? {
        return;
      }
      var o, at := order.value, 0;
      if lists[(o, dma)] == [] {
        return false, NeedsPage(o);
      }
      WrapIsShort(size, o);
      HeadIsBusy(pages, info, lists, o, dma);
      notFree, at := TakeFirst(o, dma, size);
      GivenLong(old(pages), pages, info, {}, at, size, o, dma);
      r := Got(at);
    }

    /** `kmalloc` from there on, with the area that get_kmalloc_pages or the cache of pages has given, if any.  The list may
        have pages again by now. */
    method KmallocPage(size: nat, dma: bool, o: nat, area: Option<nat>) returns (notFree: bool, x: Option<nat>)
      requires Valid() && size < 0x1_0000_0000 && OrderOf(size) == Some(o)
      requires area.Some? ==> area.value % 4096 == 0 && area.value > 0
      requires area.Some? ==> forall b :: b in pages ==>
                 area.value + AreaSize(o) <= b || b + AreaSize(pages[b].order) <= area.value
      modifies this
      ensures Valid() && !notFree && (x.Some? <==> area.Some?)
      ensures x.None? ==> pages == old(pages) && lists == old(lists)
      ensures x.Some? ==> Given(old(pages), pages, info, {area.value}, x.value, size, o, dma)
      ensures x.Some? && LongEnough(old(pages)) ==> (LongEnough(pages) <==> size + BLOCK_HEADER < 0x1_0000_0000)
    {
      notFree, x := false, None;
      if area.None? {
        return;
      }
      WrapIsShort(size, o);
      AddPage(o, dma, area.value);
      ghost var mid := pages;
      var at;
      notFree, at := TakeFirst(o, dma, size);
      AddedGives(old(pages), mid, pages, info, area.value, at, size, o, dma);
      GivenLong(old(pages), pages, info, {area.value}, at, size, o, dma);
      x := Some(at);
    }

    /** The search for a page on a list. */
    method FindPage(list: seq<nat>, a: nat) returns (j: nat)
      ensures j <= |list| && (j == |list| ==> a !in list) && (j < |list| ==> list[j] == a)
    {
      j := 0;
      while j < |list| && list[j] != a
        invariant j <= |list| && a !in list[..j]
      {
        j := j + 1;
      }
      assert list[..|list|] == list;
    }

    /** A page that is wholly free leaves its list and is given up.  It is always found there. */
    method GiveUp(a: nat, dma: bool) returns (oops: bool)
      requires HeapOk(pages, info, lists) && a in pages && info[a].dma == dma && pages[a].nfree == NBlocks(pages[a].order)
      modifies this
      ensures HeapOk(pages, info, lists) && !oops && pages == old(pages) - {a}
    {
      var key := (pages[a].order, dma);
      var list := lists[key];
      assert ListOk(pages, info, list, key.0, dma) && Belongs(pages, info, a, key.0, dma);
      var j := FindPage(list, a);
      oops := j == |list|;
      if !oops {
        ListGone(pages, info, lists, a, j);
        lists := lists[key := list[..j] + list[j + 1..]];
        pages, info := pages - {a}, info - {a};
      }
    }

    /** Block b goes to the head of the free chain; a page with its first free block goes onto its list. */
    method PutBack(a: nat, b: nat)
      requires HeapOk(pages, info, lists) && a in pages && b < |pages[a].blocks| && pages[a].blocks[b].Used?
      modifies this
      ensures HeapOk(pages, info, lists) && pages == old(pages)[a := Returned(old(pages)[a], b)]
      ensures info[a].dma == old(pages)[a].blocks[b].dma
    {
      GiveStep(pages, info, lists, a, b);
      var p := pages[a];
      var o, dma := p.order, p.blocks[b].dma;
      lists := if p.nfree == 0 then lists[(o, dma) := [a] + lists[(o, dma)]] else lists;
      info := info[a := Info([b] + info[a].chain, dma)];
      pages := pages[a := Returned(p, b)];
    }

    /** The end of `kfree`: block b of the page at a goes back to the page; a page with its first free block goes
        onto its list, one that is wholly free is given up. */
    method GiveBack(a: nat, b: nat) returns (oops: bool)
      requires Valid() && a in pages && b < |pages[a].blocks| && pages[a].blocks[b].Used?
      modifies this
      ensures Valid() && !oops && Lost(old(pages), pages, UserAt(a, old(pages)[a].order, b))
      ensures LongEnough(old(pages)) ==> LongEnough(pages)
    {
      var p := pages[a];
      var o, dma := p.order, p.blocks[b].dma;
      ghost var first := pages;
      ReturnedLoses(pages, info, lists, a, b);
      FewerLong(pages, a, b);
      if p.nfree == 0 && NBlocks(o) == 1 {
        OnlyBlock(pages, info, lists, a, b);
        pages, info := pages - {a}, info - {a};
        return false;
      }
      PutBack(a, b);
      oops := false;
      if pages[a].nfree == NBlocks(o) {
        IdleLoses(first, pages, info, lists, a, UserAt(a, o, b));
        oops := GiveUp(a, dma);
      }
    }

    /** `kfree`; w is what memory holds if x is no block of a page. */
    method Kfree(x: nat, w: Words) returns (bad: bool, oops: bool)
      requires Valid() && (x == 0 || IsBlock(pages, x) || BadOrder(w))
      modifies this
      ensures Valid() && !oops
      ensures x == 0 ==> !bad && pages == old(pages) && lists == old(lists)
      ensures x != 0 ==> (bad <==> Unused(old(pages), x))
      ensures bad ==> pages == old(pages) && lists == old(lists)
      ensures x != 0 && !bad ==> Lost(old(pages), pages, x)
      ensures LongEnough(old(pages)) ==> LongEnough(pages)
    {
      bad, oops := false, false;
      if x == 0 {
        return;
      }
      var a := PageAddr(x);
      if a !in pages || !AtBlock(x, a, pages[a]) {
        NoBlock(pages, info, lists, x, a);
        return BadOrder(w), false;
      }
      BlockIsLive(pages, info, lists, a, BlockNo(x, a, pages[a].order), x);
      var b := BlockNo(x, a, pages[a].order);
      if !pages[a].blocks[b].Used? {
        return true, false;
      }
      oops := GiveBack(a, b);
    }
  }

  /** x is the address of a block of page p at a. */
  predicate AtBlock(x: nat, a: nat, p: Page) {
    p.order < ORDERS && 0 <= BlockNo(x, a, p.order) < |p.blocks| && x == UserAt(a, p.order, BlockNo(x, a, p.order))
  }

  lemma NoBlock(pages: map<nat, Page>, info: map<nat, Info>, lists: Lists, x: nat, a: nat)
    requires HeapOk(pages, info, lists) && a == PageAddr(x) && (a !in pages || !AtBlock(x, a, pages[a]))
    ensures !IsBlock(pages, x) && Unused(pages, x)
  {
    if IsBlock(pages, x) {
      var c, b := BlockFound(pages, info, lists, x);
      assert false;
    }
    forall n: nat
      ensures !Live(pages, x, n)
    {
      if Live(pages, x, n) {
        var c: nat, b: nat :| LiveAt(pages, c, b, x, n);
        assert BlockOf(pages, c, b, x);
      }
    }
  }

  /** x is the address of a block, in use or not. */
  ghost predicate IsBlock(pages: map<nat, Page>, x: nat) {
    exists a: nat, b: nat :: BlockOf(pages, a, b, x)
  }

  ghost predicate BlockOf(pages: map<nat, Page>, a: nat, b: nat, x: nat) {
    a in pages && pages[a].order < ORDERS && b < |pages[a].blocks| && x == UserAt(a, pages[a].order, b)
  }

  lemma BlockFound(pages: map<nat, Page>, info: map<nat, Info>, lists: Lists, x: nat) returns (a: nat, b: nat)
    requires HeapOk(pages, info, lists) && IsBlock(pages, x)
    ensures BlockOf(pages, a, b, x) && a == PageAddr(x) && b == BlockNo(x, a, pages[a].order)
    ensures pages[a].blocks[b].Used? <==> exists n: nat :: Live(pages, x, n)
  {
    a, b :| BlockOf(pages, a, b, x);
    PageOfBlock(a, pages[a].order, b);
    BlockIsLive(pages, info, lists, a, b, x);
  }

  lemma BlockIsLive(pages: map<nat, Page>, info: map<nat, Info>, lists: Lists, a: nat, b: nat, x: nat)
    requires HeapOk(pages, info, lists) && a in pages && b < |pages[a].blocks| && x == UserAt(a, pages[a].order, b)
    ensures pages[a].blocks[b].Used? <==> exists n: nat :: Live(pages, x, n)
  {
    if pages[a].blocks[b].Used? {
      assert LiveAt(pages, a, b, x, pages[a].blocks[b].length);
      assert Live(pages, x, pages[a].blocks[b].length);
    }
    if n: nat :| Live(pages, x, n) {
      var c: nat, j: nat :| LiveAt(pages, c, j, x, n);
      LiveSame(a, pages[a].order, b, c, pages[c].order, j);
    }
  }

  lemma ListGone(pages: map<nat, Page>, info: map<nat, Info>, lists: Lists, a: nat, j: nat)
    requires HeapOk(pages, info, lists) && a in pages
    requires var list := lists[(pages[a].order, info[a].dma)]; j < |list| && list[j] == a
    ensures var key := (pages[a].order, info[a].dma); var list := lists[key];
            HeapOk(pages - {a}, info - {a}, lists[key := list[..j] + list[j + 1..]])
  {
    var key := (pages[a].order, info[a].dma);
    var list := lists[key];
    assert ListOk(pages, info, list, key.0, key.1);
    var rest := list[..j] + list[j + 1..];
    assert forall i :: 0 <= i < |rest| ==> rest[i] == list[if i < j then i else i + 1];
    forall x
      ensures x in rest <==> x != a && x in list
    {
      if x != a && x in list {
        var i :| 0 <= i < |list| && list[i] == x;
        assert rest[if i < j then i else i - 1] == x;
      }
    }
    PageGone(pages, info, lists, a, rest);
  }

  lemma OnlyBlock(pages: map<nat, Page>, info: map<nat, Info>, lists: Lists, a: nat, b: nat)
    requires HeapOk(pages, info, lists) && a in pages && NBlocks(pages[a].order) == 1 && pages[a].nfree == 0
    requires b < |pages[a].blocks| && pages[a].blocks[b].Used?
    ensures HeapOk(pages - {a}, info - {a}, lists) && Lost(pages, pages - {a}, UserAt(a, pages[a].order, b))
  {
    var key := (pages[a].order, info[a].dma);
    assert ListOk(pages, info, lists[key], key.0, key.1);
    assert !Belongs(pages, info, a, key.0, key.1);
    PageGone(pages, info, lists, a, lists[key]);
    assert lists[key := lists[key]] == lists;
    ReturnedLoses(pages, info, lists, a, b);
    var next := pages[a := Returned(pages[a], b)];
    assert next - {a} == pages - {a};
    forall y: nat, n: nat
      ensures Live(pages - {a}, y, n) <==> Live(next, y, n)
    {
      IdleMakesNone(next, a, y, n);
    }
  }

  lemma GiveStep(pages: map<nat, Page>, info: map<nat, Info>, lists: Lists, a: nat, b: nat)
    requires HeapOk(pages, info, lists) && a in pages && b < |pages[a].blocks| && pages[a].blocks[b].Used?
    ensures var p := pages[a]; var key := (p.order, info[a].dma);
            && info[a].dma == p.blocks[b].dma && Returned(p, b).nfree == p.nfree + 1
            && HeapOk(pages[a := Returned(p, b)], info[a := Info([b] + info[a].chain, info[a].dma)],
                      if p.nfree == 0 then lists[key := [a] + lists[key]] else lists)
  {
    var p, chain := pages[a], info[a].chain;
    var key := (p.order, info[a].dma);
    ReturnedOk(a, p, chain, info[a].dma, b);
    assert ListOk(pages, info, lists[key], key.0, key.1);
    assert a in lists[key] <==> Belongs(pages, info, a, key.0, key.1);
    var list := if p.nfree == 0 then [a] + lists[key] else lists[key];
    PageChanged(pages, info, lists, a, Returned(p, b), [b] + chain, list);
    if p.nfree != 0 {
      assert lists[key := lists[key]] == lists;
    }
  }

  lemma FewerLong(pages: map<nat, Page>, a: nat, b: nat)
    requires a in pages && b < |pages[a].blocks|
    ensures pages[a := Returned(pages[a], b)] - {a} == pages - {a}
    ensures LongEnough(pages) ==> LongEnough(pages[a := Returned(pages[a], b)]) && LongEnough(pages - {a})
  {
    var one, two := pages[a := Returned(pages[a], b)], pages - {a};
    forall c: nat, j: nat, x: nat, n: nat | LiveAt(one, c, j, x, n)
      ensures LiveAt(pages, c, j, x, n) && one[c].order == pages[c].order
    {
    }
    forall c: nat, j: nat, x: nat, n: nat | LiveAt(two, c, j, x, n)
      ensures LiveAt(pages, c, j, x, n) && two[c].order == pages[c].order
    {
    }
  }

  lemma IdleLoses(first: map<nat, Page>, pages: map<nat, Page>, info: map<nat, Info>, lists: Lists, a: nat, x: nat)
    requires HeapOk(pages, info, lists) && a in pages && pages[a].nfree == NBlocks(pages[a].order) && Lost(first, pages, x)
    ensures Lost(first, pages - {a}, x)
  {
    AllFree(a, pages[a], info[a].chain, info[a].dma);
    forall y: nat, n: nat
      ensures Live(pages - {a}, y, n) <==> Live(first, y, n) && y != x
    {
      IdleMakesNone(pages, a, y, n);
    }
  }

  lemma TakeStep(pages: map<nat, Page>, info: map<nat, Info>, lists: Lists, o: nat, dma: bool, size: nat)
    requires HeapOk(pages, info, lists) && o < ORDERS && lists[(o, dma)] != []
    ensures var list := lists[(o, dma)]; var a := list[0];
            && a in pages && pages[a].order == o && 0 <= pages[a].firstfree < |pages[a].blocks|
            && pages[a].blocks[pages[a].firstfree].Free? && info[a].chain != []
            && var p' := Taken(pages[a], dma, size);
               && HeapOk(pages[a := p'], info[a := Info(info[a].chain[1..], dma)],
                         lists[(o, dma) := if p'.nfree == 0 then list[1..] else list])
               && Given(pages, pages[a := p'], info[a := Info(info[a].chain[1..], dma)], {}, UserAt(a, o, pages[a].firstfree), size, o, dma)
               && (NoneIdle(pages - {a}) && pages[a].nfree <= NBlocks(o) ==> NoneIdle(pages[a := p']))
  {
    var list := lists[(o, dma)];
    var a := list[0];
    assert ListOk(pages, info, list, o, dma) && Belongs(pages, info, a, o, dma);
    var p, chain := pages[a], info[a].chain;
    TakenOk(a, p, chain, dma, size);
    TakenGives(pages, info, lists, a, o, dma, size);
    TakenIdle(pages, a, dma, size);
    var list' := if p.nfree == 1 then list[1..] else list;
    forall x
      ensures x in list' <==> if x == a then chain[1..] != [] else x in list
    {
      HeadOnce(list, x);
    }
    PageChanged(pages, info, lists, a, Taken(p, dma, size), chain[1..], list');
  }

  lemma TakenGives(pages: map<nat, Page>, info: map<nat, Info>, lists: Lists, a: nat, o: nat, dma: bool, size: nat)
    requires HeapOk(pages, info, lists) && a in pages && a in info && pages[a].order == o < ORDERS && info[a].chain != [] && a > 0
    requires 0 <= pages[a].firstfree < |pages[a].blocks| && pages[a].blocks[pages[a].firstfree].Free?
    ensures Given(pages, pages[a := Taken(pages[a], dma, size)], info[a := Info(info[a].chain[1..], dma)], {},
                  UserAt(a, o, pages[a].firstfree), size, o, dma)
  {
    var f := pages[a].firstfree;
    var next := pages[a := Taken(pages[a], dma, size)];
    TakenGains(pages, a, dma, size);
    FreeIsUnused(pages, info, lists, a, f);
    TakenLong(pages, a, dma, size);
    assert LiveAt(next, a, f, UserAt(a, o, f), size);
  }

  lemma GivenLong(old_: map<nat, Page>, new_: map<nat, Page>, info: map<nat, Info>, more: set<nat>,
                  x: nat, size: nat, o: nat, dma: bool)
    requires Given(old_, new_, info, more, x, size, o, dma)
    ensures LongEnough(old_) ==> (LongEnough(new_) <==> size + BLOCK_HEADER <= BlockSize(o))
  {
  }

  lemma TakenIdle(pages: map<nat, Page>, a: nat, dma: bool, size: nat)
    requires a in pages && pages[a].order < ORDERS
    requires 0 <= pages[a].firstfree < |pages[a].blocks| && pages[a].blocks[pages[a].firstfree].Free?
    ensures NoneIdle(pages - {a}) && pages[a].nfree <= NBlocks(pages[a].order) ==>
              NoneIdle(pages[a := Taken(pages[a], dma, size)])
  {
    assert forall b :: b in pages && b != a ==> b in pages - {a} && pages[b] == (pages - {a})[b];
  }

  lemma TakenLong(pages: map<nat, Page>, a: nat, dma: bool, size: nat)
    requires a in pages && pages[a].order < ORDERS
    requires 0 <= pages[a].firstfree < |pages[a].blocks| && pages[a].blocks[pages[a].firstfree].Free?
    ensures LongEnough(pages) ==>
              (LongEnough(pages[a := Taken(pages[a], dma, size)]) <==> size + BLOCK_HEADER <= BlockSize(pages[a].order))
  {
    var p, f := pages[a], pages[a].firstfree;
    var next := pages[a := Taken(p, dma, size)];
    assert LiveAt(next, a, f, UserAt(a, p.order, f), size);
    forall b: nat, j: nat, x: nat, n: nat | LiveAt(next, b, j, x, n) && (b, j) != (a, f)
      ensures LiveAt(pages, b, j, x, n) && next[b].order == pages[b].order
    {
    }
  }

  lemma HeadOnce(list: seq<nat>, x: nat)
    requires list != [] && forall i, j :: 0 <= i < j < |list| ==> list[i] != list[j]
    ensures x in list[1..] <==> x in list && x != list[0]
  {
  }

  lemma NotYet(pages: map<nat, Page>, a: nat, o: nat)
    requires o < ORDERS && (forall b :: b in pages ==> pages[b].order < ORDERS)
    requires forall b :: b in pages ==> a + AreaSize(o) <= b || b + AreaSize(pages[b].order) <= a
    ensures a !in pages
  {
  }

  lemma NewMakesNone(pages: map<nat, Page>, a: nat, p: Page)
    requires a !in pages && forall b :: 0 <= b < |p.blocks| ==> p.blocks[b].Free?
    ensures forall y: nat, n: nat :: Live(pages[a := p], y, n) <==> Live(pages, y, n)
  {
    forall y: nat, n: nat
      ensures Live(pages[a := p], y, n) <==> Live(pages, y, n)
    {
      IdleMakesNone(pages[a := p], a, y, n);
      assert pages[a := p] - {a} == pages;
    }
  }

  lemma NewAdded(pages: map<nat, Page>, a: nat, p: Page)
    requires a !in pages && forall b :: 0 <= b < |p.blocks| ==> p.blocks[b].Free?
    ensures Added(pages, pages[a := p], a)
  {
    NewMakesNone(pages, a, p);
    if LongEnough(pages) {
      NewLong(pages, a, p);
    }
  }

  lemma NewLong(pages: map<nat, Page>, a: nat, p: Page)
    requires a !in pages && (forall b :: 0 <= b < |p.blocks| ==> p.blocks[b].Free?) && LongEnough(pages)
    ensures LongEnough(pages[a := p])
  {
    var next := pages[a := p];
    forall b: nat, j: nat, x: nat, n: nat | LiveAt(next, b, j, x, n)
      ensures n + BLOCK_HEADER <= BlockSize(next[b].order)
    {
      assert LiveAt(pages, b, j, x, n);
    }
  }

  lemma HeadIsBusy(pages: map<nat, Page>, info: map<nat, Info>, lists: Lists, o: nat, dma: bool)
    requires HeapOk(pages, info, lists) && NoneIdle(pages) && o < ORDERS && lists[(o, dma)] != []
    ensures var a := lists[(o, dma)][0]; a in pages && pages[a].nfree <= NBlocks(o) && NoneIdle(pages - {a})
  {
    assert ListOk(pages, info, lists[(o, dma)], o, dma) && Belongs(pages, info, lists[(o, dma)][0], o, dma);
  }
}
