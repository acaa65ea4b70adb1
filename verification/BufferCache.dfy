/**
 The queues of the buffer cache in fs/buffer.c: every buffer is on the free list of its size or on the LRU list it
 names, buffers with a device are on the hash queue of their block, and the counts are the lengths of the lists.
 */
module BufferCaches {
  import opened Wrappers

  const NR_LIST: nat := 4
  const NR_SIZES: nat := 5
  const BUF_CLEAN: nat := 0
  const BUF_LOCKED: nat := 1
  const BUF_LOCKED1: nat := 2
  const BUF_DIRTY: nat := 3

  /** A device number, NODEV, or the mark of a free buffer. */
  datatype Dev = Free | NoDev | Dev(number: nat)

  /** `hashed` says that the buffer is linked into a hash queue. */
  datatype Buffer = Buffer(dev: Dev, block: nat, size: nat, list: nat, hashed: bool)

  type HashFn = (Dev, nat) -> nat

  /** BUFSIZE_INDEX, for the sizes 512, 1024, 2048, 4096 and 8192 that buffers have. */
  function SizeIndex(size: nat): (k: nat)
    ensures k < NR_SIZES
  {
    if size <= 512 then 0 else if size <= 1024 then 1 else if size <= 2048 then 2 else if size <= 4096 then 3 else 4
  }

  /** All buffers, the LRU and free lists from their heads on, the hash queues, and the counts of the LRU lists. */
  datatype Queues = Queues(bufs: map<nat, Buffer>, lru: seq<seq<nat>>, free: seq<seq<nat>>, hash: seq<seq<nat>>, counts: seq<int>)

  predicate Distinct(s: seq<nat>) {
    forall i, j :: 0 <= i < j < |s| ==> s[i] != s[j]
  }

  predicate OnLru(q: Queues, l: nat, x: nat) {
    x in q.bufs && q.bufs[x].dev != Free && q.bufs[x].list == l
  }

  predicate OnFree(q: Queues, k: nat, x: nat) {
    x in q.bufs && q.bufs[x].dev == Free && SizeIndex(q.bufs[x].size) == k
  }

  predicate OnHash(q: Queues, h: HashFn, n: nat, x: nat) {
    x in q.bufs && q.bufs[x].hashed && h(q.bufs[x].dev, q.bufs[x].block) == n
  }

  ghost predicate LruOk(q: Queues, l: nat)
    requires l < |q.lru| && l < |q.counts|
  {
    Distinct(q.lru[l]) && (forall x :: x in q.lru[l] <==> OnLru(q, l, x)) && q.counts[l] == |q.lru[l]|
  }

  ghost predicate FreeOk(q: Queues, k: nat)
    requires k < |q.free|
  {
    Distinct(q.free[k]) && forall x :: x in q.free[k] <==> OnFree(q, k, x)
  }

  ghost predicate HashOk(q: Queues, h: HashFn, n: nat)
    requires n < |q.hash|
  {
    Distinct(q.hash[n]) && forall x :: x in q.hash[n] <==> OnHash(q, h, n, x)
  }

  /** Buffers in use name a list, and only buffers with a device are hashed. */
  predicate BufferOk(b: Buffer) {
    b.list < NR_LIST && (b.hashed ==> b.dev.Dev?)
  }

  /** As an equation, which the verifier passes on whole. */
  ghost predicate QueuesOk(q: Queues, h: HashFn) {
    QueuesSound(q, h) == true
  }

  ghost predicate QueuesSound(q: Queues, h: HashFn) {
    && |q.lru| == |q.counts| == NR_LIST && |q.free| == NR_SIZES
    && (forall d, n :: h(d, n) < |q.hash|)
    && (forall x :: x in q.bufs ==> BufferOk(q.bufs[x]))
    && (forall l :: 0 <= l < NR_LIST ==> LruOk(q, l))
    && (forall k :: 0 <= k < NR_SIZES ==> FreeOk(q, k))
    && (forall n :: 0 <= n < |q.hash| ==> HashOk(q, h, n))
  }

  /** No block is hashed twice. */
  ghost predicate Unique(q: Queues) {
    BlocksDiffer(q.bufs) == true
  }

  ghost predicate BlocksDiffer(bufs: map<nat, Buffer>) {
    forall x, y :: x in bufs && y in bufs && x != y && bufs[x].hashed && bufs[y].hashed ==> !SameBlock(bufs[x], bufs[y])
  }

  predicate SameBlock(a: Buffer, b: Buffer) {
    a.dev == b.dev && a.block == b.block
  }

  // ---------- taking a buffer off its queues ----------

  function Without(s: seq<nat>, x: nat): (r: seq<nat>)
    ensures forall y :: y in r <==> y in s && y != x
    ensures x in s && Distinct(s) ==> |r| == |s| - 1
    ensures x !in s ==> r == s
    ensures Distinct(s) ==> Distinct(r)
  {
    if s == [] then [] else if s[0] == x then
      WithoutNone(s, x);
      Without(s[1..], x)
    else
      ConsDistinct(s, Without(s[1..], x));
      [s[0]] + Without(s[1..], x)
  }

  lemma ConsDistinct(s: seq<nat>, r: seq<nat>)
    requires s != [] && (forall y :: y in r ==> y in s[1..]) && (Distinct(s[1..]) ==> Distinct(r))
    ensures Distinct(s) ==> Distinct([s[0]] + r)
  {
    if Distinct(s) {
      assert Distinct(s[1..]);
      forall j | 0 <= j < |r|
        ensures s[0] != r[j]
      {
        assert r[j] in s[1..];
      }
    }
  }

  lemma WithoutNone(s: seq<nat>, x: nat)
    requires s != [] && s[0] == x
    ensures Distinct(s) ==> x !in s[1..] && Distinct(s[1..])
  {
  }

  /** `remove_from_queues`. */
  function Removed(q: Queues, h: HashFn, x: nat): Queues
    requires QueuesOk(q, h) && x in q.bufs
  {
    var b := q.bufs[x];
    if b.dev == Free then
      var k := SizeIndex(b.size);
      q.(bufs := q.bufs - {x}, free := q.free[k := Without(q.free[k], x)])
    else
      var n := h(b.dev, b.block);
      q.(bufs := q.bufs - {x}, counts := q.counts[b.list := q.counts[b.list] - 1],
         hash := if b.hashed then q.hash[n := Without(q.hash[n], x)] else q.hash,
         lru := q.lru[b.list := Without(q.lru[b.list], x)])
  }

  lemma RemovedOk(q: Queues, h: HashFn, x: nat)
    requires QueuesOk(q, h) && x in q.bufs
    ensures QueuesOk(Removed(q, h, x), h)
  {
    var b, r := q.bufs[x], Removed(q, h, x);
    forall l | 0 <= l < NR_LIST
      ensures LruOk(r, l)
    {
      assert LruOk(q, l);
      assert x in q.lru[l] <==> OnLru(q, l, x);
    }
    forall k | 0 <= k < NR_SIZES
      ensures FreeOk(r, k)
    {
      assert FreeOk(q, k);
    }
    forall n | 0 <= n < |r.hash|
      ensures HashOk(r, h, n)
    {
      assert HashOk(q, h, n);
      assert x in q.hash[n] <==> OnHash(q, h, n, x);
    }
  }

  // ---------- putting a buffer onto its queues ----------

  /** `insert_into_queues`: at the end of its list, and at the head of its hash queue if it has a device. */
  function Inserted(q: Queues, h: HashFn, x: nat, b: Buffer): Queues
    requires QueuesOk(q, h) && b.list < NR_LIST
  {
    if b.dev == Free then
      var k := SizeIndex(b.size);
      q.(bufs := q.bufs[x := b.(hashed := false)], free := q.free[k := q.free[k] + [x]])
    else
      var n := h(b.dev, b.block);
      q.(bufs := q.bufs[x := b.(hashed := b.dev.Dev?)], counts := q.counts[b.list := q.counts[b.list] + 1],
         hash := if b.dev.Dev? then q.hash[n := [x] + q.hash[n]] else q.hash,
         lru := q.lru[b.list := q.lru[b.list] + [x]])
  }

  lemma InsertedOk(q: Queues, h: HashFn, x: nat, b: Buffer)
    requires QueuesOk(q, h) && x !in q.bufs && b.list < NR_LIST
    ensures QueuesOk(Inserted(q, h, x, b), h)
  {
    var r := Inserted(q, h, x, b);
    forall l | 0 <= l < NR_LIST
      ensures LruOk(r, l)
    {
      assert LruOk(q, l);
      assert x in q.lru[l] <==> OnLru(q, l, x);
    }
    forall k | 0 <= k < NR_SIZES
      ensures FreeOk(r, k)
    {
      assert FreeOk(q, k);
      assert x in q.free[k] <==> OnFree(q, k, x);
    }
    forall n | 0 <= n < |r.hash|
      ensures HashOk(r, h, n)
    {
      assert HashOk(q, h, n);
      assert x in q.hash[n] <==> OnHash(q, h, n, x);
    }
  }

  // ---------- a buffer in its place ----------

  /** Every buffer is on exactly one list. */
  lemma OneList(q: Queues, h: HashFn, x: nat)
    requires QueuesOk(q, h) && x in q.bufs
    ensures forall l :: 0 <= l < NR_LIST ==> (x in q.lru[l] <==> q.bufs[x].dev != Free && l == q.bufs[x].list)
    ensures forall k :: 0 <= k < NR_SIZES ==> (x in q.free[k] <==> q.bufs[x].dev == Free && k == SizeIndex(q.bufs[x].size))
  {
    forall l | 0 <= l < NR_LIST
      ensures x in q.lru[l] <==> OnLru(q, l, x)
    {
      assert LruOk(q, l);
    }
    forall k | 0 <= k < NR_SIZES
      ensures x in q.free[k] <==> OnFree(q, k, x)
    {
      assert FreeOk(q, k);
    }
  }

  lemma RemovedUnique(q: Queues, h: HashFn, x: nat)
    requires QueuesOk(q, h) && x in q.bufs && Unique(q)
    ensures Unique(Removed(q, h, x))
  {
  }

  /** A buffer put in leaves blocks unique exactly when its block was not hashed. */
  lemma InsertedUnique(q: Queues, h: HashFn, x: nat, b: Buffer)
    requires QueuesOk(q, h) && x !in q.bufs && b.list < NR_LIST && Unique(q)
    ensures Unique(Inserted(q, h, x, b)) <==> !(b.dev.Dev? && HashedBlock(q, b.dev, b.block))
  {
    var r := Inserted(q, h, x, b);
    if b.dev.Dev? && HashedBlock(q, b.dev, b.block) {
      var y :| y in q.bufs && q.bufs[y].hashed && q.bufs[y].dev == b.dev && q.bufs[y].block == b.block;
      assert SameBlock(r.bufs[x], r.bufs[y]);
    }
  }

  ghost predicate HashedBlock(q: Queues, dev: Dev, block: nat) {
    exists y :: y in q.bufs && q.bufs[y].hashed && q.bufs[y].dev == dev && q.bufs[y].block == block
  }

  /** The block is hashed, but with another size. */
  ghost predicate WrongSize(q: Queues, dev: Dev, block: nat, size: nat) {
    exists y :: y in q.bufs && q.bufs[y].hashed && q.bufs[y].dev == dev && q.bufs[y].block == block && q.bufs[y].size != size
  }

  // ---------- runs of calls ----------

  /** What the calls do to the buffers. */
  datatype Call =
    | Get(x: nat, dev: Dev, block: nat, size: nat)  // getblk, when it takes a free buffer
    | File(x: nat, list: nat)                       // refile_buffer, when it moves the buffer
    | Take(x: nat)                                  // refill_freelist
    | Forget(x: nat, dev: Dev)                      // remove_from_hash_queue, with the device the buffer has then
    | Grow(xs: seq<nat>, size: nat)                 // grow_buffers
    | Drop(xs: seq<nat>)                            // try_to_free_buffer
    | Stay                                          // lookups, and moves within a list

  ghost predicate Does(was: Queues, c: Call, now: Queues) {
    match c
    case Get(x, dev, block, size) =>
      && x in was.bufs && was.bufs[x].dev == Free && dev.Dev? && SizeIndex(was.bufs[x].size) == SizeIndex(size)
      && (HashedBlock(was, dev, block) ==> WrongSize(was, dev, block, size))
      && now.bufs == was.bufs[x := Buffer(dev, block, was.bufs[x].size, BUF_CLEAN, true)]
    case File(x, l) =>
      && x in was.bufs && was.bufs[x].dev != Free
      && now.bufs == was.bufs[x := was.bufs[x].(list := l, hashed := was.bufs[x].dev.Dev?)]
    case Take(x) => x in was.bufs && now.bufs == was.bufs[x := was.bufs[x].(dev := Free, hashed := false)]
    case Forget(x, dev) => x in was.bufs && now.bufs == was.bufs[x := was.bufs[x].(dev := dev, hashed := false)]
    case Grow(xs, size) => Grown(was, now, xs, size)
    case Drop(xs) => now.bufs == was.bufs - SetOf(xs)
    case Stay => now.bufs == was.bufs
  }

  /** The sizes that buffers may have. */
  predicate IsSize(size: nat) {
    size == 512 || size == 1024 || size == 2048 || size == 4096 || size == 8192
  }

  /** Every buffer with a device is hashed and has the size of its device. */
  ghost predicate OneSize(q: Queues, bs: Dev -> nat) {
    forall x :: x in q.bufs ==> IsSize(q.bufs[x].size) && (q.bufs[x].dev.Dev? ==> q.bufs[x].hashed && q.bufs[x].size == bs(q.bufs[x].dev))
  }

  /** The call uses a device with its one size; no device changes its size. */
  ghost predicate UsesOneSize(c: Call, bs: Dev -> nat) {
    match c
    case Get(_, dev, _, size) => size == bs(dev) && IsSize(size)
    case Forget(_, dev) => !dev.Dev?
    case Grow(_, size) => IsSize(size)
    case _ => true
  }

  /** A call that uses one size keeps the invariant, and blocks unique. */
  lemma OneSizeKeeps(q: Queues, c: Call, r: Queues, bs: Dev -> nat)
    requires OneSize(q, bs) && Unique(q) && Does(q, c, r) && UsesOneSize(c, bs)
    ensures OneSize(r, bs) && Unique(r)
  {
    if c.Get? {
      assert !HashedBlock(q, c.dev, c.block);
    }
  }

  /** A run from a cache without buffers. */
  ghost predicate Run(states: seq<Queues>, calls: seq<Call>) {
    && |states| == |calls| + 1 && states[0].bufs == map[]
    && forall k :: 0 <= k < |calls| ==> Does(states[k], calls[k], states[k + 1])
  }

  /** In every run in which each device is used with one block size, the hash holds at most one buffer for a block. */
  lemma {:induction false} OneSizeUnique(states: seq<Queues>, calls: seq<Call>, bs: Dev -> nat, n: nat)
    requires Run(states, calls) && n <= |calls| && forall k :: 0 <= k < n ==> UsesOneSize(calls[k], bs)
    ensures OneSize(states[n], bs) && Unique(states[n])
  {
    if n > 0 {
      OneSizeUnique(states, calls, bs, n - 1);
      assert Does(states[n - 1], calls[n - 1], states[n]);
      OneSizeKeeps(states[n - 1], calls[n - 1], states[n], bs);
    }
  }

  datatype Block = Found(buffer: nat) | New(buffer: nat) | NoneFree

  class BufferCache {
    const h: HashFn
    var q: Queues
    var nrBuffers: int

    ghost predicate Valid()
      reads this
    {
      QueuesOk(q, h) && nrBuffers == |q.bufs|
    }

    constructor (h: HashFn, queues: nat)
      requires forall d, n :: h(d, n) < queues
      ensures Valid() && Unique(q) && this.h == h && q.bufs == map[]
    {
      this.h := h;
      q := Queues(map[], seq(NR_LIST, _ => []), seq(NR_SIZES, _ => []), seq(queues, _ => []), seq(NR_LIST, _ => 0));
      nrBuffers := 0;
    }

    /** `find_buffer`. */
    method FindBuffer(dev: Dev, block: nat, size: nat) returns (x: Option<nat>)
      requires QueuesOk(q, h) && dev.Dev?
      ensures x.Some? ==> x.value in q.bufs && q.bufs[x.value].hashed && q.bufs[x.value].dev == dev
                          && q.bufs[x.value].block == block && q.bufs[x.value].size == size
      ensures x.None? && HashedBlock(q, dev, block) ==> WrongSize(q, dev, block, size)
    {
      var chain := q.hash[h(dev, block)];
      assert HashOk(q, h, h(dev, block));
      var i := 0;
      while i < |chain|
        invariant 0 <= i <= |chain|
        invariant forall j :: 0 <= j < i ==> chain[j] in q.bufs && !(q.bufs[chain[j]].dev == dev && q.bufs[chain[j]].block == block)
      {
        assert chain[i] in chain;
        var b := q.bufs[chain[i]];
        if b.block == block && b.dev == dev {
          return if b.size == size then Some(chain[i]) else None;
        }
        i := i + 1;
      }
      x := None;
      NotHashed(q, h, dev, block, chain);
    }

    /** The part of `getblk` from its last look at the hash queue on: between that and the new buffer's place on the
        queue it does not sleep. */
    method GetBlk(dev: Dev, block: nat, size: nat) returns (r: Block)
      requires Valid() && dev.Dev?
      modifies this`q
      ensures Valid()
      ensures r.Found? ==> q == old(q) && r.buffer in q.bufs && q.bufs[r.buffer].size == size
                           && q.bufs[r.buffer].dev == dev && q.bufs[r.buffer].block == block
      ensures r.NoneFree? ==> q == old(q) && q.free[SizeIndex(size)] == []
      ensures r.New? ==> old(q.free)[SizeIndex(size)] == [r.buffer] + q.free[SizeIndex(size)] && r.buffer in old(q.bufs)
                         && q.bufs == old(q.bufs)[r.buffer := Buffer(dev, block, old(q.bufs)[r.buffer].size, BUF_CLEAN, true)]
                         && q.lru[BUF_CLEAN] == old(q.lru)[BUF_CLEAN] + [r.buffer]
      ensures Unique(old(q)) ==> (r.Found? <==> HashedBlock(old(q), dev, block) && !WrongSize(old(q), dev, block, size))
      ensures Unique(old(q)) ==> (Unique(q) <==> !(r.New? && WrongSize(old(q), dev, block, size)))
      ensures Does(old(q), if r.New? then Get(r.buffer, dev, block, size) else Stay, q)
    {
      var found := FindBuffer(dev, block, size);
      if found.Some? {
        return Found(found.value);
      }
      var k := SizeIndex(size);
      if q.free[k] == [] {
        return NoneFree;
      }
      var x := q.free[k][0];
      GetFirst(q, h, dev, block, size);
      q := Inserted(Removed(q, h, x), h, x, Buffer(dev, block, q.bufs[x].size, BUF_CLEAN, false));
      r := New(x);
    }

    /** `put_last_lru`. */
    method PutLastLru(x: nat)
      requires Valid() && x in q.bufs && q.bufs[x].dev != Free
      modifies this`q
      ensures Valid() && q.bufs == old(q.bufs) && q.free == old(q.free) && q.hash == old(q.hash)
      ensures q.lru == old(q.lru)[q.bufs[x].list := Without(old(q.lru)[q.bufs[x].list], x) + [x]]
      ensures Does(old(q), Stay, q)
    {
      var l := q.bufs[x].list;
      var list := q.lru[l];
      assert LruOk(q, l) && OnLru(q, l, x);
      ToEndOk(q, h, x);
      var list' := if list[0] == x then list[1..] + [x] else Without(list, x) + [x];
      HeadWithout(list, x);
      q := q.(lru := q.lru[l := list']);
    }

    /** `refile_buffer`, for a buffer that is dirty, or locked and to be written soon, or neither. */
    method Refile(x: nat, dirty: bool, locked: bool, soon: bool)
      requires Valid() && x in q.bufs
      modifies this`q
      ensures Valid()
      ensures !Moves(old(q.bufs)[x], dirty, locked) ==> q == old(q)
      ensures Moves(old(q.bufs)[x], dirty, locked) ==>
                var b, l := old(q.bufs)[x], FiledUnder(old(q.bufs)[x].list, dirty, locked, soon);
                q.bufs == old(q.bufs)[x := b.(list := l, hashed := b.dev.Dev?)] && q.lru[l] == Without(old(q.lru)[l], x) + [x]
      ensures Unique(old(q)) ==> (Unique(q) <==> !(Moves(old(q.bufs)[x], dirty, locked) && HashedAgain(old(q), x)))
      ensures Does(old(q), if Moves(old(q.bufs)[x], dirty, locked)
                           then File(x, FiledUnder(old(q.bufs)[x].list, dirty, locked, soon)) else Stay, q)
    {
      var b := q.bufs[x];
      if b.dev == Free {
        return;
      }
      var dispose := if dirty then BUF_DIRTY else if locked then BUF_LOCKED else BUF_CLEAN;
      if dispose != b.list {
        if dispose == BUF_LOCKED && soon {
          dispose := BUF_LOCKED1;
        }
        b := b.(list := dispose);
        FiledAtEnd(q, h, x, dispose);
        q := Inserted(Removed(q, h, x), h, x, b);
      }
    }

    /** `refill_freelist` takes a clean buffer that nobody uses. */
    method Reclaim(x: nat)
      requires Valid() && x in q.bufs && q.bufs[x].dev != Free
      modifies this`q
      ensures Valid() && q.bufs == old(q.bufs)[x := old(q.bufs)[x].(dev := Free, hashed := false)]
      ensures var k := SizeIndex(q.bufs[x].size); q.free == old(q.free)[k := old(q.free)[k] + [x]]
      ensures (Unique(old(q)) ==> Unique(q)) && Does(old(q), Take(x), q)
    {
      var b := q.bufs[x].(dev := Free);
      RefileStep(q, h, x, b);
      q := Inserted(Removed(q, h, x), h, x, b);
    }

    /** `remove_from_hash_queue`, as `bforget` (which also takes the device away) and `set_blocksize` use it. */
    method Unhash(x: nat, dev: Dev)
      requires Valid() && x in q.bufs && q.bufs[x].dev != Free && dev != Free
      modifies this`q
      ensures Valid() && q.lru == old(q.lru) && q.free == old(q.free)
      ensures q.bufs == old(q.bufs)[x := old(q.bufs)[x].(dev := dev, hashed := false)]
      ensures (Unique(old(q)) ==> Unique(q)) && Does(old(q), Forget(x, dev), q)
    {
      UnhashedOk(q, h, x, dev);
      q := Unhashed(q, h, x, dev);
    }

    /** One new buffer, linked into the free list of its size at place `at`. */
    method LinkFree(x: nat, size: nat, at: nat)
      requires Valid() && x !in q.bufs && at <= |q.free[SizeIndex(size)]|
      modifies this
      ensures Valid() && nrBuffers == old(nrBuffers) + 1 && q == WithFree(old(q), x, size, at)
      ensures Unique(old(q)) ==> Unique(q)
    {
      GrowStep(q, h, x, size, at);
      q := WithFree(q, x, size, at);
      nrBuffers := nrBuffers + 1;
    }

    /** `grow_buffers`, given the buffers of a new page: each is linked in after the one before it, the first after the
        head, and then the first becomes the head. */
    method GrowBuffers(xs: seq<nat>, size: nat)
      requires Valid() && xs != [] && Distinct(xs) && forall x :: x in xs ==> x !in q.bufs
      modifies this
      ensures Valid() && nrBuffers == old(nrBuffers) + |xs| && (Unique(old(q)) ==> Unique(q)) && Does(old(q), Grow(xs, size), q)
      ensures var was := old(q.free)[SizeIndex(size)];
              q.free[SizeIndex(size)] == xs + if was == [] then [] else was[1..] + [was[0]]
    {
      var k := SizeIndex(size);
      var list := q.free[k];
      LinkPage(xs, size);
      AllLinked(old(q), q, list, xs, size);
      if list != [] {
        TurnOk(q, h, k);
        Turned(old(q), q, k, list, xs, size);
        q := q.(free := q.free[k := q.free[k][1..] + [q.free[k][0]]]);
      }
    }

    method LinkPage(xs: seq<nat>, size: nat)
      requires Valid() && Distinct(xs) && forall x :: x in xs ==> x !in q.bufs
      modifies this
      ensures Valid() && nrBuffers == old(nrBuffers) + |xs|
      ensures Linked(old(q), q, old(q.free)[SizeIndex(size)], xs, |xs|, size)
    {
      var list := q.free[SizeIndex(size)];
      NoneGrown(q, xs, list, size);
      var i := 0;
      while i < |xs|
        invariant 0 <= i <= |xs| && Valid() && nrBuffers == old(nrBuffers) + i && Linked(old(q), q, list, xs, i, size)
      {
        var at := if list == [] then i else i + 1;
        LinkStep(old(q), q, h, list, xs, i, size);
        LinkFree(xs[i], size, at);
        i := i + 1;
      }
    }

    /** `try_to_free_buffer`, for a page whose buffers nobody uses. */
    method FreePage(xs: seq<nat>)
      requires Valid() && Distinct(xs) && forall x :: x in xs ==> x in q.bufs
      modifies this
      ensures Valid() && nrBuffers == old(nrBuffers) - |xs|
      ensures q.bufs == old(q.bufs) - SetOf(xs)
      ensures (Unique(old(q)) ==> Unique(q)) && Does(old(q), Drop(xs), q)
    {
      var i := 0;
      assert xs[..0] == [];
      while i < |xs|
        invariant 0 <= i <= |xs| && Valid() && nrBuffers == old(nrBuffers) - i
        invariant q.bufs == old(q.bufs) - SetOf(xs[..i])
        invariant Unique(old(q)) ==> Unique(q)
      {
        NotYet(xs, i);
        Fewer(old(q.bufs), xs, i);
        Unlink(xs[i]);
        i := i + 1;
      }
      assert xs[..|xs|] == xs;
    }

    method Unlink(x: nat)
      requires Valid() && x in q.bufs
      modifies this
      ensures Valid() && nrBuffers == old(nrBuffers) - 1 && q.bufs == old(q.bufs) - {x} && (Unique(old(q)) ==> Unique(q))
    {
      RemovedOk(q, h, x);
      if Unique(q) {
        RemovedUnique(q, h, x);
      }
      q := Removed(q, h, x);
      nrBuffers := nrBuffers - 1;
    }
  }

  function SetOf(xs: seq<nat>): set<nat> {
    set x | x in xs
  }

  lemma Fewer(bufs: map<nat, Buffer>, xs: seq<nat>, i: nat)
    requires i < |xs|
    ensures bufs - SetOf(xs[..i]) - {xs[i]} == bufs - SetOf(xs[..i + 1])
  {
    assert xs[..i + 1] == xs[..i] + [xs[i]];
  }

  lemma NotHashed(q: Queues, h: HashFn, dev: Dev, block: nat, chain: seq<nat>)
    requires QueuesOk(q, h) && dev.Dev? && chain == q.hash[h(dev, block)]
    requires forall j :: 0 <= j < |chain| ==> chain[j] in q.bufs && !(q.bufs[chain[j]].dev == dev && q.bufs[chain[j]].block == block)
    ensures !HashedBlock(q, dev, block)
  {
    assert HashOk(q, h, h(dev, block));
    forall y | y in q.bufs && q.bufs[y].hashed && q.bufs[y].dev == dev
      ensures q.bufs[y].block != block
    {
      assert y in chain <==> OnHash(q, h, h(dev, block), y);
    }
  }

  /** Where `refile_buffer` puts a buffer. */
  function FiledUnder(list: nat, dirty: bool, locked: bool, soon: bool): nat {
    if dirty then BUF_DIRTY else if !locked then BUF_CLEAN
    else if list != BUF_LOCKED && soon then BUF_LOCKED1 else BUF_LOCKED
  }

  /** The buffer is in use and not on the list its state calls for. */
  predicate Moves(b: Buffer, dirty: bool, locked: bool) {
    b.dev != Free && b.list != if dirty then BUF_DIRTY else if locked then BUF_LOCKED else BUF_CLEAN
  }

  /** The buffer has a device but is not hashed, and its block is: filing it hashes it again. */
  ghost predicate HashedAgain(q: Queues, x: nat)
    requires x in q.bufs
  {
    q.bufs[x].dev.Dev? && !q.bufs[x].hashed && HashedBlock(q, q.bufs[x].dev, q.bufs[x].block)
  }

  lemma RefileStep(q: Queues, h: HashFn, x: nat, b: Buffer)
    requires QueuesOk(q, h) && x in q.bufs && b.list < NR_LIST
    ensures var r := Removed(q, h, x);
            && QueuesOk(r, h) && x !in r.bufs && QueuesOk(Inserted(r, h, x, b), h)
            && Inserted(r, h, x, b).bufs == q.bufs[x := b.(hashed := b.dev.Dev?)]
            && (Unique(q) && (b.dev.Dev? ==> SameBlock(b, q.bufs[x])) ==>
                  (Unique(Inserted(r, h, x, b)) <==> !(b.dev.Dev? && HashedAgain(q, x))))
  {
    RemovedOk(q, h, x);
    var r := Removed(q, h, x);
    InsertedOk(r, h, x, b);
    if Unique(q) && (b.dev.Dev? ==> SameBlock(b, q.bufs[x])) {
      RemovedUnique(q, h, x);
      InsertedUnique(r, h, x, b);
      if !q.bufs[x].hashed {
        SameHashed(q, r, x, b.dev, b.block);
      }
    }
  }

  /** A buffer in use that goes to list l. */
  lemma FiledAtEnd(q: Queues, h: HashFn, x: nat, l: nat)
    requires QueuesOk(q, h) && x in q.bufs && q.bufs[x].dev != Free && l < NR_LIST
    ensures var r, b := Removed(q, h, x), q.bufs[x].(list := l);
            && QueuesOk(r, h) && QueuesOk(Inserted(r, h, x, b), h)
            && Inserted(r, h, x, b).bufs == q.bufs[x := b.(hashed := b.dev.Dev?)]
            && Inserted(r, h, x, b).lru[l] == Without(q.lru[l], x) + [x]
            && (Unique(q) ==> (Unique(Inserted(r, h, x, b)) <==> !HashedAgain(q, x)))
  {
    RefileStep(q, h, x, q.bufs[x].(list := l));
    assert LruOk(q, l);
    assert x in q.lru[l] <==> OnLru(q, l, x);
  }

  lemma GetStep(q: Queues, h: HashFn, x: nat, dev: Dev, block: nat, size: nat)
    requires QueuesOk(q, h) && x in q.bufs && q.bufs[x].dev == Free && dev.Dev?
    requires HashedBlock(q, dev, block) ==> WrongSize(q, dev, block, size)
    ensures var r, b := Removed(q, h, x), Buffer(dev, block, q.bufs[x].size, BUF_CLEAN, false);
            && QueuesOk(r, h) && x !in r.bufs && QueuesOk(Inserted(r, h, x, b), h)
            && Inserted(r, h, x, b).bufs == q.bufs[x := b.(hashed := true)]
            && (Unique(q) ==> (Unique(Inserted(r, h, x, b)) <==> !WrongSize(q, dev, block, size)))
  {
    var r, b := Removed(q, h, x), Buffer(dev, block, q.bufs[x].size, BUF_CLEAN, false);
    RefileStep(q, h, x, b);
    if Unique(q) {
      RemovedUnique(q, h, x);
      InsertedUnique(r, h, x, b);
      assert !q.bufs[x].hashed;
      SameHashed(q, r, x, dev, block);
    }
  }

  /** The first buffer of a free list. */
  lemma GetFirst(q: Queues, h: HashFn, dev: Dev, block: nat, size: nat)
    requires QueuesOk(q, h) && dev.Dev? && q.free[SizeIndex(size)] != []
    requires HashedBlock(q, dev, block) ==> WrongSize(q, dev, block, size)
    ensures var x := q.free[SizeIndex(size)][0];
            && x in q.bufs && QueuesOk(Removed(q, h, x), h)
            && var b := Buffer(dev, block, q.bufs[x].size, BUF_CLEAN, false);
               var r := Inserted(Removed(q, h, x), h, x, b);
               && QueuesOk(r, h) && r.bufs == q.bufs[x := b.(hashed := true)] && |r.bufs| == |q.bufs|
               && q.free[SizeIndex(size)] == [x] + r.free[SizeIndex(size)] && r.lru[BUF_CLEAN] == q.lru[BUF_CLEAN] + [x]
               && (Unique(q) ==> (Unique(r) <==> !WrongSize(q, dev, block, size)))
  {
    var k := SizeIndex(size);
    var x := q.free[k][0];
    assert FreeOk(q, k) && x in q.free[k] && OnFree(q, k, x);
    HeadWithout(q.free[k], x);
    GetStep(q, h, x, dev, block, size);
    assert q.bufs[x := Buffer(dev, block, q.bufs[x].size, BUF_CLEAN, true)].Keys == q.bufs.Keys;
  }

  lemma SameHashed(q: Queues, r: Queues, x: nat, dev: Dev, block: nat)
    requires x in q.bufs && !q.bufs[x].hashed && r.bufs == q.bufs - {x}
    ensures HashedBlock(r, dev, block) <==> HashedBlock(q, dev, block)
  {
    if HashedBlock(q, dev, block) {
      var y :| y in q.bufs && q.bufs[y].hashed && q.bufs[y].dev == dev && q.bufs[y].block == block;
      assert y in r.bufs && r.bufs[y] == q.bufs[y];
    }
  }

  lemma ToEndOk(q: Queues, h: HashFn, x: nat)
    requires QueuesOk(q, h) && x in q.bufs && q.bufs[x].dev != Free
    ensures var l := q.bufs[x].list; QueuesOk(q.(lru := q.lru[l := Without(q.lru[l], x) + [x]]), h)
  {
    var l := q.bufs[x].list;
    var r := q.(lru := q.lru[l := Without(q.lru[l], x) + [x]]);
    assert LruOk(q, l) && OnLru(q, l, x);
    forall m | 0 <= m < NR_LIST
      ensures LruOk(r, m)
    {
      assert LruOk(q, m);
      assert forall y :: OnLru(r, m, y) <==> OnLru(q, m, y);
    }
    forall k | 0 <= k < NR_SIZES
      ensures FreeOk(r, k)
    {
      assert FreeOk(q, k);
      assert forall y :: OnFree(r, k, y) <==> OnFree(q, k, y);
    }
    forall n | 0 <= n < |r.hash|
      ensures HashOk(r, h, n)
    {
      assert HashOk(q, h, n);
      assert forall y :: OnHash(r, h, n, y) <==> OnHash(q, h, n, y);
    }
  }

  lemma HeadWithout(list: seq<nat>, x: nat)
    requires Distinct(list) && list != [] && x in list
    ensures list[0] == x ==> list[1..] == Without(list, x)
  {
    WithoutNone(list, list[0]);
  }

  function Unhashed(q: Queues, h: HashFn, x: nat, dev: Dev): Queues
    requires QueuesOk(q, h) && x in q.bufs
  {
    var b := q.bufs[x];
    var n := h(b.dev, b.block);
    q.(bufs := q.bufs[x := b.(dev := dev, hashed := false)],
       hash := if b.hashed then q.hash[n := Without(q.hash[n], x)] else q.hash)
  }

  lemma UnhashedOk(q: Queues, h: HashFn, x: nat, dev: Dev)
    requires QueuesOk(q, h) && x in q.bufs && q.bufs[x].dev != Free && dev != Free
    ensures QueuesOk(Unhashed(q, h, x, dev), h) && (Unique(q) ==> Unique(Unhashed(q, h, x, dev)))
  {
    var r := Unhashed(q, h, x, dev);
    forall l | 0 <= l < NR_LIST
      ensures LruOk(r, l)
    {
      assert LruOk(q, l);
      assert forall y :: OnLru(r, l, y) <==> OnLru(q, l, y);
    }
    forall k | 0 <= k < NR_SIZES
      ensures FreeOk(r, k)
    {
      assert FreeOk(q, k);
      assert forall y :: OnFree(r, k, y) <==> OnFree(q, k, y);
    }
    forall m | 0 <= m < |r.hash|
      ensures HashOk(r, h, m)
    {
      assert HashOk(q, h, m);
      assert x in q.hash[m] <==> OnHash(q, h, m, x);
    }
  }

  // ---------- new buffers ----------

  function InsertAt(s: seq<nat>, i: nat, x: nat): seq<nat>
    requires i <= |s|
  {
    s[..i] + [x] + s[i..]
  }

  lemma InsertAtOk(s: seq<nat>, i: nat, x: nat)
    requires i <= |s| && x !in s && Distinct(s)
    ensures Distinct(InsertAt(s, i, x)) && forall y :: y in InsertAt(s, i, x) <==> y in s || y == x
  {
    assert s == s[..i] + s[i..];
  }

  /** A new free buffer at place i of the free list of its size. */
  function WithFree(q: Queues, x: nat, size: nat, i: nat): Queues
    requires |q.free| == NR_SIZES && i <= |q.free[SizeIndex(size)]|
  {
    var k := SizeIndex(size);
    q.(bufs := q.bufs[x := Buffer(Free, 0, size, BUF_CLEAN, false)], free := q.free[k := InsertAt(q.free[k], i, x)])
  }

  lemma GrowStep(q: Queues, h: HashFn, x: nat, size: nat, i: nat)
    requires QueuesOk(q, h) && x !in q.bufs && i <= |q.free[SizeIndex(size)]|
    ensures QueuesOk(WithFree(q, x, size, i), h) && (Unique(q) ==> Unique(WithFree(q, x, size, i)))
  {
    var r := WithFree(q, x, size, i);
    forall l | 0 <= l < NR_LIST
      ensures LruOk(r, l)
    {
      assert LruOk(q, l);
      assert forall y :: OnLru(r, l, y) <==> OnLru(q, l, y);
    }
    forall k | 0 <= k < NR_SIZES
      ensures FreeOk(r, k)
    {
      assert FreeOk(q, k);
      assert x in q.free[k] <==> OnFree(q, k, x);
      if k == SizeIndex(size) {
        InsertAtOk(q.free[k], i, x);
      }
    }
    forall n | 0 <= n < |r.hash|
      ensures HashOk(r, h, n)
    {
      assert HashOk(q, h, n);
      assert forall y :: OnHash(r, h, n, y) <==> OnHash(q, h, n, y);
    }
  }

  /** The buffers xs are there now, free and of this size; all others are as they were. */
  ghost predicate Grown(was: Queues, now: Queues, xs: seq<nat>, size: nat) {
    GrownBy(was, now, xs, size) == true
  }

  ghost predicate GrownBy(was: Queues, now: Queues, xs: seq<nat>, size: nat) {
    && now.lru == was.lru && now.hash == was.hash && |now.free| == |was.free|
    && (forall y :: y in now.bufs <==> y in was.bufs || y in xs)
    && (forall y :: y in was.bufs ==> y in now.bufs && now.bufs[y] == was.bufs[y])
    && (forall y :: y in xs ==> y in now.bufs && now.bufs[y].dev == Free && !now.bufs[y].hashed && now.bufs[y].size == size)
  }

  /** A list with xs linked in behind its head. */
  function Spliced(list: seq<nat>, xs: seq<nat>): seq<nat> {
    if list == [] then xs else [list[0]] + xs + list[1..]
  }

  lemma SplicedMore(list: seq<nat>, xs: seq<nat>, i: nat)
    requires i < |xs|
    ensures var at := if list == [] then i else i + 1;
            at <= |Spliced(list, xs[..i])| && InsertAt(Spliced(list, xs[..i]), at, xs[i]) == Spliced(list, xs[..i + 1])
  {
    assert xs[..i + 1] == xs[..i] + [xs[i]];
  }

  lemma Turned(was: Queues, q: Queues, k: nat, list: seq<nat>, xs: seq<nat>, size: nat)
    requires k < |q.free| && list != [] && q.free[k] == Spliced(list, xs) && Grown(was, q, xs, size)
    ensures q.free[k][1..] + [q.free[k][0]] == xs + (list[1..] + [list[0]])
    ensures Grown(was, q.(free := q.free[k := q.free[k][1..] + [q.free[k][0]]]), xs, size)
  {
    assert q.free[k][1..] == xs + list[1..];
  }

  /** The first i of the new buffers are linked in. */
  ghost predicate Linked(was: Queues, now: Queues, list: seq<nat>, xs: seq<nat>, i: nat, size: nat) {
    LinkedUpTo(was, now, list, xs, i, size) == true
  }

  ghost predicate LinkedUpTo(was: Queues, now: Queues, list: seq<nat>, xs: seq<nat>, i: nat, size: nat) {
    && i <= |xs| && Grown(was, now, xs[..i], size) && (Unique(was) ==> Unique(now))
    && |now.free| == NR_SIZES && now.free[SizeIndex(size)] == Spliced(list, xs[..i])
  }

  lemma LinkStep(was: Queues, q: Queues, h: HashFn, list: seq<nat>, xs: seq<nat>, i: nat, size: nat)
    requires QueuesOk(q, h) && Linked(was, q, list, xs, i, size) && i < |xs| && Distinct(xs) && forall x :: x in xs ==> x !in was.bufs
    ensures var at := if list == [] then i else i + 1;
            && xs[i] !in q.bufs && at <= |q.free[SizeIndex(size)]|
            && Linked(was, WithFree(q, xs[i], size, at), list, xs, i + 1, size)
  {
    var at := if list == [] then i else i + 1;
    NotYet(xs, i);
    SplicedMore(list, xs, i);
    GrownMore(was, q, xs, i, size, at);
    GrowStep(q, h, xs[i], size, at);
  }

  lemma AllLinked(was: Queues, q: Queues, list: seq<nat>, xs: seq<nat>, size: nat)
    requires Linked(was, q, list, xs, |xs|, size)
    ensures Grown(was, q, xs, size) && (Unique(was) ==> Unique(q))
    ensures |q.free| == NR_SIZES && q.free[SizeIndex(size)] == Spliced(list, xs)
  {
    assert xs[..|xs|] == xs;
  }

  lemma NoneGrown(q: Queues, xs: seq<nat>, list: seq<nat>, size: nat)
    requires |q.free| == NR_SIZES && q.free[SizeIndex(size)] == list
    ensures Linked(q, q, list, xs, 0, size)
  {
    assert xs[..0] == [];
  }

  lemma NotYet(xs: seq<nat>, i: nat)
    requires Distinct(xs) && i < |xs|
    ensures xs[i] !in xs[..i]
  {
  }

  lemma GrownMore(was: Queues, now: Queues, xs: seq<nat>, i: nat, size: nat, at: nat)
    requires i < |xs| && Grown(was, now, xs[..i], size) && xs[i] !in was.bufs && xs[i] !in xs[..i]
    requires |now.free| == NR_SIZES && at <= |now.free[SizeIndex(size)]|
    ensures xs[i] !in now.bufs && Grown(was, WithFree(now, xs[i], size, at), xs[..i + 1], size)
  {
    assert xs[..i + 1] == xs[..i] + [xs[i]];
  }

  lemma TurnOk(q: Queues, h: HashFn, k: nat)
    requires QueuesOk(q, h) && k < NR_SIZES && q.free[k] != []
    ensures QueuesOk(q.(free := q.free[k := q.free[k][1..] + [q.free[k][0]]]), h)
  {
    var r := q.(free := q.free[k := q.free[k][1..] + [q.free[k][0]]]);
    forall l | 0 <= l < NR_LIST
      ensures LruOk(r, l)
    {
      assert LruOk(q, l);
      assert forall y :: OnLru(r, l, y) <==> OnLru(q, l, y);
    }
    forall m | 0 <= m < NR_SIZES
      ensures FreeOk(r, m)
    {
      assert FreeOk(q, m);
      assert forall y :: OnFree(r, m, y) <==> OnFree(q, m, y);
      assert q.free[k] == [q.free[k][0]] + q.free[k][1..];
    }
    forall n | 0 <= n < |r.hash|
      ensures HashOk(r, h, n)
    {
      assert HashOk(q, h, n);
      assert forall y :: OnHash(r, h, n, y) <==> OnHash(q, h, n, y);
    }
  }
}
