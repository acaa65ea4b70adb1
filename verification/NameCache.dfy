/**
 The name cache of fs/dcache.c: entries on two rings in order of use and on hash queues, where an entry that is
 used is copied from level 1 to level 2 and both copies stay hashed.  It is proved to be the two lists of
 NameCacheSpec.
 */
module NameCaches {
  import opened NameCacheSpec
  import opened Wrappers

  const QUEUES: nat := 32
  const NAME_LEN: nat := 15

  /** `hashed` says that the entry's hash link is not null. */
  datatype Entry = Entry(hashed: bool, item: Item)

  type HashFn = (nat, nat, string) -> nat

  function Queue(hash: HashFn, k: Key): nat {
    hash(k.dev, k.dir, k.name) % QUEUES
  }

  // ---------- a ring as a list of items ----------

  /** The hashed entries of a ring from its head on. */
  function Live(es: seq<Entry>, ring: seq<nat>): seq<Item>
    requires forall i :: 0 <= i < |ring| ==> ring[i] < |es|
  {
    if ring == [] then []
    else (if es[ring[0]].hashed then [es[ring[0]].item] else []) + Live(es, ring[1..])
  }

  /** A ring holds the entries from lo on, each once; those never used are at its head. */
  ghost predicate RingOk(es: seq<Entry>, ring: seq<nat>, lo: nat) {
    && |ring| == SIZE && lo + SIZE <= |es|
    && (forall i :: 0 <= i < |ring| ==> lo <= ring[i] < lo + SIZE)
    && (forall i, j :: 0 <= i < j < |ring| ==> ring[i] != ring[j])
    && (forall e :: lo <= e < lo + SIZE ==> e in ring)
    && (forall i, j :: 0 <= i < j < |ring| && es[ring[i]].hashed ==> es[ring[j]].hashed)
  }

  lemma {:induction false} LiveConcat(es: seq<Entry>, a: seq<nat>, b: seq<nat>)
    requires forall i :: 0 <= i < |a| ==> a[i] < |es|
    requires forall i :: 0 <= i < |b| ==> b[i] < |es|
    ensures Live(es, a + b) == Live(es, a) + Live(es, b)
  {
    if a == [] {
      assert a + b == b;
    } else {
      assert (a + b)[1..] == a[1..] + b;
      LiveConcat(es, a[1..], b);
      var h := if es[a[0]].hashed then [es[a[0]].item] else [];
      assert h + (Live(es, a[1..]) + Live(es, b)) == (h + Live(es, a[1..])) + Live(es, b);
    }
  }

  lemma {:induction false} LiveSame(es: seq<Entry>, es': seq<Entry>, ring: seq<nat>)
    requires |es'| == |es| && forall i :: 0 <= i < |ring| ==> ring[i] < |es| && es'[ring[i]] == es[ring[i]]
    ensures Live(es', ring) == Live(es, ring)
  {
    if ring != [] {
      LiveSame(es, es', ring[1..]);
    }
  }

  lemma {:induction false} LiveAll(es: seq<Entry>, ring: seq<nat>)
    requires forall i :: 0 <= i < |ring| ==> ring[i] < |es|
    ensures |Live(es, ring)| <= |ring|
    ensures (forall i :: 0 <= i < |ring| ==> es[ring[i]].hashed) ==> |Live(es, ring)| == |ring|
  {
    if ring != [] {
      LiveAll(es, ring[1..]);
    }
  }

  /** The key has a hashed entry on the ring. */
  ghost predicate OnRing(es: seq<Entry>, ring: seq<nat>, k: Key) {
    exists i :: 0 <= i < |ring| && ring[i] < |es| && es[ring[i]].hashed && es[ring[i]].item.key == k
  }

  lemma {:induction false} LiveHas(es: seq<Entry>, ring: seq<nat>, k: Key)
    requires forall i :: 0 <= i < |ring| ==> ring[i] < |es|
    ensures InoOf(Live(es, ring), k).Some? <==> OnRing(es, ring, k)
  {
    if ring != [] {
      LiveHas(es, ring[1..], k);
      var h, rest := es[ring[0]], ring[1..];
      if OnRing(es, rest, k) {
        var i :| 0 <= i < |rest| && rest[i] < |es| && es[rest[i]].hashed && es[rest[i]].item.key == k;
        assert ring[i + 1] == rest[i];
      }
      if OnRing(es, ring, k) && !(h.hashed && h.item.key == k) {
        var i :| 0 <= i < |ring| && ring[i] < |es| && es[ring[i]].hashed && es[ring[i]].item.key == k;
        assert rest[i - 1] == ring[i];
      }
      if h.hashed {
        assert Live(es, ring)[1..] == Live(es, rest);
      } else {
        assert Live(es, ring) == Live(es, rest);
      }
    }
  }

  lemma {:induction false} WithoutConcat(a: seq<Item>, b: seq<Item>, k: Key)
    ensures Without(a + b, k) == Without(a, k) + Without(b, k)
  {
    if a == [] {
      assert a + b == b;
    } else {
      assert (a + b)[1..] == a[1..] + b;
      WithoutConcat(a[1..], b, k);
      var h := if a[0].key == k then [] else [a[0]];
      assert h + (Without(a[1..], k) + Without(b, k)) == (h + Without(a[1..], k)) + Without(b, k);
    }
  }

  lemma {:induction false} WithoutNone(items: seq<Item>, k: Key)
    requires InoOf(items, k).None?
    ensures Without(items, k) == items
  {
    if items != [] {
      WithoutNone(items[1..], k);
    }
  }

  /** The ring with entry e taken out and put at its end. */
  function ToEnd(ring: seq<nat>, i: nat): seq<nat>
    requires i < |ring|
  {
    ring[..i] + ring[i + 1..] + [ring[i]]
  }

  lemma ToEndAt(ring: seq<nat>, i: nat, j: nat)
    requires i < |ring| && j < |ring|
    ensures |ToEnd(ring, i)| == |ring|
    ensures ToEnd(ring, i)[j] == ring[if j == |ring| - 1 then i else if j < i then j else j + 1]
    ensures ring[j] in ToEnd(ring, i)
  {
    var r, n := ToEnd(ring, i), |ring| - 1;
    assert r[if j == i then n else if j < i then j else j - 1] == ring[j];
  }

  lemma ToEndRing(es: seq<Entry>, es': seq<Entry>, ring: seq<nat>, lo: nat, i: nat)
    requires RingOk(es, ring, lo) && i < |ring| && |es'| == |es| && es'[ring[i]].hashed && (es[ring[i]].hashed || i == 0)
    requires forall e :: 0 <= e < |es| && e != ring[i] ==> es'[e] == es[e]
    ensures RingOk(es', ToEnd(ring, i), lo)
  {
    var r := ToEnd(ring, i);
    forall j, m | 0 <= j < m < |ring|
      ensures r[j] != r[m] && (es'[r[j]].hashed ==> es'[r[m]].hashed)
    {
      ToEndAt(ring, i, j);
      ToEndAt(ring, i, m);
    }
    forall j | 0 <= j < |ring|
      ensures lo <= r[j] < lo + SIZE
    {
      ToEndAt(ring, i, j);
    }
    forall e | lo <= e < lo + SIZE
      ensures e in r
    {
      assert e in ring;
      var j :| 0 <= j < |ring| && ring[j] == e;
      ToEndAt(ring, i, j);
    }
  }

  lemma {:induction false} LiveSplit(es: seq<Entry>, ring: seq<nat>, i: nat)
    requires (forall j :: 0 <= j < |ring| ==> ring[j] < |es|) && i < |ring| && es[ring[i]].hashed
    ensures Live(es, ring) == Live(es, ring[..i]) + [es[ring[i]].item] + Live(es, ring[i + 1..])
  {
    var a, e, b := ring[..i], ring[i], ring[i + 1..];
    assert ring == a + [e] + b;
    LiveConcat(es, a + [e], b);
    LiveConcat(es, a, [e]);
    LiveOne(es, e);
  }

  /** An entry at the end of the ring. */
  lemma {:induction false} LiveToEnd(es: seq<Entry>, ring: seq<nat>, lo: nat, i: nat, it: Item)
    requires RingOk(es, ring, lo) && i < |ring|
    ensures Live(es[ring[i] := Entry(true, it)], ToEnd(ring, i)) == Live(es, ring[..i]) + Live(es, ring[i + 1..]) + [it]
  {
    var a, e, b := ring[..i], ring[i], ring[i + 1..];
    var es' := es[e := Entry(true, it)];
    LiveSame(es, es', a);
    LiveSame(es, es', b);
    LiveConcat(es', a + b, [e]);
    LiveConcat(es', a, b);
    LiveOne(es', e);
  }

  lemma {:induction false} PushMiddle(a: seq<Item>, x: Item, b: seq<Item>, it: Item)
    requires x.key == it.key && InoOf(a, it.key).None? && InoOf(b, it.key).None? && |a| + |b| < SIZE
    ensures Push(a + [x] + b, it) == a + b + [it]
  {
    WithoutConcat(a + [x], b, it.key);
    WithoutConcat(a, [x], it.key);
    WithoutOne(x);
    WithoutNone(a, it.key);
    WithoutNone(b, it.key);
    assert a + [] == a;
  }

  /** An entry that is used again. */
  lemma {:induction false} LiveTouched(es: seq<Entry>, ring: seq<nat>, lo: nat, i: nat, it: Item)
    requires RingOk(es, ring, lo) && i < |ring| && es[ring[i]].hashed && es[ring[i]].item.key == it.key
    requires forall j :: 0 <= j < |ring| && j != i && es[ring[j]].hashed ==> es[ring[j]].item.key != it.key
    ensures Live(es[ring[i] := Entry(true, it)], ToEnd(ring, i)) == Push(Live(es, ring), it)
  {
    var a, b := ring[..i], ring[i + 1..];
    LiveSplit(es, ring, i);
    LiveToEnd(es, ring, lo, i, it);
    LiveHas(es, a, it.key);
    LiveHas(es, b, it.key);
    LiveAll(es, a);
    LiveAll(es, b);
    PushMiddle(Live(es, a), es[ring[i]].item, Live(es, b), it);
  }

  /** The oldest entry, taken for a new key. */
  lemma {:induction false} LiveReplaced(es: seq<Entry>, ring: seq<nat>, lo: nat, it: Item)
    requires RingOk(es, ring, lo) && !OnRing(es, ring, it.key)
    ensures Live(es[ring[0] := Entry(true, it)], ToEnd(ring, 0)) == Push(Live(es, ring), it)
  {
    var h, b := ring[0], ring[1..];
    LiveToEnd(es, ring, lo, 0, it);
    assert ring[..0] == [] && Live(es, ring[..0]) == [];
    LiveHas(es, ring, it.key);
    WithoutNone(Live(es, ring), it.key);
    LiveAll(es, b);
    if es[h].hashed {
      assert Live(es, ring) == [es[h].item] + Live(es, b);
      assert forall i :: 0 <= i < |b| ==> b[i] == ring[i + 1];
    }
  }

  lemma LiveOne(es: seq<Entry>, e: nat)
    requires e < |es| && es[e].hashed
    ensures Live(es, [e]) == [es[e].item]
  {
    assert [e][1..] == [];
  }

  lemma WithoutOne(it: Item)
    ensures Without([it], it.key) == []
  {
    assert [it][1..] == [];
  }

  // ---------- the hash queues ----------

  /** A queue: entries of its hash, and of two with one key the one of level 2 goes first. */
  ghost predicate ChainOk(es: seq<Entry>, chain: seq<nat>, q: nat, hash: HashFn) {
    && (forall i :: 0 <= i < |chain| ==> chain[i] < |es| && es[chain[i]].hashed && Queue(hash, es[chain[i]].item.key) == q)
    && (forall i, j :: 0 <= i < j < |chain| ==> chain[i] != chain[j] && Ranked(es, chain[i], chain[j]))
  }

  ghost predicate Ranked(es: seq<Entry>, e: nat, f: nat) {
    e < |es| && f < |es| && (es[e].item.key == es[f].item.key ==> f < SIZE <= e)
  }

  /** Every hashed entry is on its queue. */
  ghost predicate ChainsOk(es: seq<Entry>, chains: seq<seq<nat>>, hash: HashFn) {
    && |es| == 2 * SIZE && |chains| == QUEUES
    && (forall q :: 0 <= q < QUEUES ==> ChainOk(es, chains[q], q, hash))
    && (forall e :: 0 <= e < |es| && es[e].hashed ==> e in chains[Queue(hash, es[e].item.key)])
  }

  /** The first entry of a queue with the key. */
  ghost predicate IsFirst(es: seq<Entry>, chain: seq<nat>, k: Key, e: nat) {
    exists i :: 0 <= i < |chain| && chain[i] == e < |es| && es[e].item.key == k
                && forall j :: 0 <= j < i ==> chain[j] < |es| && es[chain[j]].item.key != k
  }

  /** The first entry found is the only one of its level, and of level 2 if there is one there. */
  lemma FirstIsOnly(es: seq<Entry>, chains: seq<seq<nat>>, hash: HashFn, k: Key, e: nat, f: nat)
    requires ChainsOk(es, chains, hash) && IsFirst(es, chains[Queue(hash, k)], k, e)
    requires f < |es| && es[f].hashed && es[f].item.key == k && f != e
    ensures es[e].hashed && f < SIZE <= e
  {
    var chain := chains[Queue(hash, k)];
    var i :| 0 <= i < |chain| && chain[i] == e < |es| && es[e].item.key == k
             && forall j :: 0 <= j < i ==> chain[j] < |es| && es[chain[j]].item.key != k;
    assert ChainOk(es, chain, Queue(hash, k), hash);
    assert f in chain;
    var m :| 0 <= m < |chain| && chain[m] == f;
    assert Ranked(es, chain[i], chain[m]);
  }

  function Unlinked(chain: seq<nat>, e: nat): (r: seq<nat>)
    ensures e !in r && forall x :: x in r <==> x in chain && x != e
  {
    if chain == [] then [] else if chain[0] == e then Unlinked(chain[1..], e) else [chain[0]] + Unlinked(chain[1..], e)
  }

  lemma {:induction false} UnlinkedOk(es: seq<Entry>, chain: seq<nat>, q: nat, hash: HashFn, e: nat, es': seq<Entry>)
    requires ChainOk(es, chain, q, hash) && |es'| == |es| && forall x :: 0 <= x < |es| && x != e ==> es'[x] == es[x]
    ensures ChainOk(es', Unlinked(chain, e), q, hash)
  {
    if chain != [] {
      var rest := chain[1..];
      assert ChainOk(es, rest, q, hash);
      UnlinkedOk(es, rest, q, hash, e, es');
      if chain[0] != e {
        var r := Unlinked(rest, e);
        forall x | x in r
          ensures chain[0] != x && Ranked(es', chain[0], x)
        {
          assert x in rest && x != e;
          var j :| 0 <= j < |rest| && rest[j] == x;
          assert chain[j + 1] == x && Ranked(es, chain[0], chain[j + 1]);
        }
        ConsOk(es', chain[0], r, q, hash);
      }
    }
  }

  lemma ConsOk(es: seq<Entry>, e: nat, chain: seq<nat>, q: nat, hash: HashFn)
    requires ChainOk(es, chain, q, hash) && e < |es| && es[e].hashed && Queue(hash, es[e].item.key) == q
    requires forall x :: x in chain ==> e != x && Ranked(es, e, x)
    ensures ChainOk(es, [e] + chain, q, hash)
  {
    var c := [e] + chain;
    forall i, j | 0 <= i < j < |c|
      ensures c[i] != c[j] && Ranked(es, c[i], c[j])
    {
      assert c[j] == chain[j - 1] && c[j] in chain;
      assert i > 0 ==> c[i] == chain[i - 1];
    }
  }

  /** `remove_hash` and `add_hash`: entry e leaves its queue, if it is on one, and heads that of its new key. */
  function Relinked(es: seq<Entry>, chains: seq<seq<nat>>, hash: HashFn, e: nat, k: Key): seq<seq<nat>>
    requires e < |es| && |chains| == QUEUES
  {
    var q0 := Queue(hash, es[e].item.key);
    var c1 := if es[e].hashed then chains[q0 := Unlinked(chains[q0], e)] else chains;
    c1[Queue(hash, k) := [e] + c1[Queue(hash, k)]]
  }

  lemma RelinkedOk(es: seq<Entry>, chains: seq<seq<nat>>, hash: HashFn, e: nat, it: Item)
    requires ChainsOk(es, chains, hash) && e < |es|
    requires forall x :: 0 <= x < |es| && x != e && es[x].hashed && es[x].item.key == it.key ==> x < SIZE <= e
    ensures ChainsOk(es[e := Entry(true, it)], Relinked(es, chains, hash, e, it.key), hash)
  {
    var es', q := es[e := Entry(true, it)], Queue(hash, it.key);
    var q0 := Queue(hash, es[e].item.key);
    var c1 := if es[e].hashed then chains[q0 := Unlinked(chains[q0], e)] else chains;
    var c2 := c1[q := [e] + c1[q]];
    forall p | 0 <= p < QUEUES
      ensures e !in c1[p] && ChainOk(es', c1[p], p, hash)
    {
      OffQueue(es, chains, hash, e, p);
      UnlinkedOk(es, chains[p], p, hash, e, es');
    }
    forall x | x in c1[q]
      ensures Ranked(es', e, x)
    {
      assert x in chains[q] && ChainOk(es, chains[q], q, hash);
    }
    ConsOk(es', e, c1[q], q, hash);
    forall x | 0 <= x < |es'| && es'[x].hashed
      ensures x in c2[Queue(hash, es'[x].item.key)]
    {
      if x != e {
        assert x in chains[Queue(hash, es[x].item.key)];
      }
    }
  }

  /** An entry is on no other queue than its own. */
  lemma OffQueue(es: seq<Entry>, chains: seq<seq<nat>>, hash: HashFn, e: nat, p: nat)
    requires ChainsOk(es, chains, hash) && e < |es| && p < QUEUES
    ensures !(es[e].hashed && p == Queue(hash, es[e].item.key)) ==> e !in chains[p] && Unlinked(chains[p], e) == chains[p]
  {
    assert ChainOk(es, chains[p], p, hash);
    if e !in chains[p] {
      UnlinkedNone(chains[p], e);
    }
  }

  lemma {:induction false} UnlinkedNone(chain: seq<nat>, e: nat)
    requires e !in chain
    ensures Unlinked(chain, e) == chain
  {
    if chain != [] {
      UnlinkedNone(chain[1..], e);
    }
  }

  // ---------- what a queue finds ----------

  /** On a ring where only entry e has the key, the key's inode number is that of e. */
  lemma {:induction false} LiveIno(es: seq<Entry>, ring: seq<nat>, k: Key, e: nat)
    requires (forall i :: 0 <= i < |ring| ==> ring[i] < |es|) && e in ring && es[e].hashed && es[e].item.key == k
    requires forall i :: 0 <= i < |ring| && es[ring[i]].hashed && es[ring[i]].item.key == k ==> ring[i] == e
    ensures InoOf(Live(es, ring), k) == Some(es[e].item.ino)
  {
    var h, rest := ring[0], ring[1..];
    if es[h].hashed && es[h].item.key == k {
      assert Live(es, ring)[0] == es[e].item;
    } else {
      LiveIno(es, rest, k, e);
      if es[h].hashed {
        assert Live(es, ring)[1..] == Live(es, rest);
      } else {
        assert Live(es, ring) == Live(es, rest);
      }
    }
  }

  ghost predicate CacheOk(es: seq<Entry>, one: seq<nat>, two: seq<nat>, chains: seq<seq<nat>>, hash: HashFn) {
    ChainsOk(es, chains, hash) && RingOk(es, one, 0) && RingOk(es, two, SIZE)
  }

  /** The first entry on the queue is what the two lists find. */
  lemma FirstIsFound(es: seq<Entry>, one: seq<nat>, two: seq<nat>, chains: seq<seq<nat>>, hash: HashFn, k: Key, e: nat)
    requires CacheOk(es, one, two, chains, hash) && IsFirst(es, chains[Queue(hash, k)], k, e)
    ensures es[e].hashed && (Has(Live(es, two), k) <==> e >= SIZE)
    ensures Found(Levels(Live(es, one), Live(es, two)), k) == Some(es[e].item.ino)
  {
    assert ChainOk(es, chains[Queue(hash, k)], Queue(hash, k), hash);
    forall f | 0 <= f < |es| && es[f].hashed && es[f].item.key == k && f != e
      ensures f < SIZE <= e
    {
      FirstIsOnly(es, chains, hash, k, e, f);
    }
    LiveHas(es, two, k);
    HasInoOf(Live(es, two), k);
    if e >= SIZE {
      assert e in two;
      LiveIno(es, two, k, e);
    } else {
      assert e in one;
      LiveIno(es, one, k, e);
    }
  }

  lemma NoneFound(es: seq<Entry>, one: seq<nat>, two: seq<nat>, chains: seq<seq<nat>>, hash: HashFn, k: Key)
    requires CacheOk(es, one, two, chains, hash) && forall e :: e in chains[Queue(hash, k)] ==> e < |es| && es[e].item.key != k
    ensures Found(Levels(Live(es, one), Live(es, two)), k) == None && !Has(Live(es, two), k)
    ensures forall e :: 0 <= e < |es| && es[e].hashed ==> es[e].item.key != k
  {
    LiveHas(es, one, k);
    LiveHas(es, two, k);
    HasInoOf(Live(es, two), k);
  }

  /** Only the entry that was found has its key on its ring. */
  lemma AloneOnRing(es: seq<Entry>, chains: seq<seq<nat>>, hash: HashFn, ring: seq<nat>, lo: nat, k: Key, i: nat)
    requires ChainsOk(es, chains, hash) && RingOk(es, ring, lo) && (lo == 0 || lo == SIZE) && i < |ring|
    requires IsFirst(es, chains[Queue(hash, k)], k, ring[i])
    ensures forall j :: 0 <= j < |ring| && j != i && es[ring[j]].hashed ==> es[ring[j]].item.key != k
  {
    forall j | 0 <= j < |ring| && j != i && es[ring[j]].hashed
      ensures es[ring[j]].item.key != k
    {
      if es[ring[j]].item.key == k {
        FirstIsOnly(es, chains, hash, k, ring[i], ring[j]);
      }
    }
  }

  function IndexIn(ring: seq<nat>, e: nat): (i: nat)
    requires e in ring
    ensures i < |ring| && ring[i] == e
  {
    if ring[0] == e then 0 else 1 + IndexIn(ring[1..], e)
  }

  /** A new inode number for an entry changes nothing on the queues. */
  lemma RenumberOk(es: seq<Entry>, chains: seq<seq<nat>>, hash: HashFn, e: nat, it: Item)
    requires ChainsOk(es, chains, hash) && e < |es| && es[e].hashed && es[e].item.key == it.key
    ensures ChainsOk(es[e := Entry(true, it)], chains, hash)
  {
    var es' := es[e := Entry(true, it)];
    forall q | 0 <= q < QUEUES
      ensures ChainOk(es', chains[q], q, hash)
    {
      assert ChainOk(es, chains[q], q, hash);
      forall i, j | 0 <= i < j < |chains[q]|
        ensures Ranked(es', chains[q][i], chains[q][j])
      {
        assert Ranked(es, chains[q][i], chains[q][j]);
      }
    }
  }

  lemma OtherRing(es: seq<Entry>, ring: seq<nat>, lo: nat, e: nat, x: Entry)
    requires RingOk(es, ring, lo) && e < |es| && !(lo <= e < lo + SIZE)
    ensures RingOk(es[e := x], ring, lo) && Live(es[e := x], ring) == Live(es, ring)
  {
    LiveSame(es, es[e := x], ring);
  }

  /** `update_lru` on a ring: the head moves on, or the entry is taken out and put before the head. */
  function UpdatedRing(ring: seq<nat>, e: nat): (r: seq<nat>)
    requires e in ring
    ensures r == ToEnd(ring, IndexIn(ring, e))
  {
    if ring[0] == e then ring[1..] + [ring[0]] else ToEnd(ring, IndexIn(ring, e))
  }

  /** An entry of level 1 used again. */
  lemma TouchedOne(es: seq<Entry>, one: seq<nat>, two: seq<nat>, chains: seq<seq<nat>>, hash: HashFn, e: nat, it: Item)
    requires CacheOk(es, one, two, chains, hash) && IsFirst(es, chains[Queue(hash, it.key)], it.key, e) && e < SIZE
    ensures e in one
    ensures var es', one' := es[e := Entry(true, it)], UpdatedRing(one, e);
            && CacheOk(es', one', two, chains, hash)
            && Live(es', one') == Push(Live(es, one), it) && Live(es', two) == Live(es, two)
  {
    FirstIsFound(es, one, two, chains, hash, it.key, e);
    RenumberOk(es, chains, hash, e, it);
    assert e in one;
    var i := IndexIn(one, e);
    AloneOnRing(es, chains, hash, one, 0, it.key, i);
    LiveTouched(es, one, 0, i, it);
    ToEndRing(es, es[e := Entry(true, it)], one, 0, i);
    OtherRing(es, two, SIZE, e, Entry(true, it));
  }

  /** An entry of level 2 used again. */
  lemma TouchedTwo(es: seq<Entry>, one: seq<nat>, two: seq<nat>, chains: seq<seq<nat>>, hash: HashFn, e: nat, it: Item)
    requires CacheOk(es, one, two, chains, hash) && IsFirst(es, chains[Queue(hash, it.key)], it.key, e) && e >= SIZE
    ensures e in two
    ensures var es', two' := es[e := Entry(true, it)], UpdatedRing(two, e);
            && CacheOk(es', one, two', chains, hash)
            && Live(es', two') == Push(Live(es, two), it) && Live(es', one) == Live(es, one)
  {
    FirstIsFound(es, one, two, chains, hash, it.key, e);
    RenumberOk(es, chains, hash, e, it);
    assert e in two;
    var i := IndexIn(two, e);
    AloneOnRing(es, chains, hash, two, SIZE, it.key, i);
    LiveTouched(es, two, SIZE, i, it);
    ToEndRing(es, es[e := Entry(true, it)], two, SIZE, i);
    OtherRing(es, one, 0, e, Entry(true, it));
  }

  /** The oldest entry of level 1, taken for a key that is nowhere. */
  lemma ReplacedOne(es: seq<Entry>, one: seq<nat>, two: seq<nat>, chains: seq<seq<nat>>, hash: HashFn, it: Item)
    requires CacheOk(es, one, two, chains, hash) && forall x :: 0 <= x < |es| && es[x].hashed ==> es[x].item.key != it.key
    ensures var e := one[0]; var es', one' := es[e := Entry(true, it)], one[1..] + [e];
            && CacheOk(es', one', two, Relinked(es, chains, hash, e, it.key), hash)
            && Live(es', one') == Push(Live(es, one), it) && Live(es', two) == Live(es, two)
  {
    var e := one[0];
    assert one[1..] + [e] == ToEnd(one, 0);
    RelinkedOk(es, chains, hash, e, it);
    LiveReplaced(es, one, 0, it);
    ToEndRing(es, es[e := Entry(true, it)], one, 0, 0);
    OtherRing(es, two, SIZE, e, Entry(true, it));
  }

  /** The oldest entry of level 2, taken for a key that is on level 1 only. */
  lemma ReplacedTwo(es: seq<Entry>, one: seq<nat>, two: seq<nat>, chains: seq<seq<nat>>, hash: HashFn, it: Item)
    requires CacheOk(es, one, two, chains, hash)
    requires forall x :: SIZE <= x < |es| && es[x].hashed ==> es[x].item.key != it.key
    ensures var e := two[0]; var es', two' := es[e := Entry(true, it)], two[1..] + [e];
            && CacheOk(es', one, two', Relinked(es, chains, hash, e, it.key), hash)
            && Live(es', two') == Push(Live(es, two), it) && Live(es', one) == Live(es, one)
  {
    var e := two[0];
    assert two[1..] + [e] == ToEnd(two, 0);
    RelinkedOk(es, chains, hash, e, it);
    LiveReplaced(es, two, SIZE, it);
    ToEndRing(es, es[e := Entry(true, it)], two, SIZE, 0);
    OtherRing(es, one, 0, e, Entry(true, it));
  }

  class NameCache {
    const hash: HashFn
    /** Level 1 is entries 0 .. 127, level 2 entries 128 .. 255. */
    var entries: seq<Entry>
    /** The rings, each from its head on. */
    var one: seq<nat>
    var two: seq<nat>
    var chains: seq<seq<nat>>

    ghost predicate Valid()
      reads this
    {
      CacheOk(entries, one, two, chains, hash)
    }

    ghost function Contents(): Levels
      requires Valid()
      reads this
    {
      Levels(Live(entries, one), Live(entries, two))
    }

    /** `name_cache_init`. */
    constructor (hash: HashFn)
      ensures Valid() && this.hash == hash && Contents() == Levels([], [])
    {
      this.hash := hash;
      entries := seq(2 * SIZE, _ => Entry(false, Item(Key(0, 0, 0, ""), 0)));
      one := seq(SIZE, i => i);
      two := seq(SIZE, i => SIZE + i);
      chains := seq(QUEUES, _ => []);
      new;
      forall e | 0 <= e < SIZE
        ensures e in one && SIZE + e in two
      {
        assert one[e] == e && two[e] == SIZE + e;
      }
      forall e | SIZE <= e < SIZE + SIZE
        ensures e in two
      {
        assert two[e - SIZE] == e;
      }
      LiveNothing(entries, one);
      LiveNothing(entries, two);
    }

    /** `find_entry`. */
    method FindEntry(k: Key) returns (de: Option<nat>)
      requires Valid()
      ensures de.None? ==> forall e :: e in chains[Queue(hash, k)] ==> e < |entries| && entries[e].item.key != k
      ensures de.Some? ==> IsFirst(entries, chains[Queue(hash, k)], k, de.value)
    {
      var chain := chains[Queue(hash, k)];
      assert ChainOk(entries, chain, Queue(hash, k), hash);
      var i := 0;
      while i < |chain|
        invariant 0 <= i <= |chain| && forall j :: 0 <= j < i ==> entries[chain[j]].item.key != k
      {
        if entries[chain[i]].item.key == k {
          return Some(chain[i]);
        }
        i := i + 1;
      }
      return None;
    }

    /** `update_lru`, for the entry found for its key, with the inode number it has or was just given. */
    method UpdateLru(e: nat, it: Item)
      requires Valid() && IsFirst(entries, chains[Queue(hash, it.key)], it.key, e)
      modifies this`entries, this`one, this`two
      ensures Valid()
      ensures e < SIZE ==> Contents() == old(Contents()).(one := Push(old(Contents()).one, it))
      ensures e >= SIZE ==> Contents() == old(Contents()).(two := Push(old(Contents()).two, it))
    {
      if e < SIZE {
        UpdateLruOne(e, it);
      } else {
        UpdateLruTwo(e, it);
      }
    }

    method UpdateLruOne(e: nat, it: Item)
      requires Valid() && IsFirst(entries, chains[Queue(hash, it.key)], it.key, e) && e < SIZE
      modifies this`entries, this`one
      ensures Valid() && Contents() == old(Contents()).(one := Push(old(Contents()).one, it))
    {
      TouchedOne(entries, one, two, chains, hash, e, it);
      entries, one := entries[e := Entry(true, it)], UpdatedRing(one, e);
    }

    method UpdateLruTwo(e: nat, it: Item)
      requires Valid() && IsFirst(entries, chains[Queue(hash, it.key)], it.key, e) && e >= SIZE
      modifies this`entries, this`two
      ensures Valid() && Contents() == old(Contents()).(two := Push(old(Contents()).two, it))
    {
      TouchedTwo(entries, one, two, chains, hash, e, it);
      entries, two := entries[e := Entry(true, it)], UpdatedRing(two, e);
    }

    /** `move_to_level2`: the entry becomes the most recent of level 2, a copy of it if it is of level 1. */
    method MoveToLevel2(e: nat, k: Key)
      requires Valid() && IsFirst(entries, chains[Queue(hash, k)], k, e)
      modifies this`entries, this`two, this`one, this`chains
      ensures Valid()
      ensures Contents() == old(Contents()).(two := Push(old(Contents()).two, Item(k, old(entries)[e].item.ino)))
    {
      if e >= SIZE {
        UpdateLru(e, entries[e].item);
        return;
      }
      OnlyOnLevelOne(entries, chains, hash, k, e);
      var it := entries[e].item;
      ReplacedTwo(entries, one, two, chains, hash, it);
      var de := two[0];
      two := two[1..] + [de];
      chains := Relinked(entries, chains, hash, de, k);
      entries := entries[de := Entry(true, it)];
    }

    /** `dcache_lookup`. */
    method Lookup(k: Key) returns (ino: Option<nat>)
      requires Valid()
      modifies this`entries, this`two, this`one, this`chains
      ensures Valid()
      ensures |k.name| > NAME_LEN ==> ino == None && Contents() == old(Contents())
      ensures |k.name| <= NAME_LEN ==> ino == Found(old(Contents()), k) && Contents() == Step(old(Contents()), Event.Lookup(k))
    {
      if |k.name| > NAME_LEN {
        return None;
      }
      var de := FindEntry(k);
      if de == None {
        NoneFound(entries, one, two, chains, hash, k);
        return None;
      }
      FirstIsFound(entries, one, two, chains, hash, k, de.value);
      ino := Some(entries[de.value].item.ino);
      MoveToLevel2(de.value, k);
    }

    /** `dcache_add`. */
    method Add(k: Key, ino: nat)
      requires Valid()
      modifies this`entries, this`two, this`one, this`chains
      ensures Valid()
      ensures |k.name| > NAME_LEN ==> Contents() == old(Contents())
      ensures |k.name| <= NAME_LEN ==> Contents() == Step(old(Contents()), Event.Add(k, ino))
    {
      if |k.name| > NAME_LEN {
        return;
      }
      var found := FindEntry(k);
      if found.Some? {
        FirstIsFound(entries, one, two, chains, hash, k, found.value);
        UpdateLru(found.value, Item(k, ino));
        return;
      }
      NoneFound(entries, one, two, chains, hash, k);
      ReplacedOne(entries, one, two, chains, hash, Item(k, ino));
      var de := one[0];
      one := one[1..] + [de];
      chains := Relinked(entries, chains, hash, de, k);
      entries := entries[de := Entry(true, Item(k, ino))];
    }
  }

  lemma {:induction false} LiveNothing(es: seq<Entry>, ring: seq<nat>)
    requires forall i :: 0 <= i < |ring| ==> ring[i] < |es| && !es[ring[i]].hashed
    ensures Live(es, ring) == []
  {
    if ring != [] {
      LiveNothing(es, ring[1..]);
    }
  }

  lemma OnlyOnLevelOne(es: seq<Entry>, chains: seq<seq<nat>>, hash: HashFn, k: Key, e: nat)
    requires ChainsOk(es, chains, hash) && IsFirst(es, chains[Queue(hash, k)], k, e) && e < SIZE
    ensures forall x :: SIZE <= x < |es| && es[x].hashed ==> es[x].item.key != k
  {
    forall x | SIZE <= x < |es| && es[x].hashed
      ensures es[x].item.key != k
    {
      if es[x].item.key == k {
        FirstIsOnly(es, chains, hash, k, e, x);
      }
    }
  }
}
