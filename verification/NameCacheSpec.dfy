/**
 The name cache of fs/dcache.c as two lists in order of use, and what such a cache holds over whole runs.
 */
module NameCacheSpec {
  import opened Wrappers

  const SIZE: nat := 128

  /** A name in a directory of a device, in one version of the directory. */
  datatype Key = Key(dev: nat, dir: nat, version: nat, name: string)

  datatype Item = Item(key: Key, ino: nat)

  /** The two levels, oldest first. */
  datatype Levels = Levels(one: seq<Item>, two: seq<Item>)

  datatype Event = Lookup(key: Key) | Add(key: Key, ino: nat)

  predicate Has(items: seq<Item>, k: Key) {
    exists i :: 0 <= i < |items| && items[i].key == k
  }

  /** The inode number of the first item with the key. */
  function InoOf(items: seq<Item>, k: Key): Option<nat> {
    if items == [] then None else if items[0].key == k then Some(items[0].ino) else InoOf(items[1..], k)
  }

  function Without(items: seq<Item>, k: Key): (r: seq<Item>)
    ensures |r| <= |items| && (Has(items, k) ==> |r| < |items|)
  {
    if items == [] then []
    else if items[0].key == k then Without(items[1..], k)
    else [items[0]] + Without(items[1..], k)
  }

  function Newest<T>(s: seq<T>, n: nat): seq<T> {
    if |s| > n then s[|s| - n..] else s
  }

  /** The item becomes the most recent; beyond SIZE the oldest goes. */
  function Push(items: seq<Item>, it: Item): seq<Item> {
    Newest(Without(items, it.key) + [it], SIZE)
  }

  /** What a lookup finds: level 2 goes before level 1. */
  function Found(s: Levels, k: Key): Option<nat> {
    if Has(s.two, k) then InoOf(s.two, k) else InoOf(s.one, k)
  }

  function Step(s: Levels, e: Event): Levels {
    match e
    case Lookup(k) => if Found(s, k).Some? then s.(two := Push(s.two, Item(k, Found(s, k).value))) else s
    case Add(k, ino) =>
      if Has(s.two, k) then s.(two := Push(s.two, Item(k, ino))) else s.(one := Push(s.one, Item(k, ino)))
  }

  function Run(s: Levels, events: seq<Event>): Levels
    decreases |events|
  {
    if events == [] then s else Run(Step(s, events[0]), events[1..])
  }

  lemma {:induction false} HasInoOf(items: seq<Item>, k: Key)
    ensures Has(items, k) <==> InoOf(items, k).Some?
    ensures InoOf(items, k).Some? ==> exists i :: 0 <= i < |items| && items[i] == Item(k, InoOf(items, k).value)
  {
    if items != [] {
      HasInoOf(items[1..], k);
      if items[0].key != k {
        if Has(items, k) {
          var i :| 0 <= i < |items| && items[i].key == k;
          assert items[1..][i - 1].key == k;
        }
        if InoOf(items[1..], k).Some? {
          var i :| 0 <= i < |items[1..]| && items[1..][i] == Item(k, InoOf(items[1..], k).value);
          assert items[i + 1] == Item(k, InoOf(items, k).value);
        }
      }
    }
  }

  // ---------- the most recently used keys ----------

  /** The keys of a history without repetition, in the order of their last use. */
  function Recent(uses: seq<Key>): seq<Key> {
    if uses == [] then [] else Drop(Recent(uses[..|uses| - 1]), uses[|uses| - 1]) + [uses[|uses| - 1]]
  }

  function Drop(keys: seq<Key>, k: Key): (r: seq<Key>)
    ensures k !in r && forall x :: x in r <==> x in keys && x != k
  {
    if keys == [] then [] else if keys[0] == k then Drop(keys[1..], k) else [keys[0]] + Drop(keys[1..], k)
  }

  /** When a key was last used. */
  function LastUse(uses: seq<Key>, k: Key): (i: nat)
    requires k in uses
    ensures i < |uses| && uses[i] == k && forall j :: i < j < |uses| ==> uses[j] != k
  {
    if uses[|uses| - 1] == k then |uses| - 1 else LastUse(uses[..|uses| - 1], k)
  }

  ghost predicate ByLastUse(uses: seq<Key>, keys: seq<Key>) {
    && (forall i :: 0 <= i < |keys| ==> keys[i] in uses)
    && (forall i, j :: 0 <= i < j < |keys| ==> LastUse(uses, keys[i]) < LastUse(uses, keys[j]))
  }

  /** Dropping a key keeps the order of the others. */
  lemma {:induction false} DropKeepsOrder(uses: seq<Key>, keys: seq<Key>, k: Key)
    requires ByLastUse(uses, keys)
    ensures ByLastUse(uses, Drop(keys, k))
  {
    if keys != [] {
      var rest := keys[1..];
      DropKeepsOrder(uses, rest, k);
      if keys[0] != k {
        forall x | x in Drop(rest, k)
          ensures LastUse(uses, keys[0]) < LastUse(uses, x)
        {
          assert x in rest;
          var m :| 0 <= m < |rest| && rest[m] == x;
          assert rest[m] == keys[m + 1];
        }
        OldestFirst(uses, keys[0], Drop(rest, k));
      }
    }
  }

  lemma {:induction false} OldestFirst(uses: seq<Key>, x: Key, keys: seq<Key>)
    requires ByLastUse(uses, keys) && x in uses && forall k :: k in keys ==> k in uses && LastUse(uses, x) < LastUse(uses, k)
    ensures ByLastUse(uses, [x] + keys)
  {
    forall i, j | 0 <= i < j < |[x] + keys|
      ensures LastUse(uses, ([x] + keys)[i]) < LastUse(uses, ([x] + keys)[j])
    {
      assert ([x] + keys)[j] == keys[j - 1] && keys[j - 1] in keys;
      assert i > 0 ==> ([x] + keys)[i] == keys[i - 1];
    }
  }

  /** Recent holds exactly the keys used, in the order of their last uses (so none twice). */
  lemma {:induction false} RecentIs(uses: seq<Key>)
    ensures forall k :: k in Recent(uses) <==> k in uses
    ensures ByLastUse(uses, Recent(uses))
  {
    if uses != [] {
      var n := |uses| - 1;
      var front, k := uses[..n], uses[n];
      RecentIs(front);
      assert uses == front + [k];
      DropKeepsOrder(front, Recent(front), k);
      var d := Drop(Recent(front), k);
      forall i | 0 <= i < |d|
        ensures d[i] in uses && LastUse(uses, d[i]) == LastUse(front, d[i]) < n
      {
        assert d[i] in d;
      }
    }
  }

  function Keys(items: seq<Item>): (r: seq<Key>)
    ensures |r| == |items| && forall i :: 0 <= i < |r| ==> r[i] == items[i].key
  {
    if items == [] then [] else [items[0].key] + Keys(items[1..])
  }

  lemma {:induction false} KeysWithout(items: seq<Item>, k: Key)
    ensures Keys(Without(items, k)) == Drop(Keys(items), k)
  {
    if items != [] {
      KeysWithout(items[1..], k);
    }
  }

  lemma {:induction false} DropConcat(a: seq<Key>, b: seq<Key>, k: Key)
    ensures Drop(a + b, k) == Drop(a, k) + Drop(b, k)
  {
    if a == [] {
      assert a + b == b;
    } else {
      assert (a + b)[1..] == a[1..] + b;
      DropConcat(a[1..], b, k);
      var h := if a[0] == k then [] else [a[0]];
      assert h + (Drop(a[1..], k) + Drop(b, k)) == (h + Drop(a[1..], k)) + Drop(b, k);
    }
  }

  lemma {:induction false} DropOne(keys: seq<Key>, k: Key)
    requires forall i, j :: 0 <= i < j < |keys| ==> keys[i] != keys[j]
    ensures |keys| - 1 <= |Drop(keys, k)| && (k !in keys ==> Drop(keys, k) == keys)
  {
    if keys != [] {
      DropOne(keys[1..], k);
      assert keys[0] !in keys[1..];
    }
  }

  lemma NewestSuffix<T>(a: seq<T>, b: seq<T>, n: nat)
    requires |b| >= n
    ensures Newest(a + b, n) == Newest(b, n)
  {
  }

  lemma {:induction false} TailDistinct(uses: seq<Key>, m: nat)
    requires m <= |Recent(uses)|
    ensures var tail := Recent(uses)[m..]; forall i, j :: 0 <= i < j < |tail| ==> tail[i] != tail[j]
  {
    RecentIs(uses);
  }

  /** Keeping the newest SIZE keys at every step is keeping the newest SIZE keys of the whole history. */
  lemma {:induction false} NewestOfRecent(uses: seq<Key>, k: Key)
    ensures Newest(Drop(Newest(Recent(uses), SIZE), k) + [k], SIZE) == Newest(Recent(uses + [k]), SIZE)
  {
    var all := Recent(uses);
    assert (uses + [k])[..|uses|] == uses;
    if |all| > SIZE {
      var front, tail := all[..|all| - SIZE], all[|all| - SIZE..];
      assert all == front + tail;
      TailDistinct(uses, |all| - SIZE);
      DropOne(tail, k);
      DropConcat(front, tail, k);
      assert Recent(uses + [k]) == Drop(front, k) + (Drop(tail, k) + [k]);
      NewestSuffix(Drop(front, k), Drop(tail, k) + [k], SIZE);
    }
  }

  // ---------- runs ----------

  /** A use: a lookup that hits, or an addition that finds its key in level 2. */
  function UsedBy(s: Levels, e: Event): seq<Key> {
    match e
    case Lookup(k) => if Found(s, k).Some? then [k] else []
    case Add(k, _) => if Has(s.two, k) then [k] else []
  }

  function Uses(s: Levels, events: seq<Event>): seq<Key>
    decreases |events|
  {
    if events == [] then [] else UsedBy(s, events[0]) + Uses(Step(s, events[0]), events[1..])
  }

  lemma {:induction false} NewestKeys(items: seq<Item>)
    ensures Keys(Newest(items, SIZE)) == Newest(Keys(items), SIZE)
  {
  }

  /** Level 2 holds the SIZE most recently used keys of a history, in the order of their last uses. */
  ghost predicate TwoIsRecent(s: Levels, uses: seq<Key>) {
    Keys(s.two) == Newest(Recent(uses), SIZE)
  }

  lemma {:induction false} StepUses(s: Levels, e: Event, uses: seq<Key>)
    requires TwoIsRecent(s, uses)
    ensures TwoIsRecent(Step(s, e), uses + UsedBy(s, e))
  {
    var u := UsedBy(s, e);
    if u == [] {
      assert uses + u == uses;
    } else {
      var it := if e.Add? then Item(e.key, e.ino) else Item(e.key, Found(s, e.key).value);
      PushKeys(s.two, it);
      NewestOfRecent(uses, e.key);
    }
  }

  lemma {:induction false} PushKeys(items: seq<Item>, it: Item)
    ensures Keys(Push(items, it)) == Newest(Drop(Keys(items), it.key) + [it.key], SIZE)
  {
    KeysWithout(items, it.key);
    NewestKeys(Without(items, it.key) + [it]);
    assert Keys(Without(items, it.key) + [it]) == Drop(Keys(items), it.key) + [it.key];
  }

  lemma {:induction false} RunUses(s: Levels, events: seq<Event>, before: seq<Key>)
    requires TwoIsRecent(s, before)
    ensures TwoIsRecent(Run(s, events), before + Uses(s, events))
    decreases |events|
  {
    if events == [] {
      assert before + Uses(s, events) == before;
    } else {
      var u, rest := UsedBy(s, events[0]), Uses(Step(s, events[0]), events[1..]);
      StepUses(s, events[0], before);
      RunUses(Step(s, events[0]), events[1..], before + u);
      assert (before + u) + rest == before + (u + rest);
    }
  }

  /** From an empty cache, for every run. */
  lemma LevelTwoIsRecent(events: seq<Event>)
    ensures TwoIsRecent(Run(Levels([], []), events), Uses(Levels([], []), events))
  {
    RunUses(Levels([], []), events, []);
    assert [] + Uses(Levels([], []), events) == Uses(Levels([], []), events);
  }

  /** However many additions of keys that are not in level 2: level 2 stays as it is. */
  lemma {:induction false} AddsEvictNothing(s: Levels, events: seq<Event>)
    requires forall i :: 0 <= i < |events| ==> events[i].Add? && !Has(s.two, events[i].key)
    ensures Run(s, events).two == s.two
    decreases |events|
  {
    if events != [] {
      AddsEvictNothing(Step(s, events[0]), events[1..]);
    }
  }

  // ---------- what a hit gives ----------

  /** Every item stems from an addition. */
  ghost predicate Stems(items: seq<Item>, events: seq<Event>) {
    forall i :: 0 <= i < |items| ==> Add(items[i].key, items[i].ino) in events
  }

  lemma {:induction false} WithoutStems(items: seq<Item>, k: Key, events: seq<Event>)
    requires Stems(items, events)
    ensures Stems(Without(items, k), events)
  {
    if items != [] {
      WithoutStems(items[1..], k, events);
    }
  }

  lemma {:induction false} PushStems(items: seq<Item>, it: Item, events: seq<Event>)
    requires Stems(items, events) && Add(it.key, it.ino) in events
    ensures Stems(Push(items, it), events)
  {
    WithoutStems(items, it.key, events);
  }

  lemma {:induction false} FoundStems(s: Levels, k: Key, events: seq<Event>)
    requires Stems(s.one, events) && Stems(s.two, events)
    ensures Found(s, k).Some? ==> Add(k, Found(s, k).value) in events
  {
    HasInoOf(s.one, k);
    HasInoOf(s.two, k);
  }

  lemma {:induction false} RunStems(s: Levels, past: seq<Event>, events: seq<Event>)
    requires Stems(s.one, past) && Stems(s.two, past)
    ensures Stems(Run(s, events).one, past + events) && Stems(Run(s, events).two, past + events)
    decreases |events|
  {
    if events == [] {
      assert past + events == past;
    } else {
      var e, now := events[0], past + [events[0]];
      FoundStems(s, e.key, past);
      assert Stems(s.one, now) && Stems(s.two, now);
      if e.Add? {
        PushStems(s.one, Item(e.key, e.ino), now);
        PushStems(s.two, Item(e.key, e.ino), now);
      } else if Found(s, e.key).Some? {
        PushStems(s.two, Item(e.key, Found(s, e.key).value), now);
      }
      RunStems(Step(s, e), now, events[1..]);
      assert now + events[1..] == past + events;
    }
  }

  /** A hit gives an inode number that was added for exactly that device, directory, version and name. */
  lemma HitWasAdded(events: seq<Event>, k: Key)
    ensures var s := Run(Levels([], []), events); Found(s, k).Some? ==> Add(k, Found(s, k).value) in events
  {
    RunStems(Levels([], []), [], events);
    assert [] + events == events;
    FoundStems(Run(Levels([], []), events), k, events);
  }

  lemma {:induction false} WithoutHas(items: seq<Item>, k: Key)
    ensures InoOf(Without(items, k), k) == None
  {
    if items != [] {
      WithoutHas(items[1..], k);
    }
  }

  lemma {:induction false} InoOfSnoc(items: seq<Item>, it: Item)
    requires InoOf(items, it.key).None?
    ensures InoOf(items + [it], it.key) == Some(it.ino)
  {
    if items != [] {
      assert (items + [it])[1..] == items[1..] + [it];
      InoOfSnoc(items[1..], it);
    }
  }

  lemma {:induction false} InoOfTail(items: seq<Item>, m: nat, k: Key)
    requires m <= |items| && InoOf(items, k).None?
    ensures InoOf(items[m..], k).None?
    decreases m
  {
    if m > 0 {
      InoOfTail(items[1..], m - 1, k);
      assert items[1..][m - 1..] == items[m..];
    }
  }

  lemma {:induction false} PushedIno(items: seq<Item>, it: Item)
    ensures Has(Push(items, it), it.key) && InoOf(Push(items, it), it.key) == Some(it.ino)
  {
    var w := Without(items, it.key);
    WithoutHas(items, it.key);
    var m := if |w| + 1 > SIZE then |w| + 1 - SIZE else 0;
    InoOfTail(w, m, it.key);
    InoOfSnoc(w[m..], it);
    assert Push(items, it) == w[m..] + [it];
    HasInoOf(Push(items, it), it.key);
  }

  /** A level that has the key gives this number for it. */
  predicate Gives(items: seq<Item>, k: Key, ino: nat) {
    InoOf(items, k).Some? ==> InoOf(items, k) == Some(ino)
  }

  /** An addition is found by the next lookup.  But it reaches the copies on both levels only if it need not: a key
      on both levels is refreshed on level 2, and its copy on level 1 keeps what it had. */
  lemma AddIsFound(s: Levels, k: Key, ino: nat)
    ensures var t := Step(s, Add(k, ino));
            && Found(t, k) == Some(ino)
            && (Gives(t.one, k, ino) && Gives(t.two, k, ino) <==> !(Has(s.two, k) && !Gives(s.one, k, ino)))
  {
    if Has(s.two, k) {
      PushedIno(s.two, Item(k, ino));
    } else {
      PushedIno(s.one, Item(k, ino));
      HasInoOf(s.two, k);
    }
  }

  // ---------- stale copies over runs ----------

  /** All items with the key give this number. */
  ghost predicate Only(items: seq<Item>, k: Key, ino: nat) {
    forall i :: 0 <= i < |items| && items[i].key == k ==> items[i].ino == ino
  }

  lemma {:induction false} WithoutOnly(items: seq<Item>, x: Key, k: Key, ino: nat)
    requires Only(items, k, ino)
    ensures Only(Without(items, x), k, ino)
  {
    if items != [] {
      WithoutOnly(items[1..], x, k, ino);
    }
  }

  lemma {:induction false} PushOnly(items: seq<Item>, it: Item, k: Key, ino: nat)
    requires Only(items, k, ino) && (it.key == k ==> it.ino == ino)
    ensures Only(Push(items, it), k, ino)
  {
    WithoutOnly(items, it.key, k, ino);
  }

  lemma {:induction false} FoundOnly(s: Levels, k: Key, ino: nat)
    requires Only(s.one, k, ino) && Only(s.two, k, ino)
    ensures Found(s, k) == None || Found(s, k) == Some(ino)
  {
    HasInoOf(s.one, k);
    HasInoOf(s.two, k);
  }

  /** The key is not added. */
  predicate NoAdd(events: seq<Event>, k: Key) {
    forall i :: 0 <= i < |events| && events[i].Add? ==> events[i].key != k
  }

  /** Each level keeps its number, unless a lookup takes that of level 1 to level 2. */
  lemma {:induction false} StepOnly(s: Levels, e: Event, k: Key, c: nat, ino: nat)
    requires Only(s.one, k, c) && Only(s.two, k, ino) && NoAdd([e], k) && (c == ino || Has(s.two, k))
    ensures Only(Step(s, e).one, k, c) && Only(Step(s, e).two, k, ino)
  {
    HasInoOf(s.one, e.key);
    HasInoOf(s.two, e.key);
    assert e.Add? ==> [e][0].key != k;
    if e.Add? {
      PushOnly(s.one, Item(e.key, e.ino), k, c);
      PushOnly(s.two, Item(e.key, e.ino), k, ino);
    } else if Found(s, e.key).Some? {
      PushOnly(s.two, Item(e.key, Found(s, e.key).value), k, ino);
    }
  }

  /** At some time of the run level 2 is without the key. */
  predicate Leaves(s: Levels, events: seq<Event>, k: Key)
    decreases |events|
  {
    !Has(s.two, k) || (events != [] && Leaves(Step(s, events[0]), events[1..], k))
  }

  /** Two numbers for one key: that of level 2 lasts until the key leaves it, and from then on that of level 1. */
  lemma {:induction false} LeavesDecides(s: Levels, events: seq<Event>, k: Key, c: nat, ino: nat)
    requires Only(s.one, k, c) && Only(s.two, k, ino) && NoAdd(events, k)
    ensures var t := Run(s, events);
            Only(t.one, k, c) && if Leaves(s, events, k) then Only(t.two, k, c) else Has(t.two, k) && Only(t.two, k, ino)
    decreases |events|
  {
    var x := if Has(s.two, k) then ino else c;
    assert Only(s.two, k, x);
    if events != [] {
      StepOnly(s, events[0], k, c, x);
      LeavesDecides(Step(s, events[0]), events[1..], k, c, x);
    }
  }

  ghost predicate Distinct(items: seq<Item>) {
    forall i, j :: 0 <= i < j < |items| ==> items[i].key != items[j].key
  }

  lemma {:induction false} WithoutDistinct(items: seq<Item>, k: Key)
    requires Distinct(items)
    ensures Distinct(Without(items, k)) && forall it :: it in Without(items, k) ==> it in items && it.key != k
  {
    if items != [] {
      WithoutDistinct(items[1..], k);
      var w := Without(items[1..], k);
      forall j | 0 <= j < |w|
        ensures w[j].key != items[0].key
      {
        assert w[j] in items[1..];
      }
    }
  }

  lemma {:induction false} PushDistinct(items: seq<Item>, it: Item)
    requires Distinct(items)
    ensures Distinct(Push(items, it))
  {
    WithoutDistinct(items, it.key);
    var w := Without(items, it.key);
    assert forall i :: 0 <= i < |w| ==> w[i] in w;
    assert Distinct(w + [it]);
  }

  lemma {:induction false} RunDistinct(s: Levels, events: seq<Event>)
    requires Distinct(s.one) && Distinct(s.two)
    ensures Distinct(Run(s, events).one) && Distinct(Run(s, events).two)
    decreases |events|
  {
    if events != [] {
      var e := events[0];
      if e.Add? {
        PushDistinct(s.one, Item(e.key, e.ino));
        PushDistinct(s.two, Item(e.key, e.ino));
      } else if Found(s, e.key).Some? {
        PushDistinct(s.two, Item(e.key, Found(s, e.key).value));
      }
      RunDistinct(Step(s, e), events[1..]);
    }
  }

  /** In a level without repetition the number of a key is the only one. */
  lemma {:induction false} DistinctOnly(items: seq<Item>, k: Key, ino: nat)
    requires Distinct(items) && Gives(items, k, ino)
    ensures Only(items, k, ino)
  {
    HasInoOf(items, k);
  }

  lemma {:induction false} RunSplit(s: Levels, a: seq<Event>, b: seq<Event>)
    ensures Run(s, a + b) == Run(Run(s, a), b)
    decreases |a|
  {
    if a == [] {
      assert a + b == b;
    } else {
      assert (a + b)[1..] == a[1..] + b;
      RunSplit(Step(s, a[0]), a[1..], b);
    }
  }

  /** When a hit gives an older number than the last one added: the addition found the key on level 2 while level 1 had
      another number for it, and level 2 has since been without the key. */
  lemma StaleIff(before: seq<Event>, k: Key, ino: nat, after: seq<Event>)
    requires NoAdd(after, k)
    ensures var s := Run(Levels([], []), before);
            var t := Run(Levels([], []), before + [Add(k, ino)] + after);
            Found(t, k).Some? ==>
              (Found(t, k) != Some(ino) <==> Has(s.two, k) && !Gives(s.one, k, ino) && Leaves(Step(s, Add(k, ino)), after, k))
  {
    var s := Run(Levels([], []), before);
    var s1 := Step(s, Add(k, ino));
    RunSplit(Levels([], []), before + [Add(k, ino)], after);
    RunSplit(Levels([], []), before, [Add(k, ino)]);
    assert Run(s, [Add(k, ino)]) == s1 by {
      assert [Add(k, ino)][1..] == [];
    }
    RunDistinct(Levels([], []), before);
    StaleStep(s, k, ino, after);
  }

  lemma StaleStep(s: Levels, k: Key, ino: nat, after: seq<Event>)
    requires NoAdd(after, k) && Distinct(s.one) && Distinct(s.two)
    ensures var s1 := Step(s, Add(k, ino));
            var t := Run(s1, after);
            Found(t, k).Some? ==> (Found(t, k) != Some(ino) <==> Has(s.two, k) && !Gives(s.one, k, ino) && Leaves(s1, after, k))
  {
    var s1 := Step(s, Add(k, ino));
    var t := Run(s1, after);
    RunDistinct(s, [Add(k, ino)]);
    assert [Add(k, ino)][1..] == [];
    assert Run(s, [Add(k, ino)]) == s1;
    AddIsFound(s, k, ino);
    var c := if Gives(s1.one, k, ino) then ino else InoOf(s.one, k).value;
    DistinctOnly(s1.one, k, c);
    DistinctOnly(s1.two, k, ino);
    LeavesDecides(s1, after, k, c, ino);
    HasInoOf(t.two, k);
    if Leaves(s1, after, k) {
      FoundOnly(t, k, c);
    }
  }

  // ---------- a run with a stale hit ----------

  const OTHER: Key := Key(0, 0, 0, "b")
  const STALE: Key := Key(0, 0, 0, "a")

  /** Key j of many. */
  function Fresh(j: nat): Key {
    Key(0, 0, j, "c")
  }

  function Added(n: nat): (items: seq<Item>)
    ensures |items| == n && forall j :: 0 <= j < n ==> items[j] == Item(Fresh(j), 0)
  {
    seq(n, j requires 0 <= j => Item(Fresh(j), 0))
  }

  /** The first n of them are added and looked up, one after the other. */
  function Fill(n: nat): seq<Event> {
    if n == 0 then [] else Fill(n - 1) + [Add(Fresh(n - 1), 0), Event.Lookup(Fresh(n - 1))]
  }

  lemma {:induction false} WithoutNone(items: seq<Item>, k: Key)
    requires !Has(items, k)
    ensures Without(items, k) == items && InoOf(items, k) == None
  {
    if items != [] {
      assert forall i :: 0 <= i < |items[1..]| ==> items[1..][i] == items[i + 1];
      WithoutNone(items[1..], k);
    }
  }

  /** A new key is added and looked up. */
  lemma {:induction false} AddLookup(s: Levels, k: Key)
    requires !Has(s.one, k) && !Has(s.two, k)
    ensures var t := Run(s, [Add(k, 0), Event.Lookup(k)]);
            t.one == Newest(s.one + [Item(k, 0)], SIZE) && t.two == Newest(s.two + [Item(k, 0)], SIZE)
  {
    var es := [Add(k, 0), Event.Lookup(k)];
    assert es[1..] == [Event.Lookup(k)] && es[1..][1..] == [];
    var s1 := Step(s, es[0]);
    WithoutNone(s.one, k);
    WithoutNone(s.two, k);
    PushedIno(s.one, Item(k, 0));
    assert Run(s, es) == Run(s1, es[1..]) == Step(s1, Event.Lookup(k));
  }

  lemma AddedSnoc(items: seq<Item>, n: nat)
    requires n > 0
    ensures (items + Added(n - 1)) + [Item(Fresh(n - 1), 0)] == items + Added(n)
  {
  }

  lemma {:induction false} FillState(s: Levels, n: nat)
    requires |s.one| == 2 && |s.two| == 2 && n <= SIZE - 2
    requires forall i, j: nat :: 0 <= i < 2 ==> s.one[i].key != Fresh(j) && s.two[i].key != Fresh(j)
    ensures Run(s, Fill(n)) == Levels(s.one + Added(n), s.two + Added(n))
  {
    if n == 0 {
      assert s.one + Added(0) == s.one && s.two + Added(0) == s.two;
    } else {
      FillState(s, n - 1);
      RunSplit(s, Fill(n - 1), [Add(Fresh(n - 1), 0), Event.Lookup(Fresh(n - 1))]);
      AddLookup(Levels(s.one + Added(n - 1), s.two + Added(n - 1)), Fresh(n - 1));
      AddedSnoc(s.one, n);
      AddedSnoc(s.two, n);
    }
  }

  /** After number 2 was added for the key, one other key and SIZE - 1 new ones are used: a lookup gives number 1. */
  lemma StaleExample()
    ensures var events := [Add(OTHER, 0), Add(STALE, 1), Event.Lookup(STALE), Add(STALE, 2), Event.Lookup(OTHER)] + Fill(SIZE - 1);
            Found(Run(Levels([], []), events), STALE) == Some(1)
  {
    var first := [Add(OTHER, 0), Add(STALE, 1), Event.Lookup(STALE), Add(STALE, 2), Event.Lookup(OTHER)];
    StaleStart(first);
    var s := Levels([Item(OTHER, 0), Item(STALE, 1)], [Item(STALE, 2), Item(OTHER, 0)]);
    RunSplit(Levels([], []), first, Fill(SIZE - 1));
    RunSplit(s, Fill(SIZE - 2), [Add(Fresh(SIZE - 2), 0), Event.Lookup(Fresh(SIZE - 2))]);
    FillState(s, SIZE - 2);
    var u := Levels(s.one + Added(SIZE - 2), s.two + Added(SIZE - 2));
    AddLookup(u, Fresh(SIZE - 2));
    var t := Run(Levels([], []), first + Fill(SIZE - 1));
    assert t.one[0] == Item(STALE, 1);
    HasInoOf(t.two, STALE);
  }

  lemma StaleStart(events: seq<Event>)
    requires events == [Add(OTHER, 0), Add(STALE, 1), Event.Lookup(STALE), Add(STALE, 2), Event.Lookup(OTHER)]
    ensures Run(Levels([], []), events) == Levels([Item(OTHER, 0), Item(STALE, 1)], [Item(STALE, 2), Item(OTHER, 0)])
  {
    var s0 := Levels([], []);
    var s1 := Levels([Item(OTHER, 0)], []);
    var s2 := Levels([Item(OTHER, 0), Item(STALE, 1)], []);
    var s3 := s2.(two := [Item(STALE, 1)]);
    var s4 := s2.(two := [Item(STALE, 2)]);
    var s5 := s2.(two := [Item(STALE, 2), Item(OTHER, 0)]);
    assert Step(s0, events[0]) == s1;
    assert Step(s1, events[1]) == s2;
    assert Step(s2, events[2]) == s3;
    assert Step(s3, events[3]) == s4;
    assert Step(s4, events[4]) == s5;
    assert Run(s4, events[4..]) == s5;
    assert Run(s3, events[3..]) == s5;
    assert Run(s2, events[2..]) == s5;
    assert Run(s1, events[1..]) == s5;
  }
}
