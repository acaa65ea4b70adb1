/**
 The five-level timer wheel of kernel/sched.c, proved to be the bag of TimerBag.

 Level n has `Slots(n)` slots, each for `Unit(n)` ticks.  A timer stands on the level its distance
 calls for and moves to a finer one when the clock reaches its block of ticks.
 */
module TimerWheels {
  import opened TimerBag
  import opened Arithmetic
  import opened Wrappers

  const LEVELS: nat := 5
  const TVR_SIZE: nat := 256
  const TVN_SIZE: nat := 64

  function Unit(n: nat): (u: nat)
    requires n < LEVELS
    ensures u > 0
  {
    if n == 0 then 1 else if n == 1 then 0x100 else if n == 2 then 0x4000 else if n == 3 then 0x10_0000 else 0x400_0000
  }

  function Slots(n: nat): (s: nat)
    ensures s > 0
  {
    if n == 0 then TVR_SIZE else TVN_SIZE
  }

  datatype Timer = Timer(id: nat, expires: nat)

  datatype TimerVec = TimerVec(index: nat, vec: seq<seq<Timer>>)

  // ---------- where a timer belongs ----------

  /** The block of `Unit(n)` ticks that tick d lies in. */
  function Block(n: nat, d: nat): nat
    requires n < LEVELS
  {
    d / Unit(n)
  }

  /** The first block of level n that begins at tick t or later. */
  function NextBlock(n: nat, t: nat): nat
    requires n < LEVELS
  {
    (t + Unit(n) - 1) / Unit(n)
  }

  /** The block level n cascades next, when at tick `now` the levels below k have been cascaded. */
  function Base(now: nat, k: nat, n: nat): nat
    requires n < LEVELS
  {
    if n == 0 then now else if n < k then NextBlock(n, now + 1) else NextBlock(n, now)
  }

  /** Level n may hold a timer due at d. */
  predicate Fits(now: nat, k: nat, n: nat, d: nat)
    requires n < LEVELS
  {
    Base(now, k, n) <= Block(n, d) < Base(now, k, n) + Slots(n)
  }

  function SlotOf(n: nat, d: nat): nat
    requires n < LEVELS
  {
    Block(n, d) % Slots(n)
  }

  /** The level that `internal_add_timer` chooses for a distance below 2^32 - 1. */
  function LevelFor(dist: nat): (n: nat)
    ensures n < LEVELS
  {
    if dist < 0x100 then 0 else if dist < 0x4000 then 1 else if dist < 0x10_0000 then 2
    else if dist < 0x400_0000 then 3 else 4
  }

  /** A timer on the level its distance calls for fits there, whichever levels have been cascaded. */
  lemma LevelFits(now: nat, k: nat, d: nat)
    requires now <= d < now + WORD
    ensures Fits(now, k, LevelFor(d - now), d)
  {
    var n := LevelFor(d - now);
    if n > 0 {
      BlockFits(Unit(n), 64, now, if n < k then now + 1 else now, d);
    }
  }

  /** The word `expires` picks the same slot as the tick it stands for. */
  lemma SlotOfWord(n: nat, d: nat)
    requires n < LEVELS
    ensures SlotOf(n, d % WORD) == SlotOf(n, d)
  {
    var q, r := d / WORD, d % WORD;
    var u, s := Unit(n), Slots(n);
    var m := if n == 0 then 0x100_0000 else if n == 1 then 0x4_0000 else if n == 2 then 0x1000 else if n == 3 then 0x40 else 1;
    assert u * (s * m) == WORD;
    assert d == u * ((s * m) * q) + r;
    DivModAdd(u, (s * m) * q, r);
    assert (s * m) * q == s * (m * q);
    DivModAdd(s, m * q, r / u);
  }

  lemma DistanceOfWord(now: nat, d: nat)
    requires now <= d < now + WORD
    ensures Distance(now, d % WORD) == d - now
  {
  }

  // ---------- the wheel ----------

  /** Timer t stands in slot s of level n rightly: it is due in the block of ticks that slot serves next. */
  ghost predicate Stands(t: Timer, due: map<nat, nat>, loc: map<nat, (nat, nat)>, now: nat, k: nat, n: nat, s: nat)
    requires n < LEVELS
  {
    && t.id in due && t.id in loc && loc[t.id] == (n, s)
    && Fits(now, k, n, due[t.id]) && s == SlotOf(n, due[t.id])
    && (n > 0 ==> t.expires == due[t.id] % WORD)
  }

  predicate Shape(tv: seq<TimerVec>) {
    |tv| == LEVELS && forall n :: 0 <= n < LEVELS ==> |tv[n].vec| == Slots(n) && tv[n].index < Slots(n)
  }

  predicate Has(list: seq<Timer>, id: nat) {
    exists i :: 0 <= i < |list| && list[i].id == id
  }

  predicate Distinct(list: seq<Timer>) {
    forall i, j :: 0 <= i < j < |list| ==> list[i].id != list[j].id
  }

  /** Every pending timer stands in exactly one slot, and rightly. */
  ghost predicate Holds(tv: seq<TimerVec>, due: map<nat, nat>, loc: map<nat, (nat, nat)>, now: nat, k: nat) {
    && Shape(tv) && loc.Keys == due.Keys
    && (forall n, s :: 0 <= n < LEVELS && 0 <= s < Slots(n) ==> SlotOk(tv[n].vec[s], due, loc, now, k, n, s))
    && (forall id :: id in loc ==> Found(tv, loc, id))
  }

  ghost predicate SlotOk(list: seq<Timer>, due: map<nat, nat>, loc: map<nat, (nat, nat)>, now: nat, k: nat, n: nat, s: nat)
    requires n < LEVELS
  {
    Distinct(list) && forall i :: 0 <= i < |list| ==> Stands(list[i], due, loc, now, k, n, s)
  }

  ghost predicate Found(tv: seq<TimerVec>, loc: map<nat, (nat, nat)>, id: nat)
    requires Shape(tv) && id in loc
  {
    var (n, s) := loc[id];
    n < LEVELS && s < Slots(n) && Has(tv[n].vec[s], id)
  }

  /** The indexes point at the blocks to be served next. */
  ghost predicate Indexed(tv: seq<TimerVec>, now: nat, k: nat) {
    |tv| == LEVELS && forall n :: 0 <= n < LEVELS ==> tv[n].index == Base(now, k, n) % Slots(n)
  }

  function SetSlot(tv: seq<TimerVec>, n: nat, s: nat, list: seq<Timer>): (r: seq<TimerVec>)
    requires Shape(tv) && n < LEVELS && s < Slots(n)
    ensures Shape(r)
    ensures forall m, x :: 0 <= m < LEVELS && 0 <= x < Slots(m) ==>
              r[m].vec[x] == if m == n && x == s then list else tv[m].vec[x]
    ensures forall m :: 0 <= m < LEVELS ==> r[m].index == tv[m].index
  {
    tv[n := tv[n].(vec := tv[n].vec[s := list])]
  }

  /** `insert_timer`: at the head of a slot. */
  function Insert(tv: seq<TimerVec>, n: nat, s: nat, t: Timer): (r: seq<TimerVec>)
    requires Shape(tv) && n < LEVELS && s < Slots(n)
    ensures Shape(r)
  {
    SetSlot(tv, n, s, [t] + tv[n].vec[s])
  }

  /** The timer has been put at the head of slot s of level n, and nothing else has changed. */
  ghost predicate PutAt(was: seq<TimerVec>, now: seq<TimerVec>, n: nat, s: nat, t: Timer) {
    && Shape(was) && Shape(now) && n < LEVELS && s < Slots(n) && now[n].vec[s] == [t] + was[n].vec[s]
    && (forall m, x :: 0 <= m < LEVELS && 0 <= x < Slots(m) && (m, x) != (n, s) ==> now[m].vec[x] == was[m].vec[x])
    && (forall m :: 0 <= m < LEVELS ==> now[m].index == was[m].index)
  }

  lemma InsertHolds(tv: seq<TimerVec>, due: map<nat, nat>, loc: map<nat, (nat, nat)>, now: nat, k: nat,
                    n: nat, t: Timer, d: nat)
    requires Holds(tv, due, loc, now, k) && t.id !in due && n < LEVELS
    requires Fits(now, k, n, d) && (n > 0 ==> t.expires == d % WORD)
    ensures Holds(Insert(tv, n, SlotOf(n, d), t), due[t.id := d], loc[t.id := (n, SlotOf(n, d))], now, k)
  {
    var s := SlotOf(n, d);
    var tv', due', loc' := Insert(tv, n, s, t), due[t.id := d], loc[t.id := (n, s)];
    forall m, x | 0 <= m < LEVELS && 0 <= x < Slots(m)
      ensures SlotOk(tv'[m].vec[x], due', loc', now, k, m, x)
    {
      assert SlotOk(tv[m].vec[x], due, loc, now, k, m, x);
    }
    forall id | id in loc'
      ensures Found(tv', loc', id)
    {
      if id == t.id {
        assert tv'[n].vec[s][0].id == id;
      } else {
        assert Found(tv, loc, id);
        var (m, x) := loc[id];
        HasInserted(tv[m].vec[x], t, id);
      }
    }
  }

  lemma HasInserted(list: seq<Timer>, t: Timer, id: nat)
    requires Has(list, id)
    ensures Has([t] + list, id)
  {
    var i :| 0 <= i < |list| && list[i].id == id;
    assert ([t] + list)[i + 1].id == id;
  }

  function RemoveAt(list: seq<Timer>, i: nat): seq<Timer>
    requires i < |list|
  {
    list[..i] + list[i + 1..]
  }

  /** Taking a timer out of its slot. */
  lemma RemoveHolds(tv: seq<TimerVec>, due: map<nat, nat>, loc: map<nat, (nat, nat)>, now: nat, k: nat,
                    n: nat, s: nat, i: nat)
    requires Holds(tv, due, loc, now, k) && n < LEVELS && s < Slots(n) && i < |tv[n].vec[s]|
    ensures var id := tv[n].vec[s][i].id;
            Holds(SetSlot(tv, n, s, RemoveAt(tv[n].vec[s], i)), due - {id}, loc - {id}, now, k)
  {
    var list := tv[n].vec[s];
    var id := list[i].id;
    assert SlotOk(list, due, loc, now, k, n, s);
    var tv', due', loc' := SetSlot(tv, n, s, RemoveAt(list, i)), due - {id}, loc - {id};
    assert loc[id] == (n, s);
    forall m, x | 0 <= m < LEVELS && 0 <= x < Slots(m)
      ensures SlotOk(tv'[m].vec[x], due', loc', now, k, m, x)
    {
      assert SlotOk(tv[m].vec[x], due, loc, now, k, m, x);
      if m == n && x == s {
        SlotRemoved(list, due, loc, now, k, n, s, i);
      } else {
        SlotElsewhere(tv[m].vec[x], due, loc, now, k, m, x, id);
      }
    }
    forall o | o in loc'
      ensures Found(tv', loc', o)
    {
      assert Found(tv, loc, o);
      var (m, x) := loc[o];
      if m == n && x == s {
        HasRemoved(list, i, o);
      }
    }
  }

  lemma SlotRemoved(list: seq<Timer>, due: map<nat, nat>, loc: map<nat, (nat, nat)>, now: nat, k: nat, n: nat, s: nat, i: nat)
    requires n < LEVELS && SlotOk(list, due, loc, now, k, n, s) && i < |list|
    ensures var id := list[i].id; SlotOk(RemoveAt(list, i), due - {id}, loc - {id}, now, k, n, s)
  {
    var id, rest := list[i].id, RemoveAt(list, i);
    forall j | 0 <= j < |rest|
      ensures Stands(rest[j], due - {id}, loc - {id}, now, k, n, s)
    {
      assert rest[j] == list[if j < i then j else j + 1];
    }
  }

  lemma SlotElsewhere(list: seq<Timer>, due: map<nat, nat>, loc: map<nat, (nat, nat)>, now: nat, k: nat, n: nat, s: nat, id: nat)
    requires n < LEVELS && SlotOk(list, due, loc, now, k, n, s) && id in loc && loc[id] != (n, s)
    ensures SlotOk(list, due - {id}, loc - {id}, now, k, n, s)
  {
    forall j | 0 <= j < |list|
      ensures Stands(list[j], due - {id}, loc - {id}, now, k, n, s)
    {
      assert Stands(list[j], due, loc, now, k, n, s);
    }
  }

  lemma HasRemoved(list: seq<Timer>, i: nat, id: nat)
    requires i < |list| && Has(list, id) && list[i].id != id
    ensures Has(RemoveAt(list, i), id)
  {
    var j :| 0 <= j < |list| && list[j].id == id;
    assert RemoveAt(list, i)[if j < i then j else j - 1].id == id;
  }

  lemma PendingSomewhere(tv: seq<TimerVec>, due: map<nat, nat>, loc: map<nat, (nat, nat)>, now: nat, k: nat, id: nat)
    requires Holds(tv, due, loc, now, k)
    ensures id in due ==> exists m, x :: 0 <= m < LEVELS && 0 <= x < Slots(m) && Has(tv[m].vec[x], id)
  {
    if id in due {
      assert Found(tv, loc, id);
      var (m, x) := loc[id];
    }
  }

  // ---------- add_timer ----------

  /** `internal_add_timer`; None where it links the timer to itself. */
  function Placed(tv: seq<TimerVec>, now: nat, t: Timer): Option<seq<TimerVec>>
    requires Shape(tv)
  {
    var e := t.expires;
    var idx := Distance(now, e);
    if idx < 0x100 then Some(Insert(tv, 0, e % 256, t))
    else if idx < 0x4000 then Some(Insert(tv, 1, e / 0x100 % 64, t))
    else if idx < 0x10_0000 then Some(Insert(tv, 2, e / 0x4000 % 64, t))
    else if idx < 0x400_0000 then Some(Insert(tv, 3, e / 0x10_0000 % 64, t))
    else if e < now % WORD then Some(Insert(tv, 0, tv[0].index, t))
    else if idx < 0xffff_ffff then Some(Insert(tv, 4, e / 0x400_0000 % 64, t))
    else None
  }

  /** The level a timer due at d is put on. */
  function HomeLevel(now: nat, t: Timer): nat {
    if Due(now, t.expires) == Some(now) then 0 else LevelFor(Distance(now, t.expires))
  }

  /** A timer whose word stands for tick d, added when d is not taken for the past. */
  lemma PlacedAhead(tv: seq<TimerVec>, now: nat, k: nat, t: Timer, d: nat)
    requires Shape(tv) && t.expires == d % WORD && now <= d < now + WORD - 1
    requires d - now < 0x400_0000 || t.expires >= now % WORD
    ensures var n := LevelFor(d - now);
            Fits(now, k, n, d) && Placed(tv, now, t) == Some(Insert(tv, n, SlotOf(n, d), t))
  {
    LevelFits(now, k, d);
    PlacedAt(tv, now, t, d);
  }

  lemma PlacedAt(tv: seq<TimerVec>, now: nat, t: Timer, d: nat)
    requires Shape(tv) && t.expires == d % WORD && now <= d < now + WORD - 1
    requires d - now < 0x400_0000 || t.expires >= now % WORD
    ensures var n := LevelFor(d - now); Placed(tv, now, t) == Some(Insert(tv, n, SlotOf(n, d), t))
  {
    DistanceOfWord(now, d);
    SlotOfWord(LevelFor(d - now), d);
  }

  /** A new timer is put where its due tick is served; it is dropped exactly when the bag drops it. */
  lemma PlacedRightly(tv: seq<TimerVec>, now: nat, k: nat, t: Timer)
    requires Shape(tv) && Indexed(tv, now, k) && t.expires < WORD
    ensures Placed(tv, now, t).Some? <==> Due(now, t.expires).Some?
    ensures Due(now, t.expires).Some? ==>
              var d, n := Due(now, t.expires).value, HomeLevel(now, t);
              && n < LEVELS && Fits(now, k, n, d) && (n > 0 ==> t.expires == d % WORD)
              && Placed(tv, now, t).value == Insert(tv, n, SlotOf(n, d), t)
  {
    var e, idx := t.expires, Distance(now, t.expires);
    var d := now + idx;
    if idx >= 0x400_0000 && e < now % WORD {
      assert SlotOf(0, now) == tv[0].index;
    } else if idx < WORD - 1 {
      PlacedAhead(tv, now, k, t, d);
    }
  }

  // ---------- cascading ----------

  /** Among the timers of level n, those in the slot its index points at are due in the block that begins now. */
  lemma InCurrentSlot(now: nat, n: nat, d: nat)
    requires 0 < n < LEVELS && now % Unit(n) == 0 && Fits(now, n, n, d)
    ensures SlotOf(n, d) == Base(now, n, n) % Slots(n) <==> now <= d < now + Unit(n)
    ensures SlotOf(n, d) != Base(now, n, n) % Slots(n) ==> Fits(now, n + 1, n, d)
  {
    var q := now / Unit(n);
    BaseStep(now, n);
    ModWindow(Slots(n), q, Block(n, d));
    assert Block(n, d) == q <==> now <= d < now + Unit(n);
  }

  lemma BaseStep(now: nat, n: nat)
    requires 0 < n < LEVELS
    ensures now % Unit(n) == 0 ==> NextBlock(n, now) == now / Unit(n) && NextBlock(n, now + 1) == now / Unit(n) + 1
    ensures now % Unit(n) != 0 ==> NextBlock(n, now) == NextBlock(n, now + 1)
  {
    CeilStep(Unit(n), now);
  }

  /** Moving the first of the remaining timers of the current slot of level n to a finer level. */
  lemma MoveHolds(tv: seq<TimerVec>, due: map<nat, nat>, loc: map<nat, (nat, nat)>, now: nat,
                  n: nat, s: nat, list: seq<Timer>) returns (m: nat, x: nat)
    requires 0 < n < LEVELS && now % Unit(n) == 0 && s == Base(now, n, n) % Slots(n)
    requires Shape(tv) && list != [] && Holds(SetSlot(tv, n, s, list), due, loc, now, n)
    ensures m < n && x < Slots(m)
    ensures Placed(tv, now, list[0]) == Some(Insert(tv, m, x, list[0]))
    ensures list[0].id in loc
    ensures Holds(SetSlot(Insert(tv, m, x, list[0]), n, s, list[1..]), due, loc[list[0].id := (m, x)], now, n)
  {
    var t := list[0];
    var here := SetSlot(tv, n, s, list);
    assert SlotOk(here[n].vec[s], due, loc, now, n, n, s);
    assert Stands(here[n].vec[s][0], due, loc, now, n, n, s);
    var d := due[t.id];
    InCurrentSlot(now, n, d);
    m := LevelFor(d - now);
    x := SlotOf(m, d);
    PlacedAhead(tv, now, n, t, d);
    HeadRemoved(tv, due, loc, now, n, s, list);
    Reinserted(tv, due, loc, now, n, s, list[1..], t, m, d);
  }

  lemma HeadRemoved(tv: seq<TimerVec>, due: map<nat, nat>, loc: map<nat, (nat, nat)>, now: nat,
                    n: nat, s: nat, list: seq<Timer>)
    requires n < LEVELS && s < Slots(n) && list != []
    requires Shape(tv) && Holds(SetSlot(tv, n, s, list), due, loc, now, n)
    ensures Holds(SetSlot(tv, n, s, list[1..]), due - {list[0].id}, loc - {list[0].id}, now, n)
  {
    var here := SetSlot(tv, n, s, list);
    RemoveHolds(here, due, loc, now, n, n, s, 0);
    assert RemoveAt(list, 0) == list[1..];
    assert tv[n].vec[s := list][s := list[1..]] == tv[n].vec[s := list[1..]];
    assert SetSlot(here, n, s, list[1..]) == SetSlot(tv, n, s, list[1..]);
  }

  lemma Reinserted(tv: seq<TimerVec>, due: map<nat, nat>, loc: map<nat, (nat, nat)>, now: nat,
                   n: nat, s: nat, rest: seq<Timer>, t: Timer, m: nat, d: nat)
    requires m < n < LEVELS && s < Slots(n) && t.id in due && due[t.id] == d && t.expires == d % WORD
    requires Shape(tv) && Holds(SetSlot(tv, n, s, rest), due - {t.id}, loc - {t.id}, now, n) && Fits(now, n, m, d)
    ensures Holds(SetSlot(Insert(tv, m, SlotOf(m, d), t), n, s, rest), due, loc[t.id := (m, SlotOf(m, d))], now, n)
  {
    var x := SlotOf(m, d);
    InsertHolds(SetSlot(tv, n, s, rest), due - {t.id}, loc - {t.id}, now, n, m, t, d);
    assert (due - {t.id})[t.id := d] == due;
    assert (loc - {t.id})[t.id := (m, x)] == loc[t.id := (m, x)];
    SlotsCommute(tv, m, x, t, n, s, rest);
  }

  lemma SlotsCommute(tv: seq<TimerVec>, m: nat, x: nat, t: Timer, n: nat, s: nat, list: seq<Timer>)
    requires Shape(tv) && m < n < LEVELS && x < Slots(m) && s < Slots(n)
    ensures Insert(SetSlot(tv, n, s, list), m, x, t) == SetSlot(Insert(tv, m, x, t), n, s, list)
  {
  }

  /** With its current slot empty, level n is served up to the end of the block that begins now. */
  lemma ServedHolds(tv: seq<TimerVec>, due: map<nat, nat>, loc: map<nat, (nat, nat)>, now: nat, n: nat)
    requires 0 < n < LEVELS && now % Unit(n) == 0 && Holds(tv, due, loc, now, n)
    requires tv[n].vec[Base(now, n, n) % Slots(n)] == []
    ensures Holds(tv, due, loc, now, n + 1)
  {
    forall m, x | 0 <= m < LEVELS && 0 <= x < Slots(m)
      ensures SlotOk(tv[m].vec[x], due, loc, now, n + 1, m, x)
    {
      assert SlotOk(tv[m].vec[x], due, loc, now, n, m, x);
      forall i | 0 <= i < |tv[m].vec[x]|
        ensures Stands(tv[m].vec[x][i], due, loc, now, n + 1, m, x)
      {
        assert Stands(tv[m].vec[x][i], due, loc, now, n, m, x);
        if m == n {
          InCurrentSlot(now, n, due[tv[m].vec[x][i].id]);
        }
      }
    }
  }

  /** Levels whose block does not begin now need no cascade. */
  lemma RestHolds(tv: seq<TimerVec>, due: map<nat, nat>, loc: map<nat, (nat, nat)>, now: nat, n: nat)
    requires 0 < n <= LEVELS && Holds(tv, due, loc, now, n) && Indexed(tv, now, n)
    requires n < LEVELS ==> now % Unit(n) != 0
    ensures Holds(tv, due, loc, now, LEVELS) && Indexed(tv, now, LEVELS)
  {
    forall m | 0 < m < LEVELS
      ensures Base(now, LEVELS, m) == Base(now, n, m)
    {
      BaseStep(now, m);
      if n <= m {
        Coarser(now, n, m);
      }
    }
    forall m, x | 0 <= m < LEVELS && 0 <= x < Slots(m)
      ensures SlotOk(tv[m].vec[x], due, loc, now, LEVELS, m, x)
    {
      assert SlotOk(tv[m].vec[x], due, loc, now, n, m, x);
      forall i | 0 <= i < |tv[m].vec[x]|
        ensures Stands(tv[m].vec[x][i], due, loc, now, LEVELS, m, x)
      {
        assert Stands(tv[m].vec[x][i], due, loc, now, n, m, x);
      }
    }
  }

  lemma Coarser(now: nat, n: nat, m: nat)
    requires 0 < n <= m < LEVELS && now % Unit(n) != 0
    ensures now % Unit(m) != 0
  {
    if now % Unit(m) == 0 {
      ModDivides(Unit(n), Unit(m) / Unit(n), now);
    }
  }

  /** The index of level n comes to 1 exactly when the next level has to be cascaded too. */
  lemma CarryOn(now: nat, n: nat)
    requires 0 < n < LEVELS && now % Unit(n) == 0
    ensures n + 1 < LEVELS ==> ((Base(now, n, n) + 1) % 64 == 1 <==> now % Unit(n + 1) == 0)
    ensures (Base(now, n, n) % 64 + 1) % 64 == Base(now, n + 1, n) % 64 == (Base(now, n, n) + 1) % 64
  {
    BaseStep(now, n);
    var q := now / Unit(n);
    ModSucc(q);
    if n + 1 < LEVELS {
      CarryArith(Unit(n), q);
      assert now == Unit(n) * q && Unit(n + 1) == 64 * Unit(n);
    }
  }

  lemma ModSucc(q: nat)
    ensures (q % 64 + 1) % 64 == (q + 1) % 64
  {
  }

  lemma CarryArith(u: nat, q: nat)
    requires u > 0
    ensures (u * q) % (64 * u) == 0 <==> (q + 1) % 64 == 1
  {
    var a, b := q / 64, q % 64;
    assert u * q == (64 * u) * a + u * b by {
      assert q == 64 * a + b;
      assert u * (64 * a + b) == (64 * u) * a + u * b;
    }
    MulStep(u, b, 64);
    MulNonNeg(u, b);
    DivModUnique(64 * u, a, u * b);
    MulStep(u, 0, b);
  }

  /** The indexes do not say where a timer stands. */
  lemma IndexHolds(tv: seq<TimerVec>, due: map<nat, nat>, loc: map<nat, (nat, nat)>, now: nat, k: nat, n: nat, index: nat)
    requires Holds(tv, due, loc, now, k) && n < LEVELS && index < Slots(n)
    ensures Holds(tv[n := tv[n].(index := index)], due, loc, now, k)
  {
    var tv' := tv[n := tv[n].(index := index)];
    assert forall m :: 0 <= m < LEVELS ==> tv'[m].vec == tv[m].vec;
    forall id | id in loc
      ensures Found(tv', loc, id)
    {
      assert Found(tv, loc, id);
      var (m, x) := loc[id];
      assert tv'[m].vec[x] == tv[m].vec[x];
    }
  }

  lemma CascadeDone(tv: seq<TimerVec>, due: map<nat, nat>, loc: map<nat, (nat, nat)>, now: nat, n: nat)
    requires 0 < n < LEVELS && now % Unit(n) == 0 && Holds(tv, due, loc, now, n) && Indexed(tv, now, n)
    requires tv[n].vec[tv[n].index] == []
    ensures var index := (tv[n].index + 1) % 64; var tv' := tv[n := tv[n].(index := index)];
            && Holds(tv', due, loc, now, n + 1) && Indexed(tv', now, n + 1)
            && (n + 1 < LEVELS ==> (index == 1 <==> now % Unit(n + 1) == 0))
  {
    ServedHolds(tv, due, loc, now, n);
    CarryOn(now, n);
    IndexHolds(tv, due, loc, now, n + 1, n, (tv[n].index + 1) % 64);
  }

  /** The clock moves on once nothing is due. */
  lemma TickHolds(tv: seq<TimerVec>, due: map<nat, nat>, loc: map<nat, (nat, nat)>, now: nat)
    requires Holds(tv, due, loc, now, LEVELS) && Indexed(tv, now, LEVELS) && tv[0].vec[tv[0].index] == []
    ensures forall id :: id in due ==> due[id] > now
    ensures Holds(tv, due, loc, now + 1, 1)
    ensures Indexed(tv[0 := tv[0].(index := (tv[0].index + 1) % 256)], now + 1, 1)
  {
    TickIndexed(tv, now);
    forall m, x | 0 <= m < LEVELS && 0 <= x < Slots(m)
      ensures SlotOk(tv[m].vec[x], due, loc, now + 1, 1, m, x) && NoneDue(tv[m].vec[x], due, now)
    {
      assert SlotOk(tv[m].vec[x], due, loc, now, LEVELS, m, x);
      SlotTicks(tv[m].vec[x], due, loc, now, m, x);
    }
    forall id | id in due
      ensures due[id] > now
    {
      assert Found(tv, loc, id);
      var (n, s) := loc[id];
      assert NoneDue(tv[n].vec[s], due, now);
      var i :| 0 <= i < |tv[n].vec[s]| && tv[n].vec[s][i].id == id;
    }
  }

  lemma TickIndexed(tv: seq<TimerVec>, now: nat)
    requires Indexed(tv, now, LEVELS)
    ensures Indexed(tv[0 := tv[0].(index := (tv[0].index + 1) % 256)], now + 1, 1)
  {
  }

  ghost predicate NoneDue(list: seq<Timer>, due: map<nat, nat>, now: nat) {
    forall i :: 0 <= i < |list| ==> list[i].id in due && due[list[i].id] > now
  }

  lemma SlotTicks(list: seq<Timer>, due: map<nat, nat>, loc: map<nat, (nat, nat)>, now: nat, m: nat, x: nat)
    requires m < LEVELS && SlotOk(list, due, loc, now, LEVELS, m, x) && (m == 0 && x == now % Slots(0) ==> list == [])
    ensures SlotOk(list, due, loc, now + 1, 1, m, x) && NoneDue(list, due, now)
  {
    forall i | 0 <= i < |list|
      ensures Stands(list[i], due, loc, now + 1, 1, m, x) && due[list[i].id] > now
    {
      assert Stands(list[i], due, loc, now, LEVELS, m, x);
      NotDueYet(now, m, due[list[i].id], x);
    }
  }

  lemma NotDueYet(now: nat, m: nat, d: nat, x: nat)
    requires m < LEVELS && Fits(now, LEVELS, m, d) && x == SlotOf(m, d)
    requires m == 0 ==> x != now % Slots(0)
    ensures d > now && Fits(now + 1, 1, m, d)
  {
  }

  // ---------- the module's state and its calls ----------

  /** The timers fired by a run of events, in order. */
  function FiredBy(events: seq<Event>): seq<nat> {
    if events == [] then []
    else (if events[0].Fire? then [events[0].id] else []) + FiredBy(events[1..])
  }

  lemma {:induction false} FiredByConcat(p: seq<Event>, q: seq<Event>)
    ensures FiredBy(p + q) == FiredBy(p) + FiredBy(q)
  {
    if p == [] {
      assert p + q == q;
    } else {
      assert (p + q)[1..] == p[1..] + q;
      FiredByConcat(p[1..], q);
      var h := if p[0].Fire? then [p[0].id] else [];
      assert h + (FiredBy(p[1..]) + FiredBy(q)) == (h + FiredBy(p[1..])) + FiredBy(q);
    }
  }

  /** One more event at the end of a run. */
  lemma Extend(b: Bag, events: seq<Event>, last: Bag, e: Event, next: Bag)
    requires Replay(b, events) == Some(last) && Step(last, e) == Some(next)
    ensures Replay(b, events + [e]) == Some(next)
    ensures FiredBy(events + [e]) == FiredBy(events) + if e.Fire? then [e.id] else []
  {
    ReplayConcat(b, events, [e]);
    assert [e][1..] == [];
    assert Replay(last, [e]) == Some(next);
    FiredByConcat(events, [e]);
    assert FiredBy([e]) == if e.Fire? then [e.id] else [];
  }

  /** The j-th of the calls of a timer function. */
  lemma MadeOneMore(b: Bag, calls: seq<Call>, j: nat, events: seq<Event>, was: Bag, es: seq<Event>, now: Bag)
    requires j < |calls| && Replay(b, events) == Some(was) && FiredBy(events) == []
    requires es == Asked(was, calls[j]) && Replay(was, es) == Some(now) && FiredBy(es) == []
    ensures Replay(b, events + es) == Some(now) && FiredBy(events + es) == []
    ensures (events + es) + Made(now, calls[j + 1..]) == events + Made(was, calls[j..])
  {
    ReplayConcat(b, events, es);
    FiredByConcat(events, es);
    MadeFrom(was, calls, j, es, now);
    Associate(events, es, Made(now, calls[j + 1..]));
  }

  lemma MadeFrom(was: Bag, calls: seq<Call>, j: nat, es: seq<Event>, now: Bag)
    requires j < |calls| && es == Asked(was, calls[j]) && Replay(was, es) == Some(now)
    ensures Made(was, calls[j..]) == es + Made(now, calls[j + 1..])
  {
    var rest := calls[j..];
    assert rest[0] == calls[j] && rest[1..] == calls[j + 1..];
  }

  lemma Associate(a: seq<Event>, b: seq<Event>, c: seq<Event>)
    ensures (a + b) + c == a + (b + c)
  {
  }

  lemma BaseZero(now: nat)
    ensures now % 256 == 0 <==> now % Unit(1) == 0
  {
  }

  lemma HeadIsDue(tv: seq<TimerVec>, due: map<nat, nat>, loc: map<nat, (nat, nat)>, now: nat)
    requires Holds(tv, due, loc, now, LEVELS) && Indexed(tv, now, LEVELS) && tv[0].vec[tv[0].index] != []
    ensures var id := tv[0].vec[tv[0].index][0].id; id in due && due[id] == now
  {
    var s := tv[0].index;
    assert SlotOk(tv[0].vec[s], due, loc, now, LEVELS, 0, s);
    var id := tv[0].vec[s][0].id;
    assert Stands(tv[0].vec[s][0], due, loc, now, LEVELS, 0, s);
    ModWindow(256, now, due[id]);
  }

  lemma SetSame(tv: seq<TimerVec>, n: nat, s: nat)
    requires Shape(tv) && n < LEVELS && s < Slots(n)
    ensures SetSlot(tv, n, s, tv[n].vec[s]) == tv
  {
    assert tv[n].vec[s := tv[n].vec[s]] == tv[n].vec;
  }

  class TimerWheel {
    var timerJiffies: nat
    var tv: seq<TimerVec>
    var adrift: set<nat>
    ghost var due: map<nat, nat>
    ghost var loc: map<nat, (nat, nat)>
    /** 1 between ticks; LEVELS while the timers of a tick run. */
    ghost var cascaded: nat

    ghost predicate Valid()
      reads this
    {
      && Holds(tv, due, loc, timerJiffies, cascaded) && Indexed(tv, timerJiffies, cascaded)
      && due.Keys !! adrift && (forall id :: id in due ==> due[id] >= timerJiffies)
      && (cascaded == 1 || cascaded == LEVELS)
    }

    ghost function Contents(): Bag
      reads this
    {
      Bag(timerJiffies, due, adrift)
    }

    constructor ()
      ensures Valid() && cascaded == 1 && Contents() == Bag(0, map[], {})
    {
      timerJiffies, adrift, due, loc, cascaded := 0, {}, map[], map[], 1;
      tv := seq(LEVELS, n requires 0 <= n => TimerVec(0, seq(Slots(n), _ => [])));
    }

    /** `internal_add_timer`: the timer goes to the head of the slot that is served at its due tick, on a level that has
        that tick in its window; it is set adrift exactly if it has none. */
    method InternalAddTimer(t: Timer)
      requires Shape(tv)
      modifies this`tv, this`adrift
      ensures Indexed(old(tv), timerJiffies, cascaded) && t.expires < WORD ==>
                match Due(timerJiffies, t.expires)
                case None => tv == old(tv) && adrift == old(adrift) + {t.id}
                case Some(d) =>
                  var n := HomeLevel(timerJiffies, t);
                  n < LEVELS && Fits(timerJiffies, cascaded, n, d) && PutAt(old(tv), tv, n, SlotOf(n, d), t) && adrift == old(adrift)
      ensures match Placed(old(tv), timerJiffies, t)
              case Some(tv') => tv == tv' && adrift == old(adrift)
              case None => tv == old(tv) && adrift == old(adrift) + {t.id}
    {
      if Indexed(tv, timerJiffies, cascaded) && t.expires < WORD {
        PlacedRightly(tv, timerJiffies, cascaded, t);
      }
      var expires := t.expires;
      var idx := Distance(timerJiffies, expires);
      if idx < 256 {
        tv := Insert(tv, 0, expires % 256, t);
      } else if idx < 0x4000 {
        tv := Insert(tv, 1, expires / 0x100 % 64, t);
      } else if idx < 0x10_0000 {
        tv := Insert(tv, 2, expires / 0x4000 % 64, t);
      } else if idx < 0x400_0000 {
        tv := Insert(tv, 3, expires / 0x10_0000 % 64, t);
      } else if expires < timerJiffies % WORD {
        tv := Insert(tv, 0, tv[0].index, t);
      } else if idx < 0xffff_ffff {
        tv := Insert(tv, 4, expires / 0x400_0000 % 64, t);
      } else {
        adrift := adrift + {t.id};
      }
    }

    method AddTimer(id: nat, expires: nat)
      requires Valid() && expires < WORD && Idle(Contents(), id)
      modifies this
      ensures Valid() && cascaded == old(cascaded)
      ensures Step(old(Contents()), Add(id, expires)) == Some(Contents())
    {
      var t := Timer(id, expires);
      PlacedRightly(tv, timerJiffies, cascaded, t);
      if Due(timerJiffies, expires).Some? {
        ghost var d, n := Due(timerJiffies, expires).value, HomeLevel(timerJiffies, t);
        InsertHolds(tv, due, loc, timerJiffies, cascaded, n, t, d);
        InternalAddTimer(t);
        due, loc := due[id := d], loc[id := (n, SlotOf(n, d))];
      } else {
        InternalAddTimer(t);
      }
    }

    /** Where a pending timer stands. */
    method Locate(id: nat) returns (found: bool, n: nat, s: nat, i: nat)
      requires Valid()
      ensures found <==> id in due
      ensures found ==> n < LEVELS && s < Slots(n) && i < |tv[n].vec[s]| && tv[n].vec[s][i].id == id
    {
      n := 0;
      while n < LEVELS
        invariant n <= LEVELS
        invariant forall m, x :: 0 <= m < n && 0 <= x < Slots(m) ==> !Has(tv[m].vec[x], id)
      {
        s := 0;
        while s < Slots(n)
          invariant s <= Slots(n)
          invariant forall x :: 0 <= x < s ==> !Has(tv[n].vec[x], id)
        {
          i := 0;
          while i < |tv[n].vec[s]|
            invariant i <= |tv[n].vec[s]|
            invariant forall j :: 0 <= j < i ==> tv[n].vec[s][j].id != id
          {
            if tv[n].vec[s][i].id == id {
              assert SlotOk(tv[n].vec[s], due, loc, timerJiffies, cascaded, n, s);
              return true, n, s, i;
            }
            i := i + 1;
          }
          s := s + 1;
        }
        n := n + 1;
      }
      PendingSomewhere(tv, due, loc, timerJiffies, cascaded, id);
      return false, 0, 0, 0;
    }

    /** `detach_timer` on a timer whose place is known. */
    method Unlink(n: nat, s: nat, i: nat)
      requires Valid() && n < LEVELS && s < Slots(n) && i < |tv[n].vec[s]|
      modifies this`tv, this`due, this`loc
      ensures Valid() && due == old(due - {tv[n].vec[s][i].id})
    {
      RemoveHolds(tv, due, loc, timerJiffies, cascaded, n, s, i);
      ghost var id := tv[n].vec[s][i].id;
      tv := SetSlot(tv, n, s, RemoveAt(tv[n].vec[s], i));
      due, loc := due - {id}, loc - {id};
    }

    method DelTimer(id: nat) returns (ret: bool)
      requires Valid()
      modifies this
      ensures Valid() && cascaded == old(cascaded)
      ensures Step(old(Contents()), Del(id)) == Some(Contents())
      ensures ret <==> !Idle(old(Contents()), id)
    {
      var found, n, s, i := Locate(id);
      if found {
        Unlink(n, s, i);
        assert adrift - {id} == adrift;
        return true;
      }
      ret := id in adrift;
      adrift := adrift - {id};
      assert due - {id} == due;
    }

    /** One timer of the slot being cascaded goes to a finer level than n. */
    method MoveTimer(n: nat, index: nat, list: seq<Timer>)
      requires 0 < n < LEVELS && timerJiffies % Unit(n) == 0 && index == Base(timerJiffies, n, n) % Slots(n)
      requires Shape(tv) && list != [] && Holds(SetSlot(tv, n, index, list), due, loc, timerJiffies, n)
      modifies this`tv, this`loc, this`adrift
      ensures Shape(tv) && adrift == old(adrift) && forall m :: 0 <= m < LEVELS ==> tv[m].index == old(tv[m].index)
      ensures Holds(SetSlot(tv, n, index, list[1..]), due, loc, timerJiffies, n)
    {
      ghost var m, x := MoveHolds(tv, due, loc, timerJiffies, n, index, list);
      ghost var moved := Insert(tv, m, x, list[0]);
      InternalAddTimer(list[0]);
      assert tv == moved;
      loc := loc[list[0].id := (m, x)];
      assert Holds(SetSlot(tv, n, index, list[1..]), due, loc, timerJiffies, n) == true;
    }

    /** The loop of `cascade_timers`. */
    method MoveTimers(n: nat, index: nat, list: seq<Timer>)
      requires 0 < n < LEVELS && timerJiffies % Unit(n) == 0 && index == Base(timerJiffies, n, n) % Slots(n)
      requires Shape(tv) && Holds(SetSlot(tv, n, index, list), due, loc, timerJiffies, n)
      modifies this`tv, this`loc, this`adrift
      ensures Shape(tv) && adrift == old(adrift) && forall m :: 0 <= m < LEVELS ==> tv[m].index == old(tv[m].index)
      ensures Holds(SetSlot(tv, n, index, []), due, loc, timerJiffies, n)
    {
      var timer := list;
      while timer != []
        invariant Shape(tv) && adrift == old(adrift) && forall m :: 0 <= m < LEVELS ==> tv[m].index == old(tv[m].index)
        invariant Holds(SetSlot(tv, n, index, timer), due, loc, timerJiffies, n)
        decreases |timer|
      {
        MoveTimer(n, index, timer);
        timer := timer[1..];
      }
    }

    /** `cascade_timers`: the timers of the current slot of level n go to finer levels. */
    method CascadeTimers(n: nat)
      requires 0 < n < LEVELS && cascaded == n && timerJiffies % Unit(n) == 0
      requires Holds(tv, due, loc, timerJiffies, n) && Indexed(tv, timerJiffies, n)
      modifies this`tv, this`loc, this`cascaded, this`adrift
      ensures cascaded == n + 1 && adrift == old(adrift)
      ensures Holds(tv, due, loc, timerJiffies, n + 1) && Indexed(tv, timerJiffies, n + 1)
      ensures n + 1 < LEVELS ==> (tv[n].index == 1 <==> timerJiffies % Unit(n + 1) == 0)
    {
      var index := tv[n].index;
      var list := tv[n].vec[index];
      SetSame(tv, n, index);
      MoveTimers(n, index, list);
      tv := SetSlot(tv, n, index, []);
      CascadeDone(tv, due, loc, timerJiffies, n);
      tv := tv[n := tv[n].(index := (index + 1) % 64)];
      cascaded := n + 1;
    }

    /** The cascades that begin a tick. */
    method BeginTick()
      requires Valid() && cascaded == 1
      modifies this`tv, this`loc, this`cascaded, this`adrift
      ensures Valid() && cascaded == LEVELS && adrift == old(adrift)
    {
      BaseZero(timerJiffies);
      if tv[0].index == 0 {
        CascadeLevels();
      }
      RestHolds(tv, due, loc, timerJiffies, cascaded);
      cascaded := LEVELS;
    }

    /** One level after the other, as long as each comes round. */
    method CascadeLevels()
      requires cascaded == 1 && timerJiffies % Unit(1) == 0
      requires Holds(tv, due, loc, timerJiffies, 1) && Indexed(tv, timerJiffies, 1)
      modifies this`tv, this`loc, this`cascaded, this`adrift
      ensures 0 < cascaded <= LEVELS && adrift == old(adrift)
      ensures Holds(tv, due, loc, timerJiffies, cascaded) && Indexed(tv, timerJiffies, cascaded)
      ensures cascaded < LEVELS ==> timerJiffies % Unit(cascaded) != 0
    {
      var n := 1;
      while true
        invariant 0 < n < LEVELS && cascaded == n && timerJiffies % Unit(n) == 0 && adrift == old(adrift)
        invariant Holds(tv, due, loc, timerJiffies, n) && Indexed(tv, timerJiffies, n)
        decreases LEVELS - n
      {
        CascadeTimers(n);
        if tv[n].index != 1 {
          break;
        }
        n := n + 1;
        if n >= LEVELS {
          break;
        }
      }
    }

    /** One call of a timer function. */
    method OneCall(c: Call) returns (ghost es: seq<Event>)
      requires Valid()
      modifies this
      ensures Valid() && cascaded == old(cascaded) && timerJiffies == old(timerJiffies)
      ensures es == Asked(old(Contents()), c) && Replay(old(Contents()), es) == Some(Contents()) && FiredBy(es) == []
    {
      es := Asked(Contents(), c);
      match c {
        case DelCall(id) =>
          var _ := DelTimer(id);
          Extend(old(Contents()), [], old(Contents()), Del(id), Contents());
          assert es == [] + [Del(id)];
        case AddCall(id, expires) =>
          var found, _, _, _ := Locate(id);
          if !found && id !in adrift && expires < WORD {
            AddTimer(id, expires);
            Extend(old(Contents()), [], old(Contents()), Add(id, expires), Contents());
            assert es == [] + [Add(id, expires)];
          }
      }
    }

    /** The calls one timer function makes. */
    method RunCalls(calls: seq<Call>) returns (ghost events: seq<Event>)
      requires Valid()
      modifies this
      ensures Valid() && cascaded == old(cascaded) && timerJiffies == old(timerJiffies)
      ensures events == Made(old(Contents()), calls) && Replay(old(Contents()), events) == Some(Contents()) && FiredBy(events) == []
    {
      events := [];
      var j := 0;
      while j < |calls|
        invariant 0 <= j <= |calls|
        invariant Valid() && cascaded == old(cascaded) && timerJiffies == old(timerJiffies)
        invariant Replay(old(Contents()), events) == Some(Contents()) && FiredBy(events) == []
        invariant events + Made(Contents(), calls[j..]) == Made(old(Contents()), calls)
      {
        ghost var was := Contents();
        ghost var es := OneCall(calls[j]);
        MadeOneMore(old(Contents()), calls, j, events, was, es, Contents());
        events := events + es;
        j := j + 1;
      }
    }

    /** The first due timer runs. */
    method FireOne(calls: seq<seq<Call>>) returns (id: nat, todo: seq<seq<Call>>, ghost events: seq<Event>)
      requires Valid() && cascaded == LEVELS && tv[0].vec[tv[0].index] != []
      modifies this
      ensures Valid() && cascaded == LEVELS && timerJiffies == old(timerJiffies)
      ensures if calls == [] then todo == [] && |due| < |old(due)| else todo == calls[1..]
      ensures Replay(old(Contents()), events) == Some(Contents()) && FiredBy(events) == [id]
      ensures Serves(old(Contents()), calls, events, todo)
    {
      id := tv[0].vec[tv[0].index][0].id;
      HeadIsDue(tv, due, loc, timerJiffies);
      Unlink(0, tv[0].index, 0);
      ghost var was := Contents();
      Extend(old(Contents()), [], old(Contents()), Fire(id), was);
      todo, events := calls, [Fire(id)];
      assert [] + events == events && events[1..] == [];
      if calls != [] {
        ghost var es := RunCalls(calls[0]);
        ReplayConcat(old(Contents()), events, es);
        FiredByConcat(events, es);
        events, todo := events + es, calls[1..];
        assert events[1..] == es && es[|es|..] == [];
      }
    }

    /** The inner loop of `run_timer_list`: run what is due now, until the slot stays empty. */
    method FireDue(calls: seq<seq<Call>>) returns (fired: seq<nat>, todo: seq<seq<Call>>, ghost events: seq<Event>)
      requires Valid() && cascaded == LEVELS
      modifies this
      ensures Valid() && cascaded == LEVELS && timerJiffies == old(timerJiffies)
      ensures tv[0].vec[tv[0].index] == []
      ensures Replay(old(Contents()), events) == Some(Contents()) && FiredBy(events) == fired
      ensures Serves(old(Contents()), calls, events, todo)
    {
      fired, events, todo := [], [], calls;
      while tv[0].vec[tv[0].index] != []
        invariant Valid() && cascaded == LEVELS && timerJiffies == old(timerJiffies)
        invariant Replay(old(Contents()), events) == Some(Contents()) && FiredBy(events) == fired
        invariant Serves(old(Contents()), calls, events, todo)
        decreases |todo|, |due|
      {
        ghost var mid := todo;
        var id; ghost var es;
        id, todo, es := FireOne(todo);
        ReplayConcat(old(Contents()), events, es);
        FiredByConcat(events, es);
        ServesConcat(old(Contents()), calls, events, mid, es, todo);
        events, fired := events + es, fired + [id];
      }
    }

    method EndTick()
      requires Valid() && cascaded == LEVELS && tv[0].vec[tv[0].index] == []
      modifies this`tv, this`timerJiffies, this`cascaded
      ensures Valid() && cascaded == 1 && timerJiffies == old(timerJiffies) + 1
      ensures Step(old(Contents()), Tick) == Some(Contents())
    {
      TickHolds(tv, due, loc, timerJiffies);
      IndexHolds(tv, due, loc, timerJiffies + 1, 1, 0, (tv[0].index + 1) % 256);
      tv := tv[0 := tv[0].(index := (tv[0].index + 1) % 256)];
      timerJiffies := timerJiffies + 1;
      cascaded := 1;
    }

    /** `run_timer_list` up to tick `jiffies`; the k-th timer function to run makes the calls calls[k]. */
    method RunTimerList(jiffies: nat, calls: seq<seq<Call>>)
      returns (fired: seq<nat>, todo: seq<seq<Call>>, ghost events: seq<Event>)
      requires Valid() && cascaded == 1
      modifies this
      ensures Valid() && cascaded == 1
      ensures timerJiffies == if old(timerJiffies) <= jiffies then jiffies + 1 else old(timerJiffies)
      ensures Replay(old(Contents()), events) == Some(Contents()) && FiredBy(events) == fired
      ensures Serves(old(Contents()), calls, events, todo)
    {
      fired, events, todo := [], [], calls;
      while timerJiffies <= jiffies
        invariant Valid() && cascaded == 1 && old(timerJiffies) <= timerJiffies
        invariant timerJiffies <= jiffies + 1 || timerJiffies == old(timerJiffies)
        invariant Replay(old(Contents()), events) == Some(Contents()) && FiredBy(events) == fired
        invariant Serves(old(Contents()), calls, events, todo)
        decreases jiffies + 1 - timerJiffies
      {
        ghost var mid := todo;
        var ids; ghost var es;
        ids, todo, es := OneTick(todo);
        ReplayConcat(old(Contents()), events, es);
        FiredByConcat(events, es);
        ServesConcat(old(Contents()), calls, events, mid, es, todo);
        fired, events := fired + ids, events + es;
      }
    }

    /** One tick: cascades, what is due, and on to the next. */
    method OneTick(calls: seq<seq<Call>>) returns (fired: seq<nat>, todo: seq<seq<Call>>, ghost events: seq<Event>)
      requires Valid() && cascaded == 1
      modifies this
      ensures Valid() && cascaded == 1 && timerJiffies == old(timerJiffies) + 1
      ensures Replay(old(Contents()), events) == Some(Contents()) && FiredBy(events) == fired
      ensures Serves(old(Contents()), calls, events, todo)
    {
      BeginTick();
      fired, todo, events := FireDue(calls);
      ghost var was := Contents();
      EndTick();
      Extend(old(Contents()), events, was, Tick, Contents());
      assert [Tick][1..] == [];
      ServesConcat(old(Contents()), calls, events, todo, [Tick], todo);
      events := events + [Tick];
    }
  }
}
