/**
 What kernel timers promise: a bag of timers, each with the tick it is due at.

 Time is counted without end here; the machine keeps it modulo 2^32, and a timer's `expires`
 is such a 32-bit word.
 */
module TimerBag {
  import opened Wrappers

  const WORD: nat := 0x1_0000_0000

  /** The distance `expires - timer_jiffies` as unsigned 32-bit arithmetic gives it. */
  function Distance(now: nat, expires: nat): (d: nat)
    ensures d < WORD
    ensures expires < WORD ==> (now + d) % WORD == expires
  {
    (expires - now) % WORD
  }

  /** The tick a timer added at `now` is due at.  A distance of 2^26 or more whose `expires` is the smaller
      word is taken for the past; a distance of 2^32 - 1 is dropped otherwise. */
  function Due(now: nat, expires: nat): Option<nat> {
    var d := Distance(now, expires);
    if d < 0x400_0000 then Some(now + d)
    else if expires < now % WORD then Some(now)
    else if d < WORD - 1 then Some(now + d)
    else None
  }

  /** While the clock has not wrapped, a timer is due at its expiry, or at once if that has passed: exactly if it has not
      passed by more than 2^32 - 2^26 ticks and is not 2^32 - 1 ticks ahead. */
  lemma DueBeforeWrap(now: nat, expires: nat)
    requires now < WORD && expires < WORD
    ensures Due(now, expires) == Some(if expires < now then now else expires) <==>
              now - expires <= WORD - 0x400_0000 && expires - now < WORD - 1
  {
    if expires < now {
      assert Distance(now, expires) == WORD + expires - now;
    } else {
      assert Distance(now, expires) == expires - now;
    }
  }

  /** Pending timers with their due ticks, and timers add_timer dropped, which are linked to themselves. */
  datatype Bag = Bag(now: nat, due: map<nat, nat>, adrift: set<nat>)

  datatype Event =
    | Add(id: nat, expires: nat)
    | Del(id: nat)
    | Fire(id: nat)
    | Tick

  predicate Idle(b: Bag, id: nat) {
    id !in b.due && id !in b.adrift
  }

  /** One event, if it may happen: a timer is added only when it is not pending, fires only at its due
      tick, and time passes only when nothing is due any more. */
  ghost function Step(b: Bag, e: Event): Option<Bag> {
    match e
    case Add(id, expires) =>
      if !Idle(b, id) then None
      else (match Due(b.now, expires)
            case Some(d) => Some(b.(due := b.due[id := d]))
            case None => Some(b.(adrift := b.adrift + {id})))
    case Del(id) => Some(b.(due := b.due - {id}, adrift := b.adrift - {id}))
    case Fire(id) => if id in b.due && b.due[id] == b.now then Some(b.(due := b.due - {id})) else None
    case Tick => if forall id :: id in b.due ==> b.due[id] > b.now then Some(b.(now := b.now + 1)) else None
  }

  ghost function Replay(b: Bag, events: seq<Event>): Option<Bag>
    decreases |events|
  {
    if events == [] then Some(b)
    else
      match Step(b, events[0])
      case None => None
      case Some(b1) => Replay(b1, events[1..])
  }

  lemma {:induction false} ReplayConcat(b: Bag, p: seq<Event>, q: seq<Event>)
    requires Replay(b, p).Some?
    ensures Replay(b, p + q) == Replay(Replay(b, p).value, q)
    decreases |p|
  {
    if p == [] {
      assert p + q == q;
    } else {
      assert (p + q)[1..] == p[1..] + q;
      ReplayConcat(Step(b, p[0]).value, p[1..], q);
    }
  }

  // ---------- what timer functions do ----------

  /** A call that a timer function may make when it runs. */
  datatype Call = AddCall(id: nat, expires: nat) | DelCall(id: nat)

  /** The event a call is, if any: adding a timer that is pending is against the rules of add_timer. */
  ghost function Asked(b: Bag, c: Call): seq<Event> {
    match c
    case DelCall(id) => [Del(id)]
    case AddCall(id, expires) => if Idle(b, id) && expires < WORD then [Add(id, expires)] else []
  }

  /** The events of the calls of one timer function, in order. */
  ghost function Made(b: Bag, calls: seq<Call>): seq<Event>
    decreases |calls|
  {
    if calls == [] then []
    else
      var es := Asked(b, calls[0]);
      match Replay(b, es)
      case None => es
      case Some(b1) => es + Made(b1, calls[1..])
  }

  /** Time passes and timers fire; the k-th to fire makes the calls calls[k] at once, and `todo` are those left. */
  ghost predicate Serves(b: Bag, calls: seq<seq<Call>>, events: seq<Event>, todo: seq<seq<Call>>)
    decreases |events|
  {
    if events == [] then todo == calls
    else
      match Step(b, events[0])
      case None => false
      case Some(c) =>
        if events[0].Tick? then Serves(c, calls, events[1..], todo)
        else if !events[0].Fire? then false
        else if calls == [] then Serves(c, [], events[1..], todo)
        else
          var es := Made(c, calls[0]);
          && es <= events[1..]
          && match Replay(c, es)
             case None => false
             case Some(d) => Serves(d, calls[1..], events[1..][|es|..], todo)
  }

  lemma {:induction false} ServesConcat(b: Bag, calls: seq<seq<Call>>, p: seq<Event>, mid: seq<seq<Call>>, q: seq<Event>,
                                        todo: seq<seq<Call>>)
    requires Serves(b, calls, p, mid) && Replay(b, p).Some? && Serves(Replay(b, p).value, mid, q, todo)
    ensures Serves(b, calls, p + q, todo)
    decreases |p|
  {
    if p == [] {
      assert p + q == q;
    } else {
      var c := Step(b, p[0]).value;
      assert (p + q)[1..] == p[1..] + q;
      if p[0].Fire? && calls != [] {
        var es := Made(c, calls[0]);
        var rest := p[1..][|es|..];
        assert p[1..] == es + rest;
        assert (p + q)[1..][|es|..] == rest + q;
        ReplayConcat(c, es, rest);
        ServesConcat(Replay(c, es).value, calls[1..], rest, mid, q, todo);
      } else {
        ServesConcat(c, calls, p[1..], mid, q, todo);
      }
    }
  }

  /** Event k of the run fires the timer, at the given tick. */
  ghost predicate FiresAt(b: Bag, events: seq<Event>, k: nat, id: nat, tick: nat) {
    && k < |events| && events[k] == Fire(id)
    && Replay(b, events[..k]).Some? && Replay(b, events[..k]).value.now == tick
  }

  /** A pending timer that nobody deletes fires once its tick has passed: exactly at that tick, and not before. */
  lemma {:induction false} FiresOnTime(b: Bag, events: seq<Event>, id: nat)
    requires id in b.due && Replay(b, events).Some? && Del(id) !in events
    requires Replay(b, events).value.now > b.due[id] >= b.now
    ensures exists k: nat :: FiresAt(b, events, k, id, b.due[id]) && Fire(id) !in events[..k]
    decreases |events|
  {
    var e := events[0];
    var b1 := Step(b, e).value;
    if e == Fire(id) {
      assert events[..0] == [];
      assert FiresAt(b, events, 0, id, b.due[id]);
    } else {
      assert e in events;
      FiresOnTime(b1, events[1..], id);
      var j: nat :| FiresAt(b1, events[1..], j, id, b1.due[id]) && Fire(id) !in events[1..][..j];
      assert events[..j + 1] == [e] + events[1..][..j];
      assert events[..j + 1][1..] == events[1..][..j];
      assert FiresAt(b, events, j + 1, id, b.due[id]);
    }
  }

  /** A timer that is not pending does not fire until it is added again. */
  lemma {:induction false} IdleStaysQuiet(b: Bag, events: seq<Event>, id: nat)
    requires id !in b.due && Replay(b, events).Some?
    requires forall e :: e in events && e.Add? ==> e.id != id
    ensures Fire(id) !in events && id !in Replay(b, events).value.due
    decreases |events|
  {
    if events != [] {
      assert events[0] in events;
      IdleStaysQuiet(Step(b, events[0]).value, events[1..], id);
      assert forall e :: e in events <==> e == events[0] || e in events[1..];
    }
  }

  /** A timer added once and never deleted fires exactly once, at its due tick. */
  lemma {:induction false} FiresExactlyOnce(b: Bag, events: seq<Event>, id: nat, k: nat)
    requires id in b.due && b.due[id] >= b.now && Replay(b, events).Some?
    requires Del(id) !in events && (forall e :: e in events && e.Add? ==> e.id != id)
    requires k < |events| && events[k] == Fire(id)
    ensures FiresAt(b, events, k, id, b.due[id])
    ensures forall j :: 0 <= j < |events| && events[j] == Fire(id) ==> j == k
    decreases |events|
  {
    var e := events[0];
    assert e in events;
    var b1 := Step(b, e).value;
    assert forall x :: x in events <==> x == e || x in events[1..];
    if e == Fire(id) {
      IdleStaysQuiet(b1, events[1..], id);
      assert forall j :: 1 <= j < |events| ==> events[j] == events[1..][j - 1];
      assert k == 0 && events[..0] == [];
    } else {
      assert events[1..][k - 1] == events[k];
      FiresExactlyOnce(b1, events[1..], id, k - 1);
      assert events[..k] == [e] + events[1..][..k - 1];
      assert events[..k][1..] == events[1..][..k - 1];
      assert forall j :: 1 <= j < |events| ==> events[j] == events[1..][j - 1];
    }
  }
}
