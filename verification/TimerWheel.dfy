/** The hierarchical timer wheel: four levels of 256 slots, where a slot of level j
    spans 256^j ticks. Ticks are unbounded naturals.

    Timers are identified by their address; the wheel owns their records. Where the
    code splices a slot list into a temporary head and goes on as if the slot were
    empty, the model takes the whole list and leaves the slot empty. */
module TimerWheel {
  import opened Basics

  type TimerId = nat

  datatype Place = Place(level: nat, slot: nat)

  /** `place` is the slot a scheduled timer is linked in. */
  datatype Timer = Timer(expires: nat, interval: nat, periodic: bool, place: Option<Place>)

  // ---------------------------------------------------------------------------
  // Slot arithmetic
  // ---------------------------------------------------------------------------

  /** Ticks spanned by one slot of a level. */
  function Span(level: nat): (u: nat)
    ensures u > 0
  {
    if level == 0 then 1 else if level == 1 then 0x100 else if level == 2 then 0x1_0000 else 0x100_0000
  }

  function CalculateSlot(tick: nat, expires: nat): Place
    requires tick <= expires
  {
    var delta := expires - tick;
    if delta < 0x100 then Place(0, (tick + delta) % 0x100)
    else if delta < 0x1_0000 then Place(1, (tick + delta) / 0x100 % 0x100)
    else if delta < 0x100_0000 then Place(2, (tick + delta) / 0x1_0000 % 0x100)
    else Place(3, (tick + delta) / 0x100_0000 % 0x100)
  }

  /** A timer may sit at `pl` at this tick, if slots that begin now are still to be cascaded. */
  predicate Due(tick: nat, expires: nat, pl: Place) {
    && tick <= expires
    && pl.level < 4
    && pl.slot == expires / Span(pl.level) % 0x100
    && tick / Span(pl.level) <= expires / Span(pl.level)
    && (pl.level < 3 ==> expires - tick < Span(pl.level + 1))
  }

  /** A timer sits where it will be found in time: above level 0 its slot lies ahead. */
  predicate OnTime(tick: nat, expires: nat, pl: Place) {
    Due(tick, expires, pl) && (pl.level > 0 ==> tick / Span(pl.level) < expires / Span(pl.level))
  }

  lemma SlotIsOnTime(tick: nat, expires: nat)
    requires tick <= expires
    ensures OnTime(tick, expires, CalculateSlot(tick, expires))
  {
  }

  /** The slot of the current tick holds exactly the timers that expire now. */
  lemma CurrentSlot(tick: nat, expires: nat, pl: Place)
    requires OnTime(tick, expires, pl)
    ensures pl == Place(0, tick % 0x100) <==> expires == tick
  {
  }

  lemma NextTick(tick: nat, expires: nat, pl: Place)
    requires OnTime(tick, expires, pl) && expires != tick
    ensures Due(tick + 1, expires, pl)
    ensures (tick + 1) % Span(pl.level) != 0 ==> OnTime(tick + 1, expires, pl)
  {
  }

  /** Outside the slot that begins now, due means on time. */
  lemma OtherSlot(tick: nat, expires: nat, pl: Place)
    requires Due(tick, expires, pl)
    ensures pl.level == 0 || pl.slot != tick / Span(pl.level) % 0x100 ==> OnTime(tick, expires, pl)
  {
  }

  // ---------------------------------------------------------------------------
  // Slot lists
  // ---------------------------------------------------------------------------

  predicate IsPlace(pl: Place) { pl.level < 4 && pl.slot < 0x100 }

  ghost predicate ListOk(timers: map<TimerId, Timer>, pl: Place, q: seq<TimerId>, loose: seq<TimerId>) {
    && Distinct(q)
    && forall id :: id in q ==> id in timers && timers[id].place == Some(pl) && id !in loose
  }

  /** Slot lists and timer records agree. The timers in `loose` are off the lists
      for the moment although their records still name a slot. */
  ghost predicate Linked(timers: map<TimerId, Timer>, slots: map<Place, seq<TimerId>>, loose: seq<TimerId>) {
    && (forall pl :: pl in slots <==> IsPlace(pl))
    && (forall pl :: pl in slots ==> ListOk(timers, pl, slots[pl], loose))
    && (forall id :: id in timers && timers[id].place.Some? && id !in loose ==>
          timers[id].place.value in slots && id in slots[timers[id].place.value])
    && Distinct(loose)
    && (forall id :: id in loose ==> id in timers && timers[id].place.Some?)
  }

  /** The timers the wheel will fire, with their deadlines. */
  ghost function Deadlines(timers: map<TimerId, Timer>): (d: map<TimerId, nat>) {
    map id | id in timers && timers[id].place.Some? :: timers[id].expires
  }

  /** `batch` lists the timers whose deadline is `tick`, each once. */
  ghost predicate IsBatch(timers: map<TimerId, Timer>, tick: nat, batch: seq<TimerId>) {
    && Distinct(batch)
    && forall id :: id in batch <==> id in Deadlines(timers) && Deadlines(timers)[id] == tick
  }

  /** The records once the timers in `q` are off their slots. */
  ghost function Unplaced(timers: map<TimerId, Timer>, q: seq<TimerId>): map<TimerId, Timer> {
    map id | id in timers :: if id in q then timers[id].(place := None) else timers[id]
  }

  /** The records once the timers in `q` are linked afresh. */
  ghost function Replaced(timers: map<TimerId, Timer>, q: seq<TimerId>, tick: nat): map<TimerId, Timer>
    requires forall id :: id in q && id in timers ==> tick <= timers[id].expires
  {
    map id | id in timers ::
      if id in q then timers[id].(place := Some(CalculateSlot(tick, timers[id].expires))) else timers[id]
  }

  ghost predicate AllOnTime(timers: map<TimerId, Timer>, tick: nat) {
    forall id {:trigger OnTime(tick, timers[id].expires, timers[id].place.value)} ::
      id in timers && timers[id].place.Some? ==> OnTime(tick, timers[id].expires, timers[id].place.value)
  }

  /** Every scheduled timer is due, and on time on the levels that are cascaded or have nothing to cascade at this tick. */
  ghost predicate DueUpTo(timers: map<TimerId, Timer>, tick: nat, cascaded: nat) {
    forall id :: id in timers && timers[id].place.Some? ==>
      var e, pl := timers[id].expires, timers[id].place.value;
      Due(tick, e, pl) && (pl.level <= cascaded || tick % Span(pl.level) != 0 ==> OnTime(tick, e, pl))
  }

  // ---------------------------------------------------------------------------
  // The wheel
  // ---------------------------------------------------------------------------

  class Wheel {
    var tick: nat
    const tickMs: nat
    var timers: map<TimerId, Timer>
    var slots: map<Place, seq<TimerId>>
    var expired: seq<TimerId>

    /** Lists agree with records, and every timer is where it will be found in time. */
    ghost predicate Valid()
      reads this
    {
      && tickMs > 0
      && Linked(timers, slots, [])
      && AllOnTime(timers, tick)
    }

    constructor (tickIntervalMs: nat)
      ensures Valid() && tick == 0 && timers == map[] && expired == []
      ensures tickMs == if tickIntervalMs > 0 then tickIntervalMs else 1
    {
      tickMs := if tickIntervalMs > 0 then tickIntervalMs else 1;
      tick := 0;
      timers := map[];
      slots := map level: nat, slot: nat | level < 4 && slot < 0x100 :: Place(level, slot) := [];
      expired := [];
    }

    /** Links a timer that is off the lists into its slot. */
    method AddTimer(id: TimerId, ghost loose: seq<TimerId>)
      requires id in timers && Linked(timers, slots, loose) && tick <= timers[id].expires
      requires timers[id].place.None? && id !in loose
      modifies this`timers, this`slots
      ensures Linked(timers, slots, loose)
      ensures timers == old(timers)[id := old(timers)[id].(place := Some(CalculateSlot(tick, old(timers)[id].expires)))]
    {
      var pl := CalculateSlot(tick, timers[id].expires);
      assert forall p :: p in slots ==> id !in slots[p];
      timers := timers[id := timers[id].(place := Some(pl))];
      slots := slots[pl := slots[pl] + [id]];
    }

    /** Takes a timer off its slot, if it is on one. */
    method RemoveTimer(id: TimerId)
      requires id in timers && Linked(timers, slots, [])
      modifies this`timers, this`slots
      ensures Linked(timers, slots, [])
      ensures timers == old(timers)[id := old(timers)[id].(place := None)]
    {
      if timers[id].place.Some? {
        var pl := timers[id].place.value;
        WithoutDistinct(slots[pl], id);
        slots := slots[pl := Without(slots[pl], id)];
        timers := timers[id := timers[id].(place := None)];
      } else {
        assert timers == timers[id := timers[id].(place := None)];
      }
    }

    /** Unlinks the first timer of a slot. */
    method PopFirst(pl: Place) returns (id: TimerId)
      requires Linked(timers, slots, []) && pl in slots && slots[pl] != []
      modifies this`timers, this`slots
      ensures Linked(timers, slots, [])
      ensures id == old(slots)[pl][0] && id in old(timers) && old(timers)[id].place == Some(pl)
      ensures timers == old(timers)[id := old(timers)[id].(place := None)]
      ensures slots == old(slots)[pl := old(slots)[pl][1..]]
    {
      id := slots[pl][0];
      assert ListOk(timers, pl, slots[pl], []);
      slots := slots[pl := slots[pl][1..]];
      timers := timers[id := timers[id].(place := None)];
    }

    /** Moves the timers of the current level 0 slot to the expired list: exactly
        those whose deadline is now. */
    method ExpireCurrent() returns (ghost batch: seq<TimerId>)
      requires Valid()
      modifies this`timers, this`slots, this`expired
      ensures Linked(timers, slots, [])
      ensures expired == old(expired) + batch && IsBatch(old(timers), tick, batch)
      ensures timers == Unplaced(old(timers), batch)
    {
      var pl := Place(0, tick % 0x100);
      batch := [];
      while slots[pl] != []
        invariant Linked(timers, slots, [])
        invariant expired == old(expired) + batch && Distinct(batch)
        invariant timers == Unplaced(old(timers), batch)
        invariant forall id :: id in batch ==> id in old(timers) && old(timers)[id].place == Some(pl)
        decreases |slots[pl]|
      {
        var id := PopFirst(pl);
        UnplacedOne(old(timers), batch, id, pl);
        CurrentSlot(tick, timers[id].expires, pl);
        if timers[id].expires <= tick {
          expired := expired + [id];
          batch := batch + [id];
        } else {
          // not yet expired: the code would link the timer again
          assert false;
        }
      }
      BatchIsDue(old(timers), tick, batch, pl);
    }

    /** Takes the whole list of a slot, leaving the slot empty. */
    method TakeSlot(pl: Place) returns (q: seq<TimerId>)
      requires Linked(timers, slots, []) && pl in slots
      modifies this`slots
      ensures Linked(timers, slots, q)
      ensures forall id :: id in q <==> id in timers && timers[id].place == Some(pl)
    {
      q := slots[pl];
      assert ListOk(timers, pl, q, []);
      slots := slots[pl := []];
    }

    /** Links the first of the taken timers afresh. */
    method RelinkFirst(tmp: seq<TimerId>)
      requires tmp != [] && Linked(timers, slots, tmp) && tick <= timers[tmp[0]].expires
      modifies this`timers, this`slots
      ensures Linked(timers, slots, tmp[1..])
      ensures var t := old(timers)[tmp[0]];
              timers == old(timers)[tmp[0] := t.(place := Some(CalculateSlot(tick, t.expires)))]
    {
      var id := tmp[0];
      timers := timers[id := timers[id].(place := None)];
      assert Linked(timers, slots, tmp[1..]);
      AddTimer(id, tmp[1..]);
    }

    method Relink(q: seq<TimerId>)
      requires Linked(timers, slots, q)
      requires forall id :: id in q ==> tick <= timers[id].expires
      modifies this`timers, this`slots
      ensures Linked(timers, slots, [])
      ensures timers == Replaced(old(timers), q, tick)
    {
      var tmp := q;
      ghost var done := [];
      assert Replaced(timers, done, tick) == timers;
      while tmp != []
        invariant Linked(timers, slots, tmp)
        invariant q == done + tmp && Distinct(q)
        invariant forall id :: id in q ==> id in old(timers)
        invariant timers == Replaced(old(timers), done, tick)
        decreases |tmp|
      {
        ReplacedOne(old(timers), done, tmp, tick);
        RelinkFirst(tmp);
        done := done + [tmp[0]];
        tmp := tmp[1..];
      }
      assert done == q;
    }

    /** Redistributes the slot of `level` that begins at this tick. */
    method Cascade(level: nat)
      requires 1 <= level < 4 && Linked(timers, slots, []) && DueUpTo(timers, tick, level - 1)
      modifies this`timers, this`slots
      ensures Linked(timers, slots, []) && DueUpTo(timers, tick, level)
      ensures SameButPlaces(old(timers), timers)
    {
      var q := TakeSlot(Place(level, tick / Span(level) % 0x100));
      CascadedSlot(timers, q, tick, level);
      Relink(q);
    }

    /** One iteration of the tick loop: exactly the timers whose deadline is the
        current tick reach the expired list, then the clock moves on. */
    method Advance() returns (ghost batch: seq<TimerId>)
      requires Valid()
      modifies this`tick, this`timers, this`slots, this`expired
      ensures Valid() && tick == old(tick) + 1
      ensures expired == old(expired) + batch && IsBatch(old(timers), old(tick), batch)
      ensures SameButPlaces(Unplaced(old(timers), batch), timers)
    {
      batch := ExpireCurrent();
      StillDue(old(timers), batch, tick);
      StepClock();
    }

    method StepClock()
      requires Linked(timers, slots, []) && DueUpTo(timers, tick + 1, 0)
      modifies this`tick, this`timers, this`slots
      ensures tick == old(tick) + 1
      ensures Linked(timers, slots, []) && AllOnTime(timers, tick)
      ensures SameButPlaces(old(timers), timers)
    {
      tick := tick + 1;
      CascadeAll();
    }

    /** Cascades every level on which a slot begins at this tick, lowest first. */
    method CascadeAll()
      requires Linked(timers, slots, []) && DueUpTo(timers, tick, 0)
      modifies this`timers, this`slots
      ensures Linked(timers, slots, []) && AllOnTime(timers, tick)
      ensures SameButPlaces(old(timers), timers)
    {
      if tick % 0x100 == 0 {
        Cascade(1);
        if tick % 0x1_0000 == 0 {
          ghost var t1 := timers;
          Cascade(2);
          SameAgain(old(timers), t1, timers);
          if tick % 0x100_0000 == 0 {
            ghost var t2 := timers;
            Cascade(3);
            SameAgain(old(timers), t2, timers);
            NoneLeft(timers, tick, 3);
          } else {
            NoneLeft(timers, tick, 2);
          }
        } else {
          NoneLeft(timers, tick, 1);
        }
      } else {
        NoneLeft(timers, tick, 0);
      }
    }

    /** An iteration of the tick loop as part of a run that began with `timers0`. */
    method AdvanceInRun(ghost timers0: map<TimerId, Timer>, ghost when: seq<nat>) returns (ghost when': seq<nat>)
      requires Valid() && TickedTo(timers0, timers, tick, expired, when)
      modifies this`tick, this`timers, this`slots, this`expired
      ensures Valid() && tick == old(tick) + 1
      ensures TickedTo(timers0, timers, tick, expired, when')
    {
      ghost var batch := Advance();
      TickedOnce(timers0, old(timers), old(tick), old(expired), when, batch, timers);
      when' := when + seq(|batch|, _ => old(tick));
    }

    /** The tick loop up to `target`, then the hand-off of the expired list. Against the
        plain bag of deadlines: every timer due before `target` is handed over once, in
        order of deadline, having expired at the very tick of its deadline; the others stay. */
    method Tick(target: nat) returns (fired: seq<TimerId>, ghost when: seq<nat>)
      requires Valid() && expired == []
      modifies this`tick, this`timers, this`slots, this`expired
      ensures Valid() && expired == [] && tick == if target > old(tick) then target else old(tick)
      ensures TickedTo(old(timers), timers, tick, fired, when)
    {
      when := [];
      NothingDueBefore(timers, tick);
      while tick < target
        invariant Valid() && old(tick) <= tick && (tick <= target || tick == old(tick))
        invariant TickedTo(old(timers), timers, tick, expired, when)
        decreases target - tick
      {
        when := AdvanceInRun(old(timers), when);
      }
      fired := expired;
      expired := [];
    }

    /** Registers a timer record, not scheduled yet. */
    method InitTimer(id: TimerId)
      requires Valid() && id !in timers
      modifies this`timers
      ensures Valid() && timers == old(timers)[id := Timer(0, 0, false, None)]
      ensures Deadlines(timers) == Deadlines(old(timers))
    {
      timers := timers[id := Timer(0, 0, false, None)];
    }

    /** A delay in ticks: as many as end within it, and at least one. */
    function DelayTicks(ms: nat): (d: nat)
      requires tickMs > 0
      ensures d >= 1
      ensures if ms < tickMs then d == 1 else d * tickMs <= ms < (d + 1) * tickMs
    {
      WholeTicks(ms, tickMs);
      if ms / tickMs == 0 then 1 else ms / tickMs
    }

    /** Fills in the record of an unlinked timer and links it. */
    method Schedule(id: TimerId, t: Timer)
      requires Linked(timers, slots, []) && AllOnTime(timers, tick)
      requires id in timers && timers[id].place.None? && t.place.None? && tick <= t.expires
      modifies this`timers, this`slots
      ensures Linked(timers, slots, []) && AllOnTime(timers, tick)
      ensures timers == old(timers)[id := t.(place := Some(CalculateSlot(tick, t.expires)))]
    {
      RecordChange(timers, slots, id, t);
      UpdatedTwice(timers, id, t, t.(place := Some(CalculateSlot(tick, t.expires))));
      timers := timers[id := t];
      AddTimer(id, []);
      ScheduledAt(old(timers), tick, id, t);
    }

    /** Takes a timer off its slot, if it is on one, and links it under its new record. */
    method Reschedule(id: TimerId, t: Timer)
      requires Linked(timers, slots, []) && AllOnTime(timers, tick)
      requires id in timers && t.place.None? && tick <= t.expires
      modifies this`timers, this`slots
      ensures Linked(timers, slots, []) && AllOnTime(timers, tick)
      ensures timers == old(timers)[id := t.(place := Some(CalculateSlot(tick, t.expires)))]
    {
      RemoveTimer(id);
      Unscheduled(old(timers), tick, id);
      UpdatedTwice(old(timers), id, timers[id], t.(place := Some(CalculateSlot(tick, t.expires))));
      Schedule(id, t);
    }

    /** Starts or restarts a timer: in the bag, its deadline becomes the last tick that begins
        within the delay, and the next tick if none does. */
    method Start(id: TimerId, ms: nat, periodic: bool)
      requires Valid() && id in timers
      modifies this`timers, this`slots
      ensures Valid()
      ensures Deadlines(timers) == Deadlines(old(timers))[id := tick + DelayTicks(ms)]
      ensures var d := Deadlines(timers)[id] - tick;
              d >= 1 && if ms < tickMs then d == 1 else d * tickMs <= ms < (d + 1) * tickMs
      ensures var e := tick + DelayTicks(ms);
              timers == old(timers)[id := Timer(e, DelayTicks(ms), periodic, Some(CalculateSlot(tick, e)))]
    {
      var ticks := DelayTicks(ms);
      ghost var t := Timer(tick + ticks, ticks, periodic, None);
      ScheduledAt(timers, tick, id, t);
      Reschedule(id, Timer(tick + ticks, ticks, periodic, None));
    }

    /** Stops a timer: it leaves the bag. */
    method Stop(id: TimerId)
      requires Valid() && id in timers
      modifies this`timers, this`slots
      ensures Valid()
      ensures Deadlines(timers) == Deadlines(old(timers)) - {id}
      ensures timers == old(timers)[id := old(timers)[id].(place := None)]
    {
      RemoveTimer(id);
      Unscheduled(old(timers), tick, id);
    }

    /** After the callbacks: periodic timers of the fired list are linked again, one interval from now. */
    method Rearm(fired: seq<TimerId>)
      requires Valid() && Distinct(fired)
      requires forall id :: id in fired ==> id in timers && timers[id].place.None?
      modifies this`timers, this`slots
      ensures Valid()
      ensures timers == Rearmed(old(timers), fired, tick)
    {
      var i := 0;
      assert Rearmed(timers, fired[..i], tick) == timers;
      while i < |fired|
        invariant 0 <= i <= |fired| && Linked(timers, slots, []) && AllOnTime(timers, tick)
        invariant timers == Rearmed(old(timers), fired[..i], tick)
      {
        RearmNext(old(timers), fired, i);
        i := i + 1;
      }
      assert fired[..i] == fired;
    }

    /** A whole call at a time that makes `target` the current tick: the timers due are
        fired, and those of them that are periodic are scheduled again. */
    method Process(target: nat) returns (fired: seq<TimerId>, ghost when: seq<nat>, ghost between: map<TimerId, Timer>)
      requires Valid() && expired == []
      modifies this`tick, this`timers, this`slots, this`expired
      ensures Valid() && expired == [] && tick == if target > old(tick) then target else old(tick)
      ensures TickedTo(old(timers), between, tick, fired, when)
      ensures timers == Rearmed(between, fired, tick) && Deadlines(timers) == Upcoming(old(timers), tick)
    {
      fired, when := Tick(target);
      between := timers;
      FiredAreOff(old(timers), timers, tick, fired, when);
      ProcessedBag(old(timers), timers, tick, fired, when);
      Rearm(fired);
    }

    method RearmNext(ghost timers0: map<TimerId, Timer>, fired: seq<TimerId>, i: nat)
      requires Linked(timers, slots, []) && AllOnTime(timers, tick)
      requires i < |fired| && Distinct(fired) && timers == Rearmed(timers0, fired[..i], tick)
      requires fired[i] in timers0 && timers0[fired[i]].place.None?
      modifies this`timers, this`slots
      ensures Linked(timers, slots, []) && AllOnTime(timers, tick)
      ensures timers == Rearmed(timers0, fired[..i + 1], tick)
    {
      RearmedOne(timers0, fired, i, tick);
      if timers[fired[i]].periodic {
        Schedule(fired[i], timers[fired[i]].(expires := tick + timers[fired[i]].interval));
      }
    }
  }

  lemma WholeTicks(ms: nat, tickMs: nat)
    requires tickMs > 0
    ensures var d := ms / tickMs; d * tickMs <= ms < (d + 1) * tickMs && (d == 0 <==> ms < tickMs)
  {
    var d := ms / tickMs;
    assert ms == d * tickMs + ms % tickMs;
    assert (d + 1) * tickMs == d * tickMs + tickMs;
    if d > 0 { AtLeastOne(d, tickMs); }
  }

  lemma AtLeastOne(d: nat, m: nat)
    requires d > 0
    ensures d * m >= m
  {
    assert d * m == (d - 1) * m + m;
  }

  lemma UpdatedTwice(m: map<TimerId, Timer>, id: TimerId, t: Timer, u: Timer)
    ensures m[id := t][id := u] == m[id := u]
  {
  }

  lemma RecordChange(timers: map<TimerId, Timer>, slots: map<Place, seq<TimerId>>, id: TimerId, t: Timer)
    requires Linked(timers, slots, []) && id in timers && timers[id].place.None? && t.place.None?
    ensures Linked(timers[id := t], slots, [])
  {
    forall pl | pl in slots ensures ListOk(timers[id := t], pl, slots[pl], []) {
      assert ListOk(timers, pl, slots[pl], []);
    }
  }

  lemma ScheduledAt(timers: map<TimerId, Timer>, tick: nat, id: TimerId, t: Timer)
    requires AllOnTime(timers, tick) && tick <= t.expires
    ensures var timers' := timers[id := t.(place := Some(CalculateSlot(tick, t.expires)))];
            AllOnTime(timers', tick) && Deadlines(timers') == Deadlines(timers)[id := t.expires]
  {
    SlotIsOnTime(tick, t.expires);
  }

  lemma Unscheduled(timers: map<TimerId, Timer>, tick: nat, id: TimerId)
    requires AllOnTime(timers, tick) && id in timers
    ensures var timers' := timers[id := timers[id].(place := None)];
            AllOnTime(timers', tick) && Deadlines(timers') == Deadlines(timers) - {id}
  {
  }

  /** The records once the periodic timers among `fired` are linked again. */
  ghost function Rearmed(timers: map<TimerId, Timer>, fired: seq<TimerId>, tick: nat): map<TimerId, Timer> {
    map id | id in timers ::
      var e := tick + timers[id].interval;
      if id in fired && timers[id].periodic
      then timers[id].(expires := e, place := Some(CalculateSlot(tick, e)))
      else timers[id]
  }

  lemma RearmedOne(timers: map<TimerId, Timer>, fired: seq<TimerId>, i: nat, tick: nat)
    requires i < |fired| && fired[i] in timers && Distinct(fired)
    ensures var r, id := Rearmed(timers, fired[..i], tick), fired[i];
            var t := timers[id].(expires := tick + timers[id].interval);
            && id in r && r[id] == timers[id]
            && Rearmed(timers, fired[..i + 1], tick)
               == if t.periodic then r[id := t.(place := Some(CalculateSlot(tick, t.expires)))] else r
  {
    assert fired[..i + 1] == fired[..i] + [fired[i]];
    assert fired[i] !in fired[..i];
  }

  /** In the bag, rearming adds each periodic fired timer, one interval from now. */
  lemma RearmedDeadlines(timers: map<TimerId, Timer>, fired: seq<TimerId>, tick: nat, id: TimerId)
    requires id in timers
    ensures var d := Deadlines(Rearmed(timers, fired, tick));
            if id in fired && timers[id].periodic
            then id in d && d[id] == tick + timers[id].interval
            else (id in d <==> id in Deadlines(timers)) && (id in d ==> d[id] == Deadlines(timers)[id])
  {
  }

  /** The deadlines that are not before `t`. */
  ghost function Remaining(d: map<TimerId, nat>, t: nat): map<TimerId, nat> {
    map id | id in d && d[id] >= t :: d[id]
  }

  /** Each timer once, `when[i]` being both its deadline and the tick it expired at, in order. */
  ghost predicate FiredInOrder(d: map<TimerId, nat>, fired: seq<TimerId>, when: seq<nat>) {
    && |when| == |fired| && Distinct(fired)
    && (forall i :: 0 <= i < |fired| ==> fired[i] in d && d[fired[i]] == when[i])
    && (forall i, j :: 0 <= i < j < |when| ==> when[i] <= when[j])
  }

  /** `fired` is what the bag of deadlines of `timers0` gives up by tick `t`, and `timers` is what is left. */
  ghost predicate TickedTo(timers0: map<TimerId, Timer>, timers: map<TimerId, Timer>, t: nat, fired: seq<TimerId>, when: seq<nat>) {
    && FiredInOrder(Deadlines(timers0), fired, when)
    && (forall id :: id in fired <==> id in Deadlines(timers0) && Deadlines(timers0)[id] < t)
    && Deadlines(timers) == Remaining(Deadlines(timers0), t)
    && timers.Keys == timers0.Keys
    && (forall id :: id in timers ==> timers[id].(place := None) == timers0[id].(place := None))
  }

  lemma FiredAreOff(timers0: map<TimerId, Timer>, timers: map<TimerId, Timer>, t: nat, fired: seq<TimerId>, when: seq<nat>)
    requires TickedTo(timers0, timers, t, fired, when)
    ensures Distinct(fired) && forall id :: id in fired ==> id in timers && timers[id].place.None?
  {
    forall id | id in fired ensures id in timers && id !in Deadlines(timers) {
      assert id !in Remaining(Deadlines(timers0), t);
    }
  }

  lemma NothingDueBefore(timers: map<TimerId, Timer>, tick: nat)
    requires AllOnTime(timers, tick)
    ensures TickedTo(timers, timers, tick, [], [])
  {
    forall id | id in Deadlines(timers) ensures Deadlines(timers)[id] >= tick {
      assert OnTime(tick, timers[id].expires, timers[id].place.value);
    }
    assert Remaining(Deadlines(timers), tick) == Deadlines(timers);
  }

  /** One more batch fires, at tick `now`. */
  lemma BatchFires(d: map<TimerId, nat>, now: nat, fired: seq<TimerId>, when: seq<nat>, batch: seq<TimerId>)
    requires FiredInOrder(d, fired, when) && Distinct(batch)
    requires forall id :: id in fired ==> id in d && d[id] < now
    requires forall id :: id in batch ==> id in d && d[id] == now
    ensures FiredInOrder(d, fired + batch, when + seq(|batch|, _ => now))
  {
    var f, w := fired + batch, when + seq(|batch|, _ => now);
    forall i | 0 <= i < |f| ensures f[i] in d && d[f[i]] == w[i] && w[i] <= now && (i < |fired| <==> w[i] < now) {
      if i < |fired| { assert f[i] in fired; } else { assert f[i] == batch[i - |fired|]; }
    }
    forall i, j | 0 <= i < j < |f| ensures f[i] != f[j] && w[i] <= w[j] {
      if i >= |fired| { assert f[i] == batch[i - |fired|] && f[j] == batch[j - |fired|]; }
    }
  }

  lemma TickedOnce(timers0: map<TimerId, Timer>, timers: map<TimerId, Timer>, now: nat, fired: seq<TimerId>, when: seq<nat>,
                   batch: seq<TimerId>, timers': map<TimerId, Timer>)
    requires TickedTo(timers0, timers, now, fired, when) && IsBatch(timers, now, batch)
    requires SameButPlaces(Unplaced(timers, batch), timers')
    ensures TickedTo(timers0, timers', now + 1, fired + batch, when + seq(|batch|, _ => now))
  {
    var d := Deadlines(timers0);
    BatchFires(d, now, fired, when, batch);
    var left := Deadlines(Unplaced(timers, batch));
    forall id ensures id in left <==> id in Remaining(d, now + 1) {
      assert id in Deadlines(timers) <==> id in Remaining(d, now);
    }
    assert left == Remaining(d, now + 1);
  }

  /** After the current slot is emptied, everything left is due at the next tick. */
  lemma StillDue(timers: map<TimerId, Timer>, batch: seq<TimerId>, tick: nat)
    requires AllOnTime(timers, tick) && IsBatch(timers, tick, batch)
    ensures DueUpTo(Unplaced(timers, batch), tick + 1, 0)
  {
    var u := Unplaced(timers, batch);
    forall id | id in u && u[id].place.Some?
      ensures var e, pl := u[id].expires, u[id].place.value;
              Due(tick + 1, e, pl) && (pl.level <= 0 || (tick + 1) % Span(pl.level) != 0 ==> OnTime(tick + 1, e, pl))
    {
      assert id !in batch && u[id] == timers[id];
      NextTick(tick, u[id].expires, u[id].place.value);
    }
  }

  /** The same timers with the same deadlines; only the slots they wait in differ. */
  ghost predicate SameButPlaces(timers: map<TimerId, Timer>, timers': map<TimerId, Timer>) {
    && timers'.Keys == timers.Keys
    && Deadlines(timers') == Deadlines(timers)
    && forall id :: id in timers ==> timers'[id].(place := None) == timers[id].(place := None)
  }

  lemma SameAgain(a: map<TimerId, Timer>, b: map<TimerId, Timer>, c: map<TimerId, Timer>)
    requires SameButPlaces(a, b) && SameButPlaces(b, c)
    ensures SameButPlaces(a, c)
  {
  }

  /** No level above `cascaded` has a slot that begins now. */
  lemma NoneLeft(timers: map<TimerId, Timer>, tick: nat, cascaded: nat)
    requires DueUpTo(timers, tick, cascaded)
    requires cascaded < 3 ==> tick % Span(cascaded + 1) != 0
    ensures AllOnTime(timers, tick)
  {
    forall id | id in timers && timers[id].place.Some?
      ensures OnTime(tick, timers[id].expires, timers[id].place.value)
    {
      if cascaded < 3 { HigherSpans(tick, cascaded + 1, timers[id].place.value.level); }
    }
  }

  /** A tick at which one level does not turn turns none above it. */
  lemma HigherSpans(tick: nat, level: nat, above: nat)
    requires 1 <= level < 4 && above < 4 && tick % Span(level) != 0
    ensures above >= level ==> tick % Span(above) != 0
  {
    BytesOfTick(tick);
  }

  lemma BytesOfTick(tick: nat)
    ensures tick % 0x1_0000 == 0 ==> tick % 0x100 == 0
    ensures tick % 0x100_0000 == 0 ==> tick % 0x1_0000 == 0
  {
    Multiples(tick / 0x1_0000);
    Multiples(tick / 0x100_0000);
    assert tick == tick / 0x1_0000 * 0x1_0000 + tick % 0x1_0000;
    assert tick == tick / 0x100_0000 * 0x100_0000 + tick % 0x100_0000;
  }

  lemma Multiples(k: nat)
    ensures (k * 0x1_0000) % 0x100 == 0 && (k * 0x100_0000) % 0x1_0000 == 0
  {
    assert k * 0x1_0000 == k * 0x100 * 0x100;
    assert k * 0x100_0000 == k * 0x100 * 0x1_0000;
  }

  /** Linking the next timer of a slot afresh. */
  lemma ReplacedOne(timers: map<TimerId, Timer>, done: seq<TimerId>, tmp: seq<TimerId>, tick: nat)
    requires tmp != []
    requires forall id :: id in done + tmp ==> id in timers && tick <= timers[id].expires
    requires Distinct(done + tmp)
    ensures var id := tmp[0];
            && id in timers && tick <= timers[id].expires
            && (forall x :: x in done + [id] && x in timers ==> tick <= timers[x].expires)
            && Replaced(timers, done, tick)[id] == timers[id]
            && Replaced(timers, done, tick)[id := timers[id].(place := Some(CalculateSlot(tick, timers[id].expires)))]
               == Replaced(timers, done + [id], tick)
            && done + tmp == (done + [id]) + tmp[1..]
  {
    var all := done + tmp;
    assert all[|done|] == tmp[0];
    assert forall i :: 0 <= i < |done| ==> all[i] == done[i];
  }

  /** After the slot that begins now is linked afresh, its level is on time. */
  lemma CascadedSlot(timers: map<TimerId, Timer>, q: seq<TimerId>, tick: nat, level: nat)
    requires 1 <= level < 4 && DueUpTo(timers, tick, level - 1)
    requires forall id :: id in q <==> id in timers && timers[id].place == Some(Place(level, tick / Span(level) % 0x100))
    ensures DueUpTo(Replaced(timers, q, tick), tick, level)
    ensures SameButPlaces(timers, Replaced(timers, q, tick))
  {
    var r := Replaced(timers, q, tick);
    forall id | id in r && r[id].place.Some?
      ensures var e, pl := r[id].expires, r[id].place.value;
              Due(tick, e, pl) && (pl.level <= level || tick % Span(pl.level) != 0 ==> OnTime(tick, e, pl))
    {
      if id in q {
        SlotIsOnTime(tick, r[id].expires);
      } else {
        OtherSlot(tick, r[id].expires, r[id].place.value);
      }
    }
  }

  /** Taking one more timer off slot `pl`. */
  lemma UnplacedOne(timers: map<TimerId, Timer>, batch: seq<TimerId>, id: TimerId, pl: Place)
    requires Distinct(batch) && id in timers && Unplaced(timers, batch)[id].place == Some(pl)
    ensures id !in batch && Distinct(batch + [id]) && timers[id].place == Some(pl)
    ensures Unplaced(timers, batch)[id := timers[id].(place := None)] == Unplaced(timers, batch + [id])
  {
  }

  /** Once the current slot is empty, what was taken from it is what is due. */
  lemma BatchIsDue(timers: map<TimerId, Timer>, tick: nat, batch: seq<TimerId>, pl: Place)
    requires pl == Place(0, tick % 0x100)
    requires AllOnTime(timers, tick)
    requires Distinct(batch) && forall id :: id in batch <==> id in timers && timers[id].place == Some(pl)
    ensures IsBatch(timers, tick, batch)
  {
    forall id | id in timers && timers[id].place.Some?
      ensures timers[id].place == Some(pl) <==> timers[id].expires == tick
    {
      CurrentSlot(tick, timers[id].expires, timers[id].place.value);
    }
  }

  /** How ticks are grouped into calls makes no difference: a run to tick `a` and from there a
      run to tick `b` fire together, in this order, what one run to `b` has to fire. */
  lemma TicksCompose(t0: map<TimerId, Timer>, t1: map<TimerId, Timer>, t2: map<TimerId, Timer>, a: nat, b: nat,
                     f1: seq<TimerId>, w1: seq<nat>, f2: seq<TimerId>, w2: seq<nat>)
    requires TickedTo(t0, t1, a, f1, w1) && TickedTo(t1, t2, b, f2, w2) && a <= b
    ensures TickedTo(t0, t2, b, f1 + f2, w1 + w2)
  {
    var d := Deadlines(t0);
    LaterDeadlines(d, Deadlines(t1), a, f2, w2);
    FiresThen(d, a, f1, w1, f2, w2);
    assert Remaining(Remaining(d, a), b) == Remaining(d, b);
    forall id ensures id in f1 + f2 <==> id in d && d[id] < b {
      assert id in f1 <==> id in d && d[id] < a;
      assert id in f2 <==> id in Remaining(d, a) && d[id] < b;
    }
  }

  lemma LaterDeadlines(d: map<TimerId, nat>, left: map<TimerId, nat>, a: nat, fired: seq<TimerId>, when: seq<nat>)
    requires left == Remaining(d, a) && FiredInOrder(left, fired, when)
    ensures FiredInOrder(d, fired, when) && forall id :: id in fired ==> id in d && d[id] >= a
  {
  }

  /** Two firings one after the other are one, when the deadlines of the second are later. */
  lemma FiresThen(d: map<TimerId, nat>, a: nat, f1: seq<TimerId>, w1: seq<nat>, f2: seq<TimerId>, w2: seq<nat>)
    requires FiredInOrder(d, f1, w1) && FiredInOrder(d, f2, w2)
    requires forall id :: id in f1 ==> id in d && d[id] < a
    requires forall id :: id in f2 ==> id in d && d[id] >= a
    ensures FiredInOrder(d, f1 + f2, w1 + w2)
  {
    var f, w := f1 + f2, w1 + w2;
    forall i | 0 <= i < |f| ensures f[i] in d && d[f[i]] == w[i] && (i < |f1| <==> w[i] < a) {
      if i < |f1| { assert f[i] in f1; } else { assert f[i] in f2; }
    }
    forall i, j | 0 <= i < j < |f| ensures f[i] != f[j] && w[i] <= w[j] {
      if i >= |f1| { assert f[i] == f2[i - |f1|] && f[j] == f2[j - |f1|]; }
    }
  }

  /** The bag of deadlines after a call at tick `t`: what is not due stays, and of what is due
      the periodic timers come back, one interval from now. */
  ghost function Upcoming(timers: map<TimerId, Timer>, t: nat): map<TimerId, nat> {
    map id | id in timers && timers[id].place.Some? && (timers[id].expires >= t || timers[id].periodic) ::
      if timers[id].expires >= t then timers[id].expires else t + timers[id].interval
  }

  lemma ProcessedBag(timers0: map<TimerId, Timer>, between: map<TimerId, Timer>, t: nat, fired: seq<TimerId>, when: seq<nat>)
    requires TickedTo(timers0, between, t, fired, when)
    ensures Deadlines(Rearmed(between, fired, t)) == Upcoming(timers0, t)
  {
    var d, u := Deadlines(Rearmed(between, fired, t)), Upcoming(timers0, t);
    forall id ensures (id in d <==> id in u) && (id in d ==> d[id] == u[id]) {
      if id in between { RearmedDeadlines(between, fired, t, id); }
    }
  }
}
