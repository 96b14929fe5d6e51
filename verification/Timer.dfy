/**
 * The timer queue of timer.c: a deadline-sorted list on a 32-bit millisecond clock that wraps.
 *
 * Events are named by the address of their structure. `firing` is the private list of the tick
 * that is running, if one is.
 */
module Timer {
  import opened Word32
  import opened Sequences

  type Id = int

  datatype Event = Event(tick: u32, queued: bool, active: bool, rearm: bool)

  datatype Timers = Timers(
    now: u32, interval: u32, running: bool, queue: seq<Id>, firing: seq<Id>, events: map<Id, Event>)

  /** kern_timer_before_eq: on the number circle, `a` is not after `b`. */
  predicate BeforeEq(a: u32, b: u32) {
    Signed(Wrap(b - a)) >= 0
  }

  /** kern_timer_after_eq: on the number circle, `a` is not before `b`. */
  predicate AfterEq(a: u32, b: u32) {
    Signed(Wrap(b - a)) <= 0
  }

  ghost predicate Known(t: Timers) {
    forall i :: 0 <= i < |t.queue| ==> t.queue[i] in t.events
  }

  // ----- Each locked region of timer.c -----

  function Started(t: Timers): Timers {
    t.(running := true)
  }

  /** How many events, from position `i` on, lie before the first that is not yet due. */
  function DuePrefix(t: Timers, i: nat): (k: nat)
    requires Known(t) && i <= |t.queue|
    ensures i <= k <= |t.queue|
    ensures forall j :: i <= j < k ==> BeforeEq(t.events[t.queue[j]].tick, t.now)
    ensures k < |t.queue| ==> !BeforeEq(t.events[t.queue[k]].tick, t.now)
    decreases |t.queue| - i
  {
    if i < |t.queue| && BeforeEq(t.events[t.queue[i]].tick, t.now) then DuePrefix(t, i + 1) else i
  }

  function Advanced(t: Timers): Timers {
    t.(now := Wrap(t.now as int + t.interval))
  }

  function Fire(e: Event): Event {
    e.(queued := false, active := true)
  }

  function Settle(e: Event): Event {
    Event(e.tick, false, false, false)
  }

  /** The first `k` queued events moved to the private list. */
  function Moved(t: Timers, k: nat): Timers
    requires k <= |t.queue|
  {
    var due := t.queue[..k];
    t.(queue := t.queue[k..], firing := t.firing + due,
       events := map e | e in t.events :: if e in due then Fire(t.events[e]) else t.events[e])
  }

  lemma MovedNone(t: Timers)
    ensures Moved(t, 0) == t
  {
    assert Moved(t, 0).events == t.events;
  }

  lemma MovedStep(t: Timers, k: nat)
    requires k < |t.queue| && t.queue[k] in t.events
    ensures var s, n := Moved(t, k), t.queue[k];
      && s.queue != [] && s.queue[0] == n && n in s.events && s.events[n].tick == t.events[n].tick
      && Moved(t, k + 1) ==
         s.(queue := s.queue[1..], firing := s.firing + [n], events := s.events[n := Fire(s.events[n])])
  {
    assert t.queue[..k + 1] == t.queue[..k] + [t.queue[k]];
  }

  /** kern_timer_tick up to the first unlock: advance the clock and move the due events to the private list. */
  function Collect(t: Timers): Timers
    requires Known(t)
  {
    Moved(Advanced(t), DuePrefix(Advanced(t), 0))
  }

  /** kern_timer_tick after the callbacks: empty the private list and clear its events' flags. */
  function Finish(t: Timers): Timers {
    t.(firing := [], events := map e | e in t.events :: if e in t.firing then Settle(t.events[e]) else t.events[e])
  }

  /** Where a new deadline goes: before the first queued event that is not before it. */
  function InsertAt(t: Timers, i: nat, abs: u32): (k: nat)
    requires Known(t) && i <= |t.queue|
    ensures i <= k <= |t.queue|
    ensures forall j :: i <= j < k ==> !AfterEq(t.events[t.queue[j]].tick, abs)
    ensures k < |t.queue| ==> AfterEq(t.events[t.queue[k]].tick, abs)
    decreases |t.queue| - i
  {
    if i < |t.queue| && !AfterEq(t.events[t.queue[i]].tick, abs) then InsertAt(t, i + 1, abs) else i
  }

  function CanAdd(t: Timers, ev: Id): bool
    requires ev in t.events
  {
    !t.events[ev].active && !t.events[ev].queued
  }

  /** The locked part of kern_timer_event_add, whose deadline `abs` was computed before the lock was taken. */
  function Add(t: Timers, ev: Id, abs: u32): Timers
    requires Known(t) && ev in t.events
  {
    if CanAdd(t, ev) then
      Started(t.(queue := Inserted(t.queue, InsertAt(t, 0, abs), ev),
                 events := t.events[ev := Event(abs, true, false, false)]))
    else
      t
  }

  function CanDel(t: Timers, ev: Id): bool
    requires ev in t.events
  {
    !t.events[ev].active
  }

  /** kern_timer_event_del. */
  function Del(t: Timers, ev: Id): Timers
    requires ev in t.events
  {
    if CanDel(t, ev) && t.events[ev].queued then
      t.(queue := Removed(t.queue, ev), events := t.events[ev := t.events[ev].(queued := false, active := false)])
    else
      t
  }

  /** kern_timer_idle. */
  function Idle(t: Timers): Timers {
    if t.queue == [] then t.(running := false) else t
  }

  /** kern_timer_taskcount. */
  function TaskCount(t: Timers, tasks: u32): Timers {
    if tasks > 1 then Started(t) else t
  }

  /** kern_timer_event_setup. */
  function Setup(t: Timers, ev: Id): Timers {
    t.(events := t.events[ev := Event(0, false, false, false)])
  }

  // ----- The flags say which list an event is on -----

  ghost predicate FlagsOk(t: Timers) {
    && Distinct(t.queue) && Distinct(t.firing)
    && (forall e :: e in t.queue ==> e in t.events)
    && (forall e :: e in t.firing ==> e in t.events)
    && (forall e :: e in t.events ==>
      && (t.events[e].queued <==> e in t.queue)
      && (t.events[e].active <==> e in t.firing)
      && !(t.events[e].queued && t.events[e].active))
  }

  /** As long as nobody stops the timer, a queued event can count on the ticks to come. */
  ghost predicate Inv(t: Timers) {
    FlagsOk(t) && (t.queue != [] ==> t.running)
  }

  lemma FlagsKnown(t: Timers)
    requires FlagsOk(t)
    ensures Known(t)
  {
    forall i | 0 <= i < |t.queue| ensures t.queue[i] in t.events {
      var e := t.queue[i];
      assert e in t.queue;
    }
  }

  lemma CollectFlags(t: Timers)
    requires FlagsOk(t) && t.firing == []
    ensures Known(t) && FlagsOk(Collect(t))
  {
    FlagsKnown(t);
    var k := DuePrefix(Advanced(t), 0);
    SplitDistinct(t.queue, k);
    assert Collect(t).firing == t.queue[..k];
  }

  /** After the tick the fired events carry no flag, so each can be armed again. */
  lemma TickFlags(t: Timers)
    requires FlagsOk(t) && t.firing == []
    ensures Known(t) && FlagsOk(Finish(Collect(t))) && Finish(Collect(t)).firing == []
    ensures Collect(t).firing + Collect(t).queue == t.queue
  {
    FlagsKnown(t);
    CollectFlags(t);
    var k := DuePrefix(Advanced(t), 0);
    assert t.queue == t.queue[..k] + t.queue[k..] && Collect(t).firing == t.queue[..k];
    FinishFlags(Collect(t));
  }

  lemma FinishFlags(t: Timers)
    requires FlagsOk(t)
    ensures FlagsOk(Finish(t))
  {
  }

  lemma AddFlags(t: Timers, ev: Id, abs: u32)
    requires FlagsOk(t) && ev in t.events
    ensures Known(t) && FlagsOk(Add(t, ev, abs))
  {
    FlagsKnown(t);
    if CanAdd(t, ev) {
      InsertedAt(t.queue, InsertAt(t, 0, abs), ev);
      InsertedDistinct(t.queue, InsertAt(t, 0, abs), ev);
    }
  }

  lemma DelFlags(t: Timers, ev: Id)
    requires FlagsOk(t) && ev in t.events
    ensures FlagsOk(Del(t, ev))
  {
    RemovedOne(t.queue, ev);
  }

  // ----- The wrapping comparison and the true order -----

  /** What the 32-bit clock reads when `elapsed` milliseconds of tick time have passed: it starts at -32768. */
  function Clock(elapsed: int): u32 {
    Wrap(elapsed - 32768)
  }

  /** It is set to roll over soon: after 32768 milliseconds, and then every 2^32. */
  lemma RollsOver(elapsed: int)
    ensures Clock(0) == 0xffff_8000 && (Clock(elapsed) == 0 <==> (elapsed - 32768) % TWO32 == 0)
  {
  }

  /**
   * The wrapping comparison decides the true order of two times less than a full circle apart
   * exactly when they are within half the circle of each other.
   */
  lemma AfterEqExact(x: int, y: int)
    requires -TWO32 < y - x < TWO32
    ensures (AfterEq(Clock(x), Clock(y)) <==> x >= y) <==> -TWO31 <= y - x < TWO31
  {
    ClockDifference(x, y);
    var d := y - x;
    if d >= TWO31 {
      WrapShift(d - TWO32, 1);
      SignedOfSmall(d - TWO32);
    } else if d < -TWO31 {
      WrapShift(d + TWO32, -1);
      SignedOfSmall(d + TWO32);
    } else {
      SignedOfSmall(d);
    }
  }

  lemma ClockDifference(x: int, y: int)
    ensures Wrap(Clock(y) - Clock(x)) == Wrap(y - x)
  {
    var p, q := (x - 32768) / TWO32, (y - 32768) / TWO32;
    assert Clock(y) - Clock(x) == y - x + TWO32 * (p - q);
    WrapShift(y - x, p - q);
  }

  lemma CompareTrue(x: int, y: int)
    requires -TWO31 < y - x < TWO31
    ensures AfterEq(Clock(x), Clock(y)) <==> x >= y
    ensures BeforeEq(Clock(x), Clock(y)) <==> x <= y
  {
    ClockDifference(x, y);
    SignedOfSmall(y - x);
  }

  lemma ClockAdvances(elapsed: int, ms: int)
    ensures Wrap(Clock(elapsed) + ms) == Clock(elapsed + ms)
  {
    WrapPlus(elapsed - 32768, ms);
  }
}
