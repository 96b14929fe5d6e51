/**
 * The code of timer.c: the queue and the list of a running tick are linked through the nodes inside the
 * events, in the memory all kernel lists share.
 */
module TimerCode {
  import opened Word32
  import opened Memory
  import opened Sequences
  import opened NodeList
  import opened Timer

  class TimerQueue {
    const mem: array<u8>
    const list: StructList       // timer_list
    const due: StructList        // the list local to the tick that is running
    var now: u32
    var interval: u32
    var running: bool
    var events: map<Timer.Id, Event>   // the other fields of the events, by the address of the task they are in

    ghost function St(): Timers
      reads this, list, due
    {
      Timers(now, interval, running, list.q, due.q, events)
    }

    ghost predicate Parts()
      reads this, list, due
    {
      && list != due && list.ends != due.ends && list.mem == due.mem == mem && list.off == due.off == EVENT_NODE
      && Spaced(mem.Length, events.Keys, TASK_SIZE)
    }

    ghost predicate Valid()
      reads this, mem, list, list.ends, due, due.ends
    {
      Parts() && list.Valid() && due.Valid() && FlagsOk(St())
    }

    /** kern_timer_init and kern_timer_set_tick_interval; the clock starts at -32768. */
    constructor (mem: array<u8>, interval: u32)
      ensures this.mem == mem && Valid() && St() == Timers(Clock(0), interval, false, [], [], map[])
      ensures fresh(list) && fresh(list.ends) && fresh(due) && fresh(due.ends)
    {
      this.mem := mem;
      now := Wrap(-32768);
      this.interval := interval;
      running, events := false, map[];
      list := new StructList(mem, EVENT_NODE);
      due := new StructList(mem, EVENT_NODE);
    }

    /** After a change to one of the two lists the other still holds what it held. */
    lemma OtherKept(l: StructList, m: Mem, touched: set<Timer.Id>)
      requires Parts() && (l == list || l == due) && |m| == mem.Length && Holds(l.ends.On(m), EVENT_NODE, l.q)
      requires TouchesNodes(m, mem[..], EVENT_NODE, touched) && touched <= events.Keys && AllIn(l.q, events.Keys)
      requires forall e :: e in l.q ==> e !in touched
      ensures l.Valid()
    {
      HoldsKept(l.ends.On(m), EVENT_NODE, l.q, mem[..], EVENT_NODE, touched, events.Keys, TASK_SIZE);
    }

    /** kern_timer_event_setup. */
    method Setup(ev: Timer.Id)
      requires Valid() && ev !in list.q && ev !in due.q && Spaced(mem.Length, events.Keys + {ev}, TASK_SIZE)
      modifies this`events, mem
      ensures Valid() && St() == Timer.Setup(old(St()), ev)
      ensures TouchesNodes(old(mem[..]), mem[..], EVENT_NODE, {ev})
    {
      ghost var m := mem[..];
      events := events[ev := Event(0, false, false, false)];
      NodeInit(mem, EVENT_NODE, ev);
      OtherKept(list, m, {ev});
      OtherKept(due, m, {ev});
    }

    method StartLocked()
      requires Valid()
      modifies this`running
      ensures Valid() && St() == Started(old(St()))
    {
      if !running { running := true; }
    }

    /** kern_timer_tick up to the first unlock. */
    method Collect()
      requires Valid() && due.q == []
      modifies this, mem, list, list.ends, due, due.ends
      ensures Valid() && Timer.Known(old(St())) && St() == Timer.Collect(old(St()))
      ensures TouchesNodes(old(mem[..]), mem[..], EVENT_NODE, events.Keys)
    {
      hide Moved, FlagsOk, BeforeEq, TouchesNodes, Holds, Spaced, Members;
      ghost var m0 := mem[..];
      FlagsKnown(St());
      ghost var t := Advanced(St());
      ghost var k := 0;
      AdvancedFlags(St());
      now := Wrap(now as int + interval);
      MovedNone(t);
      NothingTouched(m0, EVENT_NODE, events.Keys);
      assert t.queue[0..] == t.queue;
      var empty := list.IsEmpty();
      while !empty
        invariant k <= |t.queue| && Valid() && St() == Moved(t, k) && now == t.now && events.Keys == t.events.Keys
        invariant DuePrefix(t, 0) == DuePrefix(t, k) && list.q == t.queue[k..] && empty == (k == |t.queue|)
        invariant TouchesNodes(m0, mem[..], EVENT_NODE, events.Keys)
        decreases |t.queue| - k
      {
        MovedStep(t, k);
        var n := list.First();
        if !BeforeEq(events[n].tick, now) { break; }
        MoveDue(n, t, k, m0);
        k := k + 1;
        empty := list.IsEmpty();
      }
    }

    /** One turn of the loop above: the head goes from the queue to the tick's own list. */
    method MoveDue(n: Timer.Id, ghost t: Timers, ghost k: nat, ghost m0: Mem)
      requires Valid() && Timer.Known(t) && FlagsOk(t) && t.firing == [] && k < |t.queue| && n == t.queue[k]
      requires n in t.events
      requires St() == Moved(t, k) && events.Keys == t.events.Keys && list.q == t.queue[k..]
      requires TouchesNodes(m0, mem[..], EVENT_NODE, events.Keys)
      modifies this`events, mem, list, list.ends, due, due.ends
      ensures Valid() && St() == Moved(t, k + 1) && events.Keys == t.events.Keys && list.q == t.queue[k + 1..]
      ensures TouchesNodes(m0, mem[..], EVENT_NODE, events.Keys)
    {
      hide Moved, FlagsOk, TouchesNodes, Holds, Spaced, Members;
      MovedStep(t, k);
      MovedFlags(t, k);
      MovedFlags(t, k + 1);
      StillApart(t, k);
      ghost var m1, q := mem[..], list.q;
      ListsApart(St());
      MembersKnown(q, events.Keys);
      list.Remove(n);
      assert Removed(q, n) == q[1..] == t.queue[k + 1..];
      ghost var m2 := mem[..];
      OtherKept(due, m1, Members(q));
      Further(m0, m1, m2, Members(q));
      events := events[n := Fire(events[n])];
      assert events.Keys == old(events.Keys);
      due.PushTail(n, events.Keys, TASK_SIZE);
      MembersKnown(due.q, events.Keys);
      OtherKept(list, m2, Members(due.q));
      Further(m0, m2, mem[..], Members(due.q));
    }

    /** kern_timer_tick after the callbacks: walk the tick's list, clearing each event's flags and unlinking it. */
    method Finish()
      requires Valid()
      modifies this`events, mem, list, list.ends, due, due.ends
      ensures Valid() && St() == Timer.Finish(old(St()))
      ensures TouchesNodes(old(mem[..]), mem[..], EVENT_NODE, events.Keys)
    {
      hide TouchesNodes, Holds, Spaced, Members, FlagsOk;
      ghost var t, m0 := St(), mem[..];
      ghost var i := 0;
      SettledNone(t);
      NothingTouched(m0, EVENT_NODE, events.Keys);
      assert t.firing[0..] == t.firing;
      var empty := due.IsEmpty();
      var e := 0;
      if !empty { e := due.First(); }
      while !empty
        invariant i <= |t.firing| && Valid() && St() == Settled(t, i) && events.Keys == t.events.Keys
        invariant empty == (i == |t.firing|) && (!empty ==> e == t.firing[i])
        invariant TouchesNodes(m0, mem[..], EVENT_NODE, events.Keys)
        decreases |t.firing| - i
      {
        SettledStep(t, i);
        var more, next := due.After(e, 0);
        SettleOne(e, t, i, m0);
        i, empty, e := i + 1, !more, next;
      }
      SettledAll(t);
    }

    /** One turn of that loop: the head event's flags are cleared and it leaves the list. */
    method SettleOne(e: Timer.Id, ghost t: Timers, ghost i: nat, ghost m0: Mem)
      requires Valid() && FlagsOk(t) && i < |t.firing| && e == t.firing[i] && St() == Settled(t, i)
      requires events.Keys == t.events.Keys && TouchesNodes(m0, mem[..], EVENT_NODE, events.Keys)
      modifies this`events, mem, due, due.ends
      ensures Valid() && St() == Settled(t, i + 1) && events.Keys == t.events.Keys
      ensures TouchesNodes(m0, mem[..], EVENT_NODE, events.Keys)
    {
      hide TouchesNodes, Holds, Spaced, Members, Settled;
      SettledStep(t, i);
      SettledFlags(t, i + 1);
      ListsApart(St());
      ghost var m1, q := mem[..], due.q;
      MembersKnown(q, events.Keys);
      events := events[e := Settle(events[e])];
      assert events.Keys == old(events.Keys);
      due.Remove(e);
      assert Removed(q, e) == q[1..];
      OtherKept(list, m1, Members(q));
      Further(m0, m1, mem[..], Members(q));
    }

    /** kern_timer_event_add, from the lock on; `abs` is the deadline computed before it. */
    method Add(ev: Timer.Id, abs: u32) returns (ok: bool)
      requires Valid() && ev in events
      modifies this, mem, list, list.ends
      ensures Timer.Known(old(St())) && Valid() && St() == Timer.Add(old(St()), ev, abs) && ok == CanAdd(old(St()), ev)
      ensures TouchesNodes(old(mem[..]), mem[..], EVENT_NODE, events.Keys)
    {
      hide TouchesNodes, Holds, Spaced, Members, FlagsOk, AfterEq;
      FlagsKnown(St());
      NothingTouched(mem[..], EVENT_NODE, events.Keys);
      if events[ev].active || events[ev].queued { return false; }
      ghost var t := St();
      AddFlags(t, ev, abs);
      var more, n, k := FindPlace(abs);
      Link(ev, abs, more, n, k);
      if !running { StartLocked(); }
      ok := true;
    }

    /** The walk to the first event that is not before `abs`. */
    method FindPlace(abs: u32) returns (more: bool, n: Timer.Id, ghost k: nat)
      requires Valid() && Timer.Known(St())
      ensures k == InsertAt(St(), 0, abs) && more == (k < |list.q|) && (more ==> n == list.q[k])
    {
      hide TouchesNodes, Holds, Spaced, FlagsOk, AfterEq;
      k := 0;
      var empty := list.IsEmpty();
      more, n := !empty, 0;
      if more { n := list.First(); }
      while more
        invariant k <= |list.q| && more == (k < |list.q|) && (more ==> n == list.q[k])
        invariant InsertAt(St(), 0, abs) == InsertAt(St(), k, abs)
        decreases |list.q| - k
      {
        if AfterEq(events[n].tick, abs) { break; }
        more, n := list.After(n, k);
        k := k + 1;
      }
    }

    /** The event goes in before `n`, or at the end, or into an empty list at the head. */
    method Link(ev: Timer.Id, abs: u32, more: bool, n: Timer.Id, ghost k: nat)
      requires Valid() && Timer.Known(St()) && ev in events && CanAdd(St(), ev) && FlagsOk(Timer.Add(St(), ev, abs))
      requires k == InsertAt(St(), 0, abs) && more == (k < |list.q|) && (more ==> n == list.q[k])
      modifies this`events, mem, list, list.ends
      ensures Valid() && Started(St()) == Timer.Add(old(St()), ev, abs) && running == old(running)
      ensures TouchesNodes(old(mem[..]), mem[..], EVENT_NODE, events.Keys)
    {
      hide TouchesNodes, Holds, Spaced, Members;
      ghost var m, q := mem[..], list.q;
      ListsApart(St());
      NotLinked(St(), ev);
      var empty := list.IsEmpty();
      if empty {
        list.PushHead(ev, events.Keys, TASK_SIZE);
      } else if !more {
        list.PushTail(ev, events.Keys, TASK_SIZE);
      } else {
        list.InsertBefore(n, k, ev, events.Keys, TASK_SIZE);
      }
      assert list.q == Inserted(q, k, ev);
      events := events[ev := Event(abs, true, false, false)];
      assert events.Keys == old(events.Keys);
      InsertedAt(q, k, ev);
      MembersKnown(list.q, events.Keys);
      OtherKept(due, m, Members(list.q));
      TouchesMore(m, mem[..], EVENT_NODE, Members(list.q), events.Keys);
      StartedFlags(St());
    }

    /** kern_timer_event_del. */
    method Del(ev: Timer.Id) returns (ok: bool)
      requires Valid() && ev in events
      modifies this`events, mem, list, list.ends
      ensures Valid() && St() == Timer.Del(old(St()), ev) && ok == CanDel(old(St()), ev)
      ensures TouchesNodes(old(mem[..]), mem[..], EVENT_NODE, events.Keys)
    {
      hide TouchesNodes, Holds, Spaced, Members;
      NothingTouched(mem[..], EVENT_NODE, events.Keys);
      if !events[ev].active && !events[ev].queued { return true; }
      if !events[ev].active && events[ev].queued {
        ghost var t, m, q := St(), mem[..], list.q;
        DelFlags(t, ev);
        ListsApart(t);
        MembersKnown(q, events.Keys);
        list.Remove(ev);
        events := events[ev := events[ev].(queued := false, active := false)];
        assert events.Keys == old(events.Keys);
        OtherKept(due, m, Members(q));
        TouchesMore(m, mem[..], EVENT_NODE, Members(q), events.Keys);
        return true;
      }
      ok := false;
    }

    /** kern_timer_idle. */
    method Idle()
      requires Valid()
      modifies this`running
      ensures Valid() && St() == Timer.Idle(old(St()))
    {
      var empty := list.IsEmpty();
      if empty { running := false; }
    }

    /** kern_timer_taskcount. */
    method TaskCount(tasks: u32)
      requires Valid()
      modifies this`running
      ensures Valid() && St() == Timer.TaskCount(old(St()), tasks)
    {
      if tasks > 1 { StartLocked(); }
    }

    lemma Further(m0: Mem, m: Mem, m': Mem, ids: set<Timer.Id>)
      requires TouchesNodes(m0, m, EVENT_NODE, events.Keys) && TouchesNodes(m, m', EVENT_NODE, ids)
      requires ids <= events.Keys
      ensures TouchesNodes(m0, m', EVENT_NODE, events.Keys)
    {
      TouchesMore(m, m', EVENT_NODE, ids, events.Keys);
      TouchesBoth(m0, m, m', EVENT_NODE, events.Keys);
    }
  }

  /** The tick's list after its first `i` events have been settled. */
  ghost function Settled(t: Timers, i: nat): Timers
    requires i <= |t.firing|
  {
    t.(firing := t.firing[i..],
       events := map e | e in t.events :: if e in t.firing[..i] then Settle(t.events[e]) else t.events[e])
  }

  lemma SettledNone(t: Timers)
    ensures Settled(t, 0) == t
  {
    assert Settled(t, 0).events == t.events;
  }

  lemma SettledAll(t: Timers)
    ensures Settled(t, |t.firing|) == Timer.Finish(t)
  {
    assert t.firing[..|t.firing|] == t.firing;
  }

  lemma SettledStep(t: Timers, i: nat)
    requires FlagsOk(t) && i < |t.firing|
    ensures var s, e := Settled(t, i), t.firing[i];
      && s.firing != [] && s.firing[0] == e && e in s.events && s.events.Keys == t.events.Keys
      && |s.firing| == |t.firing| - i && (i + 1 < |t.firing| ==> |s.firing| > 1 && s.firing[1] == t.firing[i + 1])
      && Settled(t, i + 1) == s.(firing := s.firing[1..], events := s.events[e := Settle(s.events[e])])
  {
    assert t.firing[..i + 1] == t.firing[..i] + [t.firing[i]];
    assert t.firing[i] in t.firing;
  }

  lemma SettledFlags(t: Timers, i: nat)
    requires FlagsOk(t) && i <= |t.firing|
    ensures FlagsOk(Settled(t, i))
  {
    SplitDistinct(t.firing, i);
  }

  lemma NotLinked(t: Timers, ev: Timer.Id)
    requires FlagsOk(t) && ev in t.events && CanAdd(t, ev)
    ensures ev !in t.queue && ev !in t.firing
  {
  }

  lemma StartedFlags(t: Timers)
    requires FlagsOk(Started(t))
    ensures FlagsOk(t)
  {
  }

  lemma NothingTouched(m: Mem, off: int, ids: set<Timer.Id>)
    ensures TouchesNodes(m, m, off, ids)
  {
  }

  lemma MembersKnown(q: seq<Timer.Id>, ids: set<Timer.Id>)
    requires AllIn(q, ids)
    ensures Members(q) <= ids && forall e :: e in q <==> e in Members(q)
  {
    forall e | e in Members(q) ensures e in ids { assert e in q; }
  }

  lemma AdvancedFlags(t: Timers)
    requires FlagsOk(t)
    ensures FlagsOk(Advanced(t))
  {
  }

  /** The queue and the tick's own list have no event in common, and every event on either is known. */
  lemma ListsApart(t: Timers)
    requires FlagsOk(t)
    ensures AllIn(t.queue, t.events.Keys) && AllIn(t.firing, t.events.Keys)
    ensures forall e :: e in t.queue ==> e !in t.firing
    ensures Distinct(t.queue) && Distinct(t.firing)
  {
  }

  lemma MovedFlags(t: Timers, k: nat)
    requires FlagsOk(t) && t.firing == [] && k <= |t.queue|
    ensures FlagsOk(Moved(t, k))
  {
    SplitDistinct(t.queue, k);
    assert Moved(t, k).firing == t.queue[..k];
  }

  lemma StillApart(t: Timers, k: nat)
    requires FlagsOk(t) && t.firing == [] && k < |t.queue|
    ensures forall e :: e in t.queue[k + 1..] ==> e !in Members(t.queue[..k] + [t.queue[k]])
    ensures Moved(t, k).firing == t.queue[..k] && t.queue[k] !in t.queue[..k]
    ensures AllIn(t.queue[k + 1..], t.events.Keys) && AllIn(t.queue[..k] + [t.queue[k]], t.events.Keys)
  {
    SplitDistinct(t.queue, k + 1);
    assert t.queue[..k + 1] == t.queue[..k] + [t.queue[k]];
  }
}
