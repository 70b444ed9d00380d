/** timer.js: a single-deadline countdown. `start` fixes the deadline at
    `startDate + delayMinutes` minutes, registers one one-shot timeout for it and hands the
    whole duration, in seconds, to an optional Repeater on the same loop. */
module DeadlineTimer {
  import opened Clock
  import opened Scheduling
  import opened Repeating

  datatype Option<T> = None | Some(value: T)

  /** The `countDownDate` getter. */
  function CountDownDate(startDate: int, delayMinutes: int): (r: int)
    ensures (r - startDate) % MsPerMinute == 0 && (r - startDate) / MsPerMinute == delayMinutes
    ensures delayMinutes >= 0 ==> r >= startDate
  {
    startDate + delayMinutes * MsPerMinute
  }

  /** The delay `start` passes to `timeout_add`: the distance to the deadline (to the
      deadline with its seconds dropped, when asked), or 0 once that instant has passed.
      The timeout is thus due at that instant, or at once. */
  function StartDelay(deadline: int, now: int, dropSeconds: bool): (r: int)
    ensures r >= 0
    ensures var target := if dropSeconds then DropSeconds(deadline) else deadline;
            now + r == (if target > now then target else now)
  {
    var distance := (if dropSeconds then DropSeconds(deadline) else deadline) - now;
    if distance < 0 then 0 else distance
  }

  /** A Timer and what it shares with the loop, as a value; `repeater` is None while no
      repeater is set, and otherwise holds the repeater's recorded ids. */
  datatype TimerState = TimerState(
    loop: RLoop,
    delayMinutes: int,
    timeoutID: int,
    isDropSeconds: bool,
    startDate: Option<int>,
    isSet: bool,
    repeater: Option<Ids>)

  /** A timeout source is pending exactly when `timeoutID` names it: there is at most one,
      and no repeater id can name it. */
  predicate Inv(t: TimerState)
  {
    && t.loop.Valid()
    && t.timeoutID >= 0
    && (t.timeoutID != 0 ==> t.timeoutID in t.loop.sources && t.loop.sources[t.timeoutID].action.Timeout?)
    && (forall id | id in t.loop.sources && t.loop.sources[id].action.Timeout? :: id == t.timeoutID)
    && (t.repeater.Some? ==> t.repeater.value.one < t.loop.nextId && t.repeater.value.two < t.loop.nextId)
    && (t.repeater.Some? && t.timeoutID != 0 ==> t.timeoutID != t.repeater.value.one && t.timeoutID != t.repeater.value.two)
  }

  /** The number of timeout sources pending. */
  function TimeoutsPending(l: RLoop): nat
  {
    |set id | id in l.sources && l.sources[id].action.Timeout?|
  }

  /** `clearTimeout`. */
  function ClearTimeoutSpec(t: TimerState): (r: TimerState)
    ensures t.loop.Valid() ==> && r.loop.Valid()
                               && r.loop.sources == t.loop.sources - {t.timeoutID}
                                                    - (if t.repeater.Some? then {t.repeater.value.one, t.repeater.value.two} else {})
                               && r.loop.idle == t.loop.idle && r.loop.trace == t.loop.trace
    ensures r.loop.now == t.loop.now && r.loop.nextId == t.loop.nextId
    ensures r.timeoutID == 0 && !r.isSet
    ensures r == t.(loop := r.loop, timeoutID := 0, isSet := false)
  {
    var l1 := if t.timeoutID != 0 then t.loop.Destroy(t.timeoutID) else t.loop;
    var l2 := if t.repeater.Some? then ResetChains(l1, t.repeater.value) else l1;
    t.(loop := l2, timeoutID := 0, isSet := false)
  }

  /** `reset`. */
  function ResetSpec(t: TimerState): (r: TimerState)
    ensures r == ClearTimeoutSpec(t).(delayMinutes := 0, loop := r.loop)
    ensures t.loop.Valid() ==> r.loop == ClearTimeoutSpec(t).loop
  {
    var c := ClearTimeoutSpec(t).(delayMinutes := 0);
    if c.repeater.Some? then c.(loop := ResetChains(c.loop, c.repeater.value)) else c
  }

  /** `start`. */
  function StartSpec(t: TimerState): (r: TimerState)
    requires t.loop.Valid()
    ensures r.loop.Valid() && r.isSet && r.startDate == Some(t.loop.now)
    ensures r.timeoutID == t.loop.nextId && r.loop.now == t.loop.now && r.loop.nextId > t.loop.nextId
    ensures r.delayMinutes == t.delayMinutes && r.isDropSeconds == t.isDropSeconds && r.repeater.Some? == t.repeater.Some?
  {
    var now := t.loop.now;
    var delay := StartDelay(CountDownDate(now, t.delayMinutes), now, t.isDropSeconds);
    var c := ClearTimeoutSpec(t.(startDate := Some(now)));
    var (l1, id) := c.loop.AddTimeout(delay, Timeout);
    if c.repeater.Some? then
      var (l2, ids) := StartChains(l1, c.repeater.value, t.delayMinutes * 60);
      c.(loop := l2, timeoutID := id, repeater := Some(ids), isSet := true)
    else
      c.(loop := l1, timeoutID := id, isSet := true)
  }

  /** The loop dispatches the timeout: the callback runs, then `reset`, and the closure
      returns false. */
  function FireSpec(t: TimerState, id: int): (r: TimerState)
    ensures r.delayMinutes == 0 && r.timeoutID == 0 && !r.isSet && id !in r.loop.sources
    ensures r.startDate == t.startDate && r.repeater == t.repeater && r.isDropSeconds == t.isDropSeconds
  {
    var c := ResetSpec(t.(loop := t.loop.Emit(TimeoutCalled)));
    c.(loop := c.loop.Finish(id, false))
  }

  /** `getLeftSeconds`; None stands for the TypeError of a timer never started. */
  function LeftSeconds(t: TimerState): (r: Option<int>)
    ensures r.Some? <==> t.startDate.Some?
    ensures r.Some? ==> var deadline := CountDownDate(t.startDate.value, t.delayMinutes);
                        r.value * MsPerSecond <= deadline - t.loop.now < r.value * MsPerSecond + MsPerSecond
  {
    if t.startDate.None? then None
    else Some(SecondsUntil(CountDownDate(t.startDate.value, t.delayMinutes), t.loop.now))
  }

  /** After `clearTimeout` no timeout is pending and the timer is not set; a second
      `clearTimeout` changes nothing. */
  lemma ClearTimeoutLeavesNone(t: TimerState)
    requires Inv(t)
    ensures var c := ClearTimeoutSpec(t);
            && Inv(c) && c.timeoutID == 0 && !c.isSet && TimeoutsPending(c.loop) == 0
            && ClearTimeoutSpec(c) == c
  {
    var c := ClearTimeoutSpec(t);
    var l1 := if t.timeoutID != 0 then t.loop.Destroy(t.timeoutID) else t.loop;
    assert forall id | id in l1.sources :: !l1.sources[id].action.Timeout?;
    assert forall id | id in c.loop.sources :: id in l1.sources && c.loop.sources[id] == l1.sources[id];
    assert (set id | id in c.loop.sources && c.loop.sources[id].action.Timeout?) == {};
    if t.repeater.Some? {
      ResetDestroysRecorded(l1, t.repeater.value);
    }
  }

  /** `reset` clears the timeout, zeroes the delay, and doing it twice is doing it once. */
  lemma ResetIdempotent(t: TimerState)
    requires Inv(t)
    ensures var r := ResetSpec(t);
            && Inv(r) && r.timeoutID == 0 && !r.isSet && r.delayMinutes == 0 && TimeoutsPending(r.loop) == 0
            && ResetSpec(r) == r
  {
    ClearTimeoutLeavesNone(t);
    var c := ClearTimeoutSpec(t);
    if t.repeater.Some? {
      ResetDestroysRecorded(c.loop, t.repeater.value);
      ResetDestroysRecorded(ResetChains(c.loop, t.repeater.value), t.repeater.value);
    }
    var r := ResetSpec(t);
    assert forall id | id in r.loop.sources :: id in c.loop.sources && r.loop.sources[id] == c.loop.sources[id];
    assert (set id | id in r.loop.sources && r.loop.sources[id].action.Timeout?) == {};
    ClearTimeoutLeavesNone(r);
  }

  /** `start` leaves exactly one timeout pending, recorded in `timeoutID`, due at the
      (possibly rounded) deadline or at once if that has passed, and the timer set. */
  lemma StartArmsOneTimeout(t: TimerState)
    requires Inv(t)
    ensures var r := StartSpec(t);
            var now := t.loop.now;
            var delay := StartDelay(CountDownDate(now, t.delayMinutes), now, t.isDropSeconds);
            && Inv(r) && r.isSet && r.startDate == Some(now)
            && r.timeoutID in r.loop.sources
            && r.loop.sources[r.timeoutID] == Source(now + delay, delay, Timeout)
            && TimeoutsPending(r.loop) == 1
  {
    var now := t.loop.now;
    var delay := StartDelay(CountDownDate(now, t.delayMinutes), now, t.isDropSeconds);
    var t0 := t.(startDate := Some(now));
    assert Inv(t0);
    ClearTimeoutLeavesNone(t0);
    var c := ClearTimeoutSpec(t0);
    var p := c.loop.AddTimeout(delay, Timeout);
    var l1, id := p.0, p.1;
    assert id == c.loop.nextId && l1.nextId == id + 1;
    assert NoTimeoutBut(l1, id) by {
      assert forall k | k in c.loop.sources :: !c.loop.sources[k].action.Timeout?;
    }
    var r := StartSpec(t);
    if c.repeater.Some? {
      var q := StartChains(l1, c.repeater.value, t.delayMinutes * 60);
      StartChainsAddsNoTimeout(l1, c.repeater.value, t.delayMinutes * 60);
      assert r == c.(loop := q.0, timeoutID := id, repeater := Some(q.1), isSet := true);
      assert NoTimeoutBut(q.0, id);
      assert q.1.one != id && q.1.two != id;
    } else {
      assert r == c.(loop := l1, timeoutID := id, isSet := true);
    }
    OnlyTimeoutCounts(r.loop, id);
  }

  lemma OnlyTimeoutCounts(l: RLoop, id: int)
    requires NoTimeoutBut(l, id)
    ensures TimeoutsPending(l) == 1
  {
    var ts := set k | k in l.sources && l.sources[k].action.Timeout?;
    assert id in ts;
    forall k | k in ts
      ensures k == id
    {
      assert k in l.sources && l.sources[k].action.Timeout?;
    }
    assert ts == {id};
  }

  /** `id` is the only pending timeout source. */
  predicate NoTimeoutBut(l: RLoop, id: int)
  {
    id in l.sources && l.sources[id].action.Timeout?
    && forall k | k in l.sources && l.sources[k].action.Timeout? :: k == id
  }

  /** The chains keep every pending source and add only chain links with fresh ids. */
  lemma StartChainsAddsNoTimeout(l: RLoop, ids: Ids, seconds: int)
    requires l.Valid()
    ensures var (r, rids) := StartChains(l, ids, seconds);
            && r.now == l.now && r.nextId >= l.nextId
            && (forall k | k in l.sources :: k in r.sources && r.sources[k] == l.sources[k])
            && (forall k | k in r.sources && k !in l.sources :: l.nextId <= k && r.sources[k].action.Periodic?)
            && (rids.one == ids.one || l.nextId <= rids.one < r.nextId)
            && (rids.two == ids.two || l.nextId <= rids.two < r.nextId)
  {
  }

  /** With a repeater set and a positive delay, the repeater's per-second chain, left alone,
      calls `endCallback` once, exactly `delayMinutes` minutes after `start`. The timeout is
      armed for that same instant when the seconds are kept, and for no later one when they
      are dropped. */
  lemma RepeaterEndsAtDeadline(t: TimerState)
    requires Inv(t) && t.repeater.Some? && t.delayMinutes > 0
    ensures var r := StartSpec(t);
            var now := t.loop.now;
            && r.repeater.Some? && r.repeater.value.one in r.loop.sources
            && r.loop.sources[r.repeater.value.one].action.Periodic?
            && (!t.isDropSeconds ==> r.loop.sources[r.timeoutID].due == CountDownDate(now, t.delayMinutes))
            && (t.isDropSeconds ==> r.loop.sources[r.timeoutID].due <= CountDownDate(now, t.delayMinutes))
            && var e := RunChain(r.loop, r.repeater.value, r.repeater.value.one).0;
               && e.now == CountDownDate(now, t.delayMinutes)
               && e.trace == t.loop.trace + [EndCalled]
  {
    StartArmsOneTimeout(t);
    var now := t.loop.now;
    var delay := StartDelay(CountDownDate(now, t.delayMinutes), now, t.isDropSeconds);
    var c := ClearTimeoutSpec(t.(startDate := Some(now)));
    var (l1, id) := c.loop.AddTimeout(delay, Timeout);
    SecondsChainEndsOnTime(l1, c.repeater.value, t.delayMinutes * 60);
    assert c.loop.trace == t.loop.trace by {
      var l0 := if t.timeoutID != 0 then t.loop.Destroy(t.timeoutID) else t.loop;
      ResetDestroysRecorded(l0, t.repeater.value);
    }
  }

  /** With the seconds dropped, the timeout is due at the deadline with its seconds field
      cleared, or at once if that has passed: never more than 59 s early, no later than a
      deadline still ahead, and strictly before it, by a whole number of seconds, whenever a
      positive delay ends off a whole minute. */
  lemma DropSecondsFiresEarly(t: TimerState)
    requires Inv(t) && t.isDropSeconds
    ensures var r := StartSpec(t);
            var deadline := CountDownDate(t.loop.now, t.delayMinutes);
            var due := r.loop.sources[r.timeoutID].due;
            && deadline - 59 * MsPerSecond <= due
            && (t.delayMinutes >= 0 ==> due <= deadline)
            && (t.delayMinutes > 0 ==> due == DropSeconds(deadline))
            && (t.delayMinutes > 0 && SecondsField(deadline) != 0 ==> due < deadline)
  {
    StartArmsOneTimeout(t);
    var deadline := CountDownDate(t.loop.now, t.delayMinutes);
    if t.delayMinutes > 0 && SecondsField(deadline) != 0 {
      assert DropSeconds(deadline) != deadline;
    }
  }

  /** The timeout fires while the repeater's chains may still be pending: `reset` destroys
      the sources `oneSourceId` and `twoSourceId` name, so a link still pending there, the
      last per-second link whose `notify` is `endCallback` among them, never runs. Nothing
      else pending is touched. */
  lemma FireCancelsChainLinks(t: TimerState, id: int)
    requires Inv(t) && t.repeater.Some? && id in t.loop.sources && t.loop.sources[id].action.Timeout?
    ensures var ids := t.repeater.value;
            var r := FireSpec(t, id);
            && r.loop.sources == t.loop.sources - {id, ids.one, ids.two}
            && r.loop.trace == t.loop.trace + [TimeoutCalled] && r.loop.idle == t.loop.idle
            && r.repeater == t.repeater
  {
    var ids := t.repeater.value;
    var t1 := t.(loop := t.loop.Emit(TimeoutCalled));
    assert Inv(t1);
    var c := ClearTimeoutSpec(t1);
    assert c.loop.sources == t.loop.sources - {id} - {ids.one, ids.two};
  }

  /** The timeout fires once: its callback runs exactly once, and afterwards no timeout is
      pending, the delay is 0 and the timer is not set. */
  lemma FireRunsCallbackOnce(t: TimerState, id: int)
    requires Inv(t) && id in t.loop.sources && t.loop.sources[id].action.Timeout?
    ensures var r := FireSpec(t, id);
            && Inv(r) && r.loop.trace == t.loop.trace + [TimeoutCalled]
            && TimeoutsPending(r.loop) == 0 && r.delayMinutes == 0 && !r.isSet
  {
    var t1 := t.(loop := t.loop.Emit(TimeoutCalled));
    assert Inv(t1);
    ResetIdempotent(t1);
    var c := ResetSpec(t1);
    assert c.loop.trace == t1.loop.trace by {
      var l0 := if t1.timeoutID != 0 then t1.loop.Destroy(t1.timeoutID) else t1.loop;
      if t1.repeater.Some? {
        ResetDestroysRecorded(l0, t1.repeater.value);
        ResetDestroysRecorded(ClearTimeoutSpec(t1).loop, t1.repeater.value);
      }
    }
    var r := FireSpec(t, id);
    assert forall k | k in r.loop.sources :: k in c.loop.sources && r.loop.sources[k] == c.loop.sources[k];
    assert (set k | k in r.loop.sources && r.loop.sources[k].action.Timeout?) == {};
  }

  class Timer {
    const loop: MainLoop<Action, Event>
    var delayMinutes: int
    var timeoutID: int
    var isDropSeconds: bool
    var repeater: Repeater?
    var startDate: Option<int>
    var isSet: bool

    function Snapshot(): TimerState
      reads this, loop, repeater
    {
      TimerState(loop.State(), delayMinutes, timeoutID, isDropSeconds, startDate, isSet,
                 if repeater == null then None else Some(repeater.Recorded()))
    }

    ghost predicate Valid()
      reads this, loop, repeater
    {
      (repeater != null ==> repeater.loop == loop) && Inv(Snapshot())
    }

    constructor (loop: MainLoop<Action, Event>)
      requires loop.Valid() && forall id | id in loop.sources :: !loop.sources[id].action.Timeout?
      ensures Valid() && this.loop == loop && repeater == null
      ensures Snapshot() == TimerState(loop.State(), 0, 0, false, None, false, None)
    {
      this.loop := loop;
      delayMinutes, timeoutID, isDropSeconds := 0, 0, false;
      repeater, startDate, isSet := null, None, false;
    }

    /** The `countDownDate` getter; None before the first `start`. */
    function CountDown(): (r: Option<int>)
      reads this
      ensures r.Some? <==> startDate.Some?
      ensures r.Some? ==> r.value - startDate.value == delayMinutes * MsPerMinute
    {
      if startDate.None? then None else Some(CountDownDate(startDate.value, delayMinutes))
    }

    function GetLeftSeconds(): (r: Option<int>)
      reads this, loop, repeater
      ensures r.Some? <==> startDate.Some?
      ensures r.Some? ==> r.value * MsPerSecond <= CountDownDate(startDate.value, delayMinutes) - loop.now < r.value * MsPerSecond + MsPerSecond
    {
      LeftSeconds(Snapshot())
    }

    method ClearTimeout()
      requires Valid()
      modifies this, loop, repeater
      ensures Valid() && repeater == old(repeater)
      ensures Snapshot() == ClearTimeoutSpec(old(Snapshot()))
    {
      ghost var t := Snapshot();
      ClearTimeoutLeavesNone(t);
      if timeoutID != 0 {
        loop.Destroy(timeoutID);
        timeoutID := 0;
      }
      if repeater != null {
        repeater.Reset();
      }
      isSet := false;
    }

    method Reset()
      requires Valid()
      modifies this, loop, repeater
      ensures Valid() && repeater == old(repeater)
      ensures Snapshot() == ResetSpec(old(Snapshot()))
    {
      ghost var t := Snapshot();
      ResetIdempotent(t);
      ClearTimeout();
      delayMinutes := 0;
      if repeater != null {
        repeater.Reset();
      }
    }

    method Start()
      requires Valid()
      modifies this, loop, repeater
      ensures Valid() && repeater == old(repeater)
      ensures Snapshot() == StartSpec(old(Snapshot()))
    {
      ghost var t := Snapshot();
      StartArmsOneTimeout(t);
      startDate := Some(loop.now);
      var deadline := CountDownDate(startDate.value, delayMinutes);
      var delay := StartDelay(deadline, loop.now, isDropSeconds);
      ClearTimeout();
      timeoutID := loop.TimeoutAdd(delay, Timeout);
      if repeater != null {
        repeater.CallEveryMinuteThenEverySecond(delayMinutes * 60);
      }
      isSet := true;
    }

    /** `setRepeater`: a fresh repeater on the same loop replaces the old one, whose
        pending links are left as they are. */
    method SetRepeater()
      requires Valid()
      modifies this
      ensures Valid() && repeater != null && fresh(repeater)
      ensures Snapshot() == old(Snapshot()).(repeater := Some(Ids(0, 0)))
    {
      repeater := new Repeater(loop);
    }

    /** The loop dispatches this timer's timeout. */
    method Fire(id: int)
      requires Valid() && id in loop.sources && loop.sources[id].action.Timeout?
      modifies this, loop, repeater
      ensures Valid() && repeater == old(repeater)
      ensures Snapshot() == FireSpec(old(Snapshot()), id)
    {
      ghost var t := Snapshot();
      FireRunsCallbackOnce(t, id);
      loop.Call(TimeoutCalled);
      Reset();
      loop.Finish(id, false);
    }
  }
}
