/** alarm_clock.js: a countdown towards one shared end instant with three notifications:
    a half-minute progress callback, a per-second callback for the last minute and the
    expiry callback. `Timer` guards one loop registration, `CountdownTimer` starts one
    Timer per notification, `AlarmClock` accumulates the end instant and builds the
    notification list. */
module Alarm {
  import opened Clock
  import opened Scheduling

  /** Which of the three user callbacks a notification calls. */
  datatype Role = HalfMinutes | EverySecond | Expiry

  /** A `Notification`: its callback, its period `timeout` in seconds (0: run once) and the
      delay in seconds before its first run. */
  datatype Notification = Notification(role: Role, timeout: int, firstRunDelay: int)

  /** The two closures `_startTimer` registers: `delayedCallback` and `repeatedlyCallback`. */
  datatype Action = Delayed(n: Notification) | Repeating(n: Notification)

  /** A user callback called with its argument. */
  datatype Event = Called(role: Role, left: int)

  type ALoop = Loop<Action, Event>

  // ---------------------------------------------------------------------------------
  // Arithmetic

  /** `_getLeftBy(timeout)`: whole periods of `timeout` seconds left until `endDate`,
      rounded down, so negative once the end has passed; 0 for a period of 0 or less. */
  function LeftBy(endDate: int, now: int, timeout: int): (r: int)
    ensures timeout <= 0 ==> r == 0
    ensures timeout > 0 ==> r * (timeout * MsPerSecond) <= endDate - now < r * (timeout * MsPerSecond) + timeout * MsPerSecond
  {
    if timeout > 0 then (endDate - now) / (timeout * MsPerSecond) else 0
  }

  /** One period later, one period fewer is left. */
  lemma LeftByShift(endDate: int, now: int, timeout: int)
    requires timeout > 0
    ensures LeftBy(endDate, now + timeout * MsPerSecond, timeout) == LeftBy(endDate, now, timeout) - 1
  {
    var d := timeout * MsPerSecond;
    var q := LeftBy(endDate, now, timeout);
    assert (q - 1) * d == q * d - d;
    DivIsFloor(endDate - (now + d), d, q - 1);
  }

  /** `add(minutes)`: the end instant moves `minutes` later, counted from the current end
      instant while that is still ahead and from now otherwise; with `isDropSeconds` the
      result's seconds field is zeroed and its milliseconds kept. */
  function AddedEnd(endDate: int, now: int, minutes: int, dropSeconds: bool): (r: int)
    ensures var t := (if endDate > now then endDate else now) + minutes * MsPerMinute;
            && (!dropSeconds ==> r == t)
            && (dropSeconds ==> SecondsField(r) == 0 && r % MsPerSecond == t % MsPerSecond && r <= t < r + MsPerMinute)
  {
    var ms := minutes * MsPerMinute;
    var e := if endDate > now then endDate + ms else now + ms;
    if dropSeconds then DropSeconds(e) else e
  }

  /** One call of `add(minutes)`, made at instant `at`. */
  datatype AddCall = AddCall(at: int, minutes: int)

  /** The end instant after `add` is called in turn as `calls` say. */
  function AddMany(endDate: int, calls: seq<AddCall>, dropSeconds: bool): int
    decreases |calls|
  {
    if calls == [] then endDate
    else AddMany(AddedEnd(endDate, calls[0].at, calls[0].minutes, dropSeconds), calls[1..], dropSeconds)
  }

  function TotalMinutes(calls: seq<AddCall>): int
    decreases |calls|
  {
    if calls == [] then 0 else calls[0].minutes + TotalMinutes(calls[1..])
  }

  /** Every call finds the end instant it extends still ahead of it. */
  predicate EachBeforeEnd(endDate: int, calls: seq<AddCall>, dropSeconds: bool)
    decreases |calls|
  {
    calls == [] ||
    (calls[0].at < endDate && EachBeforeEnd(AddedEnd(endDate, calls[0].at, calls[0].minutes, dropSeconds), calls[1..], dropSeconds))
  }

  /** Calls made before the end add their minutes to it; an end already on a whole minute
      stays on one, so dropping the seconds changes nothing. */
  lemma {:induction false} LaterAddsAccumulate(endDate: int, calls: seq<AddCall>, dropSeconds: bool)
    requires EachBeforeEnd(endDate, calls, dropSeconds)
    requires dropSeconds ==> SecondsField(endDate) == 0
    ensures AddMany(endDate, calls, dropSeconds) == endDate + TotalMinutes(calls) * MsPerMinute
    decreases |calls|
  {
    if calls != [] {
      var c := calls[0];
      var e1 := endDate + c.minutes * MsPerMinute;
      if dropSeconds {
        DropSecondsShift(endDate, c.minutes);
        DropSecondsKeepsWholeMinute(e1);
      }
      assert AddedEnd(endDate, c.at, c.minutes, dropSeconds) == e1;
      LaterAddsAccumulate(e1, calls[1..], dropSeconds);
    }
  }

  /** A first `add`, at any instant, followed by `add`s each made before the end they
      extend: the end instant is the later of the old end and the first call's instant,
      plus all the minutes, with the seconds dropped once when asked. */
  lemma AddAccumulates(endDate: int, first: AddCall, later: seq<AddCall>, dropSeconds: bool)
    requires EachBeforeEnd(AddedEnd(endDate, first.at, first.minutes, dropSeconds), later, dropSeconds)
    ensures var start := if endDate > first.at then endDate else first.at;
            var total := start + TotalMinutes([first] + later) * MsPerMinute;
            AddMany(endDate, [first] + later, dropSeconds) == if dropSeconds then DropSeconds(total) else total
  {
    var start := if endDate > first.at then endDate else first.at;
    var calls := [first] + later;
    assert calls[0] == first && calls[1..] == later;
    var e1 := AddedEnd(endDate, first.at, first.minutes, dropSeconds);
    LaterAddsAccumulate(e1, later, dropSeconds);
    if dropSeconds {
      DropSecondsShift(start + first.minutes * MsPerMinute, TotalMinutes(later));
    }
  }

  /** The delay before the first run of the per-second notification. */
  function SecondsDelay(leftSeconds: int): int
  {
    if leftSeconds < 60 then 0 else leftSeconds - 60
  }

  /** The per-second notification first runs exactly 60 seconds before `now + left` seconds,
      an instant up to 999 ms before the end, or at once with under a minute left; either way
      its first call sees min(left, 60) seconds left. */
  lemma SecondsPhaseIsLastMinute(endDate: int, now: int)
    ensures var left := SecondsUntil(endDate, now);
            var first := now + SecondsDelay(left) * MsPerSecond;
            && (left >= 60 ==> first + 60 * MsPerSecond == now + left * MsPerSecond)
            && (left < 60 ==> first == now)
            && now + left * MsPerSecond <= endDate < now + left * MsPerSecond + MsPerSecond
            && LeftBy(endDate, first, 1) == (if left < 60 then left else 60)
  {
    var left := SecondsUntil(endDate, now);
    var first := now + SecondsDelay(left) * MsPerSecond;
    DivIsFloor(endDate - first, 1000, if left < 60 then left else 60);
  }

  // ---------------------------------------------------------------------------------
  // Starting and firing notifications, on loop values

  /** A notification whose first run is due now. */
  predicate Immediate(n: Notification)
  {
    n.firstRunDelay <= 0
  }

  /** Starting it clears `isRunning`: it is the run-once notification, due now. */
  predicate RunsOnce(n: Notification)
  {
    Immediate(n) && n.timeout == 0
  }

  /** Starting it registers a source, so `timer.start` is reached and returns true. */
  predicate Registers(n: Notification, endDate: int, now: int)
  {
    n.firstRunDelay > 0 || LeftBy(endDate, now, n.timeout) > 1
  }

  /** `_startTimer(notification)` on loop values: the loop afterwards and what it returns. */
  function StartOne(l: ALoop, n: Notification, endDate: int): (r: (ALoop, bool))
    requires l.Valid()
    ensures r.0.Valid() && r.0.now == l.now && r.0.idle == l.idle
  {
    if n.firstRunDelay > 0 then
      (l.AddTimeout(n.firstRunDelay * MsPerSecond, Delayed(n)).0, true)
    else
      var l1 := l.Emit(Called(n.role, LeftBy(endDate, l.now, n.timeout)));
      if LeftBy(endDate, l1.now, n.timeout) > 1 then
        (l1.AddTimeout(n.timeout * MsPerSecond, Repeating(n)).0, true)
      else
        (l1, false)
  }

  /** The `forEach` of `CountdownTimer.start`: every notification in order, the results
      or-ed. */
  function StartAll(l: ALoop, ns: seq<Notification>, endDate: int): (r: (ALoop, bool))
    requires l.Valid()
    ensures r.0.Valid() && r.0.now == l.now && r.0.idle == l.idle
    decreases |ns|
  {
    if ns == [] then
      (l, false)
    else
      var p := StartAll(l, ns[..|ns| - 1], endDate);
      var q := StartOne(p.0, ns[|ns| - 1], endDate);
      (q.0, p.1 || q.1)
  }

  /** The callbacks made synchronously while starting `ns`: one per notification due now, in
      order, each with its count of periods left. */
  function SyncCalls(ns: seq<Notification>, endDate: int, now: int): seq<Event>
  {
    if ns == [] then []
    else
      var n := ns[|ns| - 1];
      SyncCalls(ns[..|ns| - 1], endDate, now) + (if Immediate(n) then [Called(n.role, LeftBy(endDate, now, n.timeout))] else [])
  }

  /** How many of `ns` register a source. */
  function CountRegistering(ns: seq<Notification>, endDate: int, now: int): (c: nat)
    ensures c <= |ns|
  {
    if ns == [] then 0
    else CountRegistering(ns[..|ns| - 1], endDate, now) + (if Registers(ns[|ns| - 1], endDate, now) then 1 else 0)
  }

  predicate AnyRunsOnce(ns: seq<Notification>)
  {
    exists i | 0 <= i < |ns| :: RunsOnce(ns[i])
  }

  lemma StartAllExtend(l: ALoop, ns: seq<Notification>, i: int, endDate: int)
    requires l.Valid() && 0 <= i < |ns|
    ensures var p := StartAll(l, ns[..i], endDate);
            var q := StartOne(p.0, ns[i], endDate);
            StartAll(l, ns[..i + 1], endDate) == (q.0, p.1 || q.1)
  {
    assert ns[..i + 1][..i] == ns[..i];
    assert ns[..i + 1][i] == ns[i];
  }

  lemma AnyRunsOnceExtend(ns: seq<Notification>, i: int)
    requires 0 <= i < |ns|
    ensures AnyRunsOnce(ns[..i + 1]) <==> AnyRunsOnce(ns[..i]) || RunsOnce(ns[i])
  {
    assert ns[..i + 1][i] == ns[i];
    assert forall k | 0 <= k < i :: ns[..i + 1][k] == ns[..i][k];
  }

  /** Starting one notification: it is called synchronously exactly when it is due now, it
      registers exactly one source (a fresh id) exactly when `Registers` holds, and the
      result reports that registration. Nothing is deferred. */
  lemma StartOneEffect(l: ALoop, n: Notification, endDate: int)
    requires l.Valid()
    ensures var r := StartOne(l, n, endDate);
            && r.1 == Registers(n, endDate, l.now)
            && r.0.trace == l.trace + (if Immediate(n) then [Called(n.role, LeftBy(endDate, l.now, n.timeout))] else [])
            && r.0.nextId == l.nextId + (if r.1 then 1 else 0)
            && (r.1 ==> r.0.sources == l.sources[l.nextId := r.0.sources[l.nextId]])
            && (r.1 && n.firstRunDelay > 0 ==>
                  r.0.sources[l.nextId] == Source(l.now + n.firstRunDelay * MsPerSecond, n.firstRunDelay * MsPerSecond, Delayed(n)))
            && (r.1 && n.firstRunDelay <= 0 ==>
                  r.0.sources[l.nextId] == Source(l.now + n.timeout * MsPerSecond, n.timeout * MsPerSecond, Repeating(n)))
            && (!r.1 ==> r.0.sources == l.sources)
  {
  }

  /** Starting a list of notifications: the result is true exactly when one of them
      registers a source; the synchronous callbacks are `SyncCalls`; the pending sources are
      the old ones plus one fresh id per registering notification. */
  lemma {:induction false} StartAllEffect(l: ALoop, ns: seq<Notification>, endDate: int)
    requires l.Valid()
    ensures var r := StartAll(l, ns, endDate);
            && (r.1 <==> exists i | 0 <= i < |ns| :: Registers(ns[i], endDate, l.now))
            && r.0.trace == l.trace + SyncCalls(ns, endDate, l.now)
            && r.0.nextId == l.nextId + CountRegistering(ns, endDate, l.now)
            && (forall id | id in l.sources :: id in r.0.sources && r.0.sources[id] == l.sources[id])
            && (forall id | id in r.0.sources :: id in l.sources || l.nextId <= id < r.0.nextId)
            && (forall id | l.nextId <= id < r.0.nextId :: id in r.0.sources)
    decreases |ns|
  {
    if ns != [] {
      var init := ns[..|ns| - 1];
      var n := ns[|ns| - 1];
      StartAllEffect(l, init, endDate);
      var p := StartAll(l, init, endDate);
      StartOneEffect(p.0, n, endDate);
      var q := StartOne(p.0, n, endDate);
      assert forall i | 0 <= i < |init| :: init[i] == ns[i];
      if q.1 {
        assert Registers(ns[|ns| - 1], endDate, l.now);
      }
      if exists i | 0 <= i < |ns| :: Registers(ns[i], endDate, l.now) {
        var i :| 0 <= i < |ns| && Registers(ns[i], endDate, l.now);
        if i < |init| {
          assert Registers(init[i], endDate, l.now);
        }
      }
    }
  }

  /** The loop dispatches one of the countdown's sources; the flag says whether the callback
      cleared `isRunning`. `delayedCallback` zeroes the first-run delay, re-enters
      `_startTimer` and returns false; `repeatedlyCallback` defers one call and repeats while
      a period is left, and otherwise clears `isRunning` and stops. */
  function FireOne(l: ALoop, endDate: int, id: int): (r: (ALoop, bool))
    requires l.Valid() && id in l.sources
    ensures r.0.Valid() && r.0.now == l.now && r.0.nextId >= l.nextId
    ensures r.0.sources - {id, l.nextId} == l.sources - {id}
    ensures l.sources[id].action.Delayed? ==> id !in r.0.sources
    ensures l.sources[id].action.Repeating? ==> && r.0.trace == l.trace && r.0.nextId == l.nextId
                                                && (r.1 <==> id !in r.0.sources)
                                                && (!r.1 ==> r.0.sources[id] == l.sources[id].(due := l.now + l.sources[id].interval))
  {
    match l.sources[id].action
    case Delayed(n) =>
      var n0 := n.(firstRunDelay := 0);
      (StartOne(l, n0, endDate).0.Finish(id, false), RunsOnce(n0))
    case Repeating(n) =>
      var left := LeftBy(endDate, l.now, n.timeout);
      if left > 0 then
        (l.Enqueue(Called(n.role, left)).Finish(id, true), false)
      else
        (l.Finish(id, false), true)
  }

  /** A delayed first run fires once: its source is gone afterwards, and the notification
      is started afresh at that instant as one due now. */
  lemma DelayedRunsOnce(l: ALoop, endDate: int, id: int)
    requires l.Valid() && id in l.sources && l.sources[id].action.Delayed?
    ensures var n := l.sources[id].action.n;
            var r := FireOne(l, endDate, id);
            && id !in r.0.sources
            && r.0.trace == l.trace + [Called(n.role, LeftBy(endDate, l.now, n.timeout))]
            && r.0.idle == l.idle
            && (r.1 <==> n.timeout == 0)
            && var left := LeftBy(endDate, l.now, n.timeout);
               && r.0.nextId == l.nextId + (if left > 1 then 1 else 0)
               && r.0.sources == if left > 1
                                 then (l.sources - {id})[l.nextId := Source(l.now + n.timeout * MsPerSecond, n.timeout * MsPerSecond, Repeating(n.(firstRunDelay := 0)))]
                                 else l.sources - {id}
  {
    var n := l.sources[id].action.n;
    StartOneEffect(l, n.(firstRunDelay := 0), endDate);
  }

  /** A delayed first run of a notification with a positive period, dispatched on time and
      then left alone: it is called once with the k periods left at that instant; it repeats
      only if k > 1, and then the ticks call it with k - 1, ..., 1, one period apart, before
      it stops, clears `isRunning` and leaves no source of its own, k periods after the
      delayed run. */
  lemma DelayedCountsDown(l: ALoop, endDate: int, id: int)
    requires l.Valid() && id in l.sources && l.sources[id].action.Delayed?
    requires l.sources[id].action.n.timeout > 0 && l.now <= l.sources[id].due
    ensures var s := l.sources[id];
            var n := s.action.n;
            var k := LeftBy(endDate, s.due, n.timeout);
            var f := FireOne(l.AdvanceTo(s.due), endDate, id);
            && f.0.trace == l.trace + [Called(n.role, k)]
            && (k > 1 <==> IsRepeating(f.0, l.nextId))
            && (k <= 1 ==> f.0.sources == l.sources - {id} && f.0.idle == l.idle)
            && (k > 1 ==> var g := RunRepeating(f.0, endDate, l.nextId);
                          && g.1 && g.0.trace == f.0.trace
                          && g.0.idle == l.idle + TickCalls(n.role, k - 1)
                          && g.0.sources == l.sources - {id}
                          && g.0.now == s.due + k * (n.timeout * MsPerSecond))
  {
    var s := l.sources[id];
    var n := s.action.n;
    var d := n.timeout * MsPerSecond;
    var k := LeftBy(endDate, s.due, n.timeout);
    var l0 := l.AdvanceTo(s.due);
    assert l0 == l.(now := s.due);
    DelayedRunsOnce(l0, endDate, id);
    var f := FireOne(l0, endDate, id);
    if k > 1 {
      assert f.0.sources[l.nextId] == Source(s.due + d, d, Repeating(n.(firstRunDelay := 0)));
      assert IsRepeating(f.0, l.nextId);
      assert NextRun(f.0, l.nextId) == s.due + d;
      LeftByShift(endDate, s.due, n.timeout);
      RunRepeatingEffect(f.0, endDate, l.nextId);
      OneMorePeriod(k, d);
      assert (l.sources - {id})[l.nextId := f.0.sources[l.nextId]] - {l.nextId} == l.sources - {id};
    } else {
      assert l.nextId !in f.0.sources;
    }
  }

  /** The per-second notification's delayed first run comes when 60 whole seconds are left
      (as `SecondsPhaseIsLastMinute` shows `AlarmClock.start` arranges): left alone, it is
      called with 60 and then with 59, ..., 1, one second apart, and stops 60 s after its
      first run. */
  lemma SecondsPhaseCountsDown(l: ALoop, endDate: int, id: int)
    requires l.Valid() && id in l.sources && l.now <= l.sources[id].due
    requires l.sources[id].action.Delayed? && l.sources[id].action.n.role == EverySecond && l.sources[id].action.n.timeout == 1
    requires 60 * MsPerSecond <= endDate - l.sources[id].due < 61 * MsPerSecond
    ensures var s := l.sources[id];
            var f := FireOne(l.AdvanceTo(s.due), endDate, id);
            && f.0.trace == l.trace + [Called(EverySecond, 60)]
            && IsRepeating(f.0, l.nextId)
            && var g := RunRepeating(f.0, endDate, l.nextId);
               && g.1 && g.0.trace == l.trace + [Called(EverySecond, 60)]
               && g.0.idle == l.idle + TickCalls(EverySecond, 59)
               && g.0.sources == l.sources - {id}
               && g.0.now == s.due + 60 * MsPerSecond
  {
    var s := l.sources[id];
    DivIsFloor(endDate - s.due, 1000, 60);
    assert LeftBy(endDate, s.due, 1) == 60;
    DelayedCountsDown(l, endDate, id);
  }

  /** A repeating source of a positive period, as `_startTimer` registers it. */
  predicate IsRepeating(l: ALoop, id: int)
  {
    && id in l.sources && l.sources[id].action.Repeating?
    && l.sources[id].action.n.timeout > 0
    && l.sources[id].interval == l.sources[id].action.n.timeout * MsPerSecond
  }

  /** When the loop next dispatches the source. */
  function NextRun(l: ALoop, id: int): int
    requires id in l.sources
  {
    if l.sources[id].due > l.now then l.sources[id].due else l.now
  }

  function Remaining(l: ALoop, endDate: int, id: int): nat
    requires IsRepeating(l, id)
  {
    var left := LeftBy(endDate, NextRun(l, id), l.sources[id].action.n.timeout);
    if left > 0 then left else 0
  }

  /** A repeating source left alone: the loop dispatches it on time until it stops. */
  function RunRepeating(l: ALoop, endDate: int, id: int): (r: (ALoop, bool))
    requires l.Valid() && IsRepeating(l, id)
    ensures r.0.Valid() && r.1 && id !in r.0.sources
    ensures r.0.nextId == l.nextId && r.0.now >= l.now
    decreases Remaining(l, endDate, id)
  {
    var s := l.sources[id];
    var l0 := l.AdvanceTo(s.due);
    var f := FireOne(l0, endDate, id);
    if LeftBy(endDate, l0.now, s.action.n.timeout) > 0 then
      assert f.0.sources == l.sources[id := s.(due := l0.now + s.interval)];
      LeftByShift(endDate, l0.now, s.action.n.timeout);
      RunRepeating(f.0, endDate, id)
    else
      f
  }

  /** The calls made by the successive ticks: k, k - 1, ..., 1. */
  function TickCalls(role: Role, k: int): (r: seq<Event>)
    ensures |r| == if k > 0 then k else 0
    ensures forall i | 0 <= i < |r| :: r[i] == Called(role, k - i)
  {
    if k <= 0 then [] else [Called(role, k)] + TickCalls(role, k - 1)
  }

  /** One tick of a repeating source with periods left: one deferred call, and the source
      re-armed one period after the tick. */
  lemma TickFires(l: ALoop, endDate: int, id: int)
    requires l.Valid() && IsRepeating(l, id)
    requires LeftBy(endDate, NextRun(l, id), l.sources[id].action.n.timeout) > 0
    ensures var s := l.sources[id];
            var start := NextRun(l, id);
            var left := LeftBy(endDate, start, s.action.n.timeout);
            var l1 := Loop(start, l.sources[id := s.(due := start + s.interval)], l.nextId, l.idle + [Called(s.action.n.role, left)], l.trace);
            && IsRepeating(l1, id) && NextRun(l1, id) == start + s.interval
            && RunRepeating(l, endDate, id) == RunRepeating(l1, endDate, id)
  {
    var s := l.sources[id];
    var l0 := l.AdvanceTo(s.due);
    var left := LeftBy(endDate, l0.now, s.action.n.timeout);
    var l1 := Loop(l0.now, l.sources[id := s.(due := l0.now + s.interval)], l.nextId, l.idle + [Called(s.action.n.role, left)], l.trace);
    assert FireOne(l0, endDate, id) == (l1, false);
  }

  /** The tick that finds no period left: no call, running cleared, the source dropped. */
  lemma LastTickFires(l: ALoop, endDate: int, id: int)
    requires l.Valid() && IsRepeating(l, id)
    requires LeftBy(endDate, NextRun(l, id), l.sources[id].action.n.timeout) <= 0
    ensures RunRepeating(l, endDate, id) == (Loop(NextRun(l, id), l.sources - {id}, l.nextId, l.idle, l.trace), true)
  {
    var l0 := l.AdvanceTo(l.sources[id].due);
    assert FireOne(l0, endDate, id) == (l0.(sources := l.sources - {id}), true);
  }

  /** A repeating source defers one call per tick, with the periods left counting down to
      1, one period apart, then clears `isRunning` and is dropped. */
  lemma {:induction false} RunRepeatingEffect(l: ALoop, endDate: int, id: int)
    requires l.Valid() && IsRepeating(l, id)
    ensures var s := l.sources[id];
            var start := NextRun(l, id);
            var left := LeftBy(endDate, start, s.action.n.timeout);
            var k := if left > 0 then left else 0;
            var r := RunRepeating(l, endDate, id);
            && r.1
            && r.0.idle == l.idle + TickCalls(s.action.n.role, left)
            && r.0.trace == l.trace && r.0.nextId == l.nextId
            && r.0.sources == l.sources - {id}
            && r.0.now == start + k * s.interval
    decreases Remaining(l, endDate, id)
  {
    var s := l.sources[id];
    var n := s.action.n;
    var start := NextRun(l, id);
    var left := LeftBy(endDate, start, n.timeout);
    if left > 0 {
      TickFires(l, endDate, id);
      var l1 := Loop(start, l.sources[id := s.(due := start + s.interval)], l.nextId, l.idle + [Called(n.role, left)], l.trace);
      LeftByShift(endDate, start, n.timeout);
      assert l1.sources[id] == s.(due := start + s.interval);
      assert NextRun(l1, id) == start + n.timeout * MsPerSecond;
      RunRepeatingEffect(l1, endDate, id);
      var r := RunRepeating(l1, endDate, id);
      assert r.0.idle == l.idle + [Called(n.role, left)] + TickCalls(n.role, left - 1);
      assert TickCalls(n.role, left) == [Called(n.role, left)] + TickCalls(n.role, left - 1);
      OneMorePeriod(left, s.interval);
      assert l1.sources - {id} == l.sources - {id};
    } else {
      LastTickFires(l, endDate, id);
    }
  }

  /** A notification with a positive period that is due now is called at once with the
      periods left, L; it repeats only if L > 1, and then the ticks call it with L - 1, ...,
      1, one period apart, before it stops and clears `isRunning` L periods after the
      start. */
  lemma ImmediateCountsDown(l: ALoop, n: Notification, endDate: int)
    requires l.Valid() && Immediate(n) && n.timeout > 0
    ensures var left := LeftBy(endDate, l.now, n.timeout);
            var r := StartOne(l, n, endDate);
            && r.0.trace == l.trace + [Called(n.role, left)]
            && (r.1 <==> left > 1)
            && (!r.1 ==> r.0.sources == l.sources)
            && (r.1 ==> && IsRepeating(r.0, l.nextId)
                        && var f := RunRepeating(r.0, endDate, l.nextId);
                           && f.1
                           && f.0.idle == l.idle + TickCalls(n.role, left - 1)
                           && f.0.sources == l.sources
                           && f.0.now == l.now + left * (n.timeout * MsPerSecond))
  {
    var left := LeftBy(endDate, l.now, n.timeout);
    var T := n.timeout * MsPerSecond;
    var l1 := l.Emit(Called(n.role, left));
    if left > 1 {
      var r0 := Loop(l.now, l.sources[l.nextId := Source(l.now + T, T, Repeating(n))], l.nextId + 1, l.idle, l1.trace);
      assert StartOne(l, n, endDate) == (r0, true);
      assert IsRepeating(r0, l.nextId) && NextRun(r0, l.nextId) == l.now + T;
      RunRepeatingEffect(r0, endDate, l.nextId);
      LeftByShift(endDate, l.now, n.timeout);
      assert r0.sources - {l.nextId} == l.sources;
      assert (left - 1) * T + T == left * T;
    } else {
      assert StartOne(l, n, endDate) == (l1, false);
    }
  }

  /** The expiry notification is called exactly once, with 0, and clears `isRunning`: at
      once when its delay is not positive, or else from its single delayed source whenever
      the loop dispatches it, which registers nothing further. */
  lemma ExpiryFiresOnce(l: ALoop, endDate: int, delay: int, t: int)
    requires l.Valid()
    ensures var n := Notification(Expiry, 0, delay);
            var r := StartOne(l, n, endDate);
            if delay > 0 then
              && r.1 && r.0.trace == l.trace
              && r.0.sources == l.sources[l.nextId := Source(l.now + delay * MsPerSecond, delay * MsPerSecond, Delayed(n))]
              && var f := FireOne(r.0.AdvanceTo(t), endDate, l.nextId);
                 && f.1 && f.0.trace == l.trace + [Called(Expiry, 0)]
                 && f.0.sources == l.sources && f.0.nextId == r.0.nextId && f.0.idle == l.idle
            else
              && !r.1 && RunsOnce(n) && r.0.trace == l.trace + [Called(Expiry, 0)] && r.0.sources == l.sources
  {
    var n := Notification(Expiry, 0, delay);
    var r := StartOne(l, n, endDate);
    if delay > 0 {
      var l1 := r.0.AdvanceTo(t);
      assert l1.sources[l.nextId].action == Delayed(n);
      assert StartOne(l1, n.(firstRunDelay := 0), endDate).0 == l1.(trace := l.trace + [Called(Expiry, 0)]);
      assert l1.sources - {l.nextId} == l.sources;
    }
  }

  /** With at least a minute left the half-minute notification stops repeating, and so
      clears `isRunning`, at the last whole half-minute before the end: up to 30 s before
      the expiry. With 119 s left it stops after 90 s, 29 s early. */
  lemma HalfMinutesStopsEarly(l: ALoop, endDate: int)
    requires l.Valid() && endDate - l.now >= 60 * MsPerSecond
    ensures var n := Notification(HalfMinutes, 30, 0);
            var r := StartOne(l, n, endDate);
            && r.1 && IsRepeating(r.0, l.nextId)
            && var f := RunRepeating(r.0, endDate, l.nextId);
               && f.1 && f.0.now <= endDate < f.0.now + 30 * MsPerSecond
               && (endDate - l.now == 119 * MsPerSecond ==> f.0.now == l.now + 90 * MsPerSecond)
  {
    var n := Notification(HalfMinutes, 30, 0);
    ImmediateCountsDown(l, n, endDate);
    if endDate - l.now == 119 * MsPerSecond {
      DivIsFloor(119000, 30000, 3);
    }
  }

  /** With under a minute left the half-minute notification is called once and never
      repeats. */
  lemma HalfMinutesSuppressed(l: ALoop, endDate: int)
    requires l.Valid() && endDate - l.now < 60 * MsPerSecond
    ensures var n := Notification(HalfMinutes, 30, 0);
            StartOne(l, n, endDate) == (l.Emit(Called(HalfMinutes, LeftBy(endDate, l.now, 30))), false)
  {
  }

  // ---------------------------------------------------------------------------------
  // AlarmClock.start on values

  /** The notification list `AlarmClock.start` gives the countdown, with `left` whole
      seconds to go. */
  function Schedule(left: int, isOnlyAlarm: bool, half: Notification, seconds: Notification, end: Notification): (r: seq<Notification>)
    ensures |r| == (if isOnlyAlarm then 1 else 3)
    ensures r[0] == end.(firstRunDelay := left)
    ensures !isOnlyAlarm ==> && r[1] == half
                             && r[2].role == seconds.role && r[2].timeout == seconds.timeout
                             && r[2].firstRunDelay >= 0
                             && (left >= 60 ==> r[2].firstRunDelay + 60 == r[0].firstRunDelay)
                             && (left < 60 ==> r[2].firstRunDelay == 0)
  {
    if isOnlyAlarm then [end.(firstRunDelay := left)]
    else [end.(firstRunDelay := left), half, seconds.(firstRunDelay := SecondsDelay(left))]
  }

  /** After `AlarmClock.start` the only pending sources are fresh ones from this start, at
      most one per notification of the list. */
  lemma StartIsClean(l: ALoop, left: int, isOnlyAlarm: bool, half: Notification, seconds: Notification, end: Notification, endDate: int)
    requires l.Valid()
    ensures var ns := Schedule(left, isOnlyAlarm, half, seconds, end);
            var r := StartAll(l.(sources := map[]), ns, endDate).0;
            && |ns| == (if isOnlyAlarm then 1 else 3)
            && (forall id | id in r.sources :: l.nextId <= id < r.nextId)
            && (forall id | l.nextId <= id < r.nextId :: id in r.sources)
            && r.nextId - l.nextId <= |ns|
  {
    var ns := Schedule(left, isOnlyAlarm, half, seconds, end);
    StartAllEffect(l.(sources := map[]), ns, endDate);
  }

  /** `add(2); start()` with per-second and half-minute notifications: the half-minute
      callback is called at once with 4; three sources are pending: the expiry in 120 s, the
      half-minute ticks every 30 s and the per-second phase in 60 s. */
  lemma TwoMinuteScenario(l: ALoop)
    requires l.Valid() && l.sources == map[]
    ensures var half := Notification(HalfMinutes, 30, 0);
            var end := Notification(Expiry, 0, 120);
            var secs := Notification(EverySecond, 1, 60);
            var ns := Schedule(120, false, half, Notification(EverySecond, 1, 0), Notification(Expiry, 0, 0));
            var r := StartAll(l, ns, l.now + 120 * MsPerSecond);
            && ns == [end, half, secs]
            && r.1
            && r.0.trace == l.trace + [Called(HalfMinutes, 4)]
            && r.0.sources == map[l.nextId := Source(l.now + 120000, 120000, Delayed(end)),
                                  l.nextId + 1 := Source(l.now + 30000, 30000, Repeating(half)),
                                  l.nextId + 2 := Source(l.now + 60000, 60000, Delayed(secs))]
  {
    var half := Notification(HalfMinutes, 30, 0);
    var end := Notification(Expiry, 0, 120);
    var secs := Notification(EverySecond, 1, 60);
    var ns := [end, half, secs];
    var e := l.now + 120 * MsPerSecond;
    assert LeftBy(e, l.now, 30) == 4 by {
      DivIsFloor(120000, 30000, 4);
    }
    assert ns[..2][..1] == [end] && ns[..2] == [end, half] && ns[..1] == [end];
    var p1 := StartAll(l, [end], e);
    assert [end][..0] == [];
    assert StartAll(l, [], e).0 == l;
    assert StartOne(l, end, e).0 == l.AddTimeout(120000, Delayed(end)).0;
    assert p1.0 == l.AddTimeout(120000, Delayed(end)).0;
    var p2 := StartAll(l, [end, half], e);
    assert p2.0 == p1.0.Emit(Called(HalfMinutes, 4)).AddTimeout(30000, Repeating(half)).0;
  }

  // ---------------------------------------------------------------------------------
  // The objects

  /** `Timer`: at most one registration, recorded in `id` (0: none). */
  class Timer {
    var id: int

    constructor ()
      ensures id == 0
    {
      id := 0;
    }

    /** Refuses when a registration is recorded; otherwise registers exactly one source for
        `seconds` and records its id. */
    method Start(loop: MainLoop<Action, Event>, action: Action, seconds: int) returns (ok: bool)
      requires loop.Valid()
      modifies this, loop
      ensures loop.Valid()
      ensures ok <==> old(id) <= 0
      ensures !ok ==> id == old(id) && loop.State() == old(loop.State())
      ensures ok ==> (loop.State(), id) == old(loop.State()).AddTimeout(seconds * MsPerSecond, action)
    {
      if id > 0 {
        return false;
      }
      id := loop.TimeoutAdd(seconds * MsPerSecond, action);
      return true;
    }

    /** Destroys the recorded source if it is still pending and then forgets it; a recorded
        id whose source is gone is kept. */
    method Reset(loop: MainLoop<Action, Event>)
      modifies this, loop
      ensures old(id) > 0 && old(id) in old(loop.sources) ==> id == 0 && loop.State() == old(loop.State()).Destroy(old(id))
      ensures !(old(id) > 0 && old(id) in old(loop.sources)) ==> id == old(id) && loop.State() == old(loop.State())
    {
      if id > 0 {
        if loop.FindSource(id) {
          loop.Destroy(id);
          id := 0;
        }
      }
    }
  }

  class CountdownTimer {
    const loop: MainLoop<Action, Event>
    var timers: seq<Timer>
    var notifications: seq<Notification>
    var endDate: int
    var isRunning: bool

    /** The loop's pending sources are all owned by timers of this countdown, which are
        distinct objects. */
    ghost predicate Valid()
      reads this, loop, timers
    {
      && loop.Valid()
      && (forall i, j | 0 <= i < j < |timers| :: timers[i] != timers[j])
      && (forall id | id in loop.sources :: exists i | 0 <= i < |timers| :: timers[i].id == id)
    }

    constructor (loop: MainLoop<Action, Event>)
      requires loop.Valid() && loop.sources == map[]
      ensures Valid() && this.loop == loop
      ensures timers == [] && notifications == [] && endDate == loop.now && !isRunning
    {
      this.loop := loop;
      timers, notifications := [], [];
      endDate, isRunning := loop.now, false;
    }

    /** `_startTimer`: one new Timer per call, and the loop goes as `StartOne` says. */
    method StartTimer(n: Notification) returns (ok: bool)
      requires Valid()
      modifies this`timers, this`isRunning, loop
      ensures Valid()
      ensures (loop.State(), ok) == StartOne(old(loop.State()), n, endDate)
      ensures isRunning == (old(isRunning) && !RunsOnce(n))
      ensures |timers| == |old(timers)| + 1 && timers[..|old(timers)|] == old(timers) && fresh(timers[|old(timers)|])
      ensures timers == old(timers) + [timers[|old(timers)|]]
      ensures timers[|old(timers)|].id == if ok then old(loop.nextId) else 0
    {
      var timer := new Timer();
      timers := timers + [timer];
      if n.firstRunDelay > 0 {
        ok := timer.Start(loop, Delayed(n), n.firstRunDelay);
      } else {
        loop.Call(Called(n.role, LeftBy(endDate, loop.now, n.timeout)));
        if n.timeout == 0 {
          isRunning := false;
        }
        if LeftBy(endDate, loop.now, n.timeout) > 1 {
          ok := timer.Start(loop, Repeating(n), n.timeout);
        } else {
          ok := false;
        }
      }
      forall id | id in loop.sources
        ensures exists i | 0 <= i < |timers| :: timers[i].id == id
      {
        if id == timer.id {
          assert timers[|timers| - 1].id == id;
        } else {
          var i :| 0 <= i < |old(timers)| && old(timers[i].id) == id;
          assert timers[i].id == id;
        }
      }
    }

    method Start(date: int) returns (ok: bool)
      requires Valid()
      modifies this`timers, this`isRunning, this`endDate, loop
      ensures Valid() && endDate == date
      ensures (loop.State(), ok) == StartAll(old(loop.State()), notifications, date)
      ensures isRunning == !AnyRunsOnce(notifications)
      ensures |timers| == |old(timers)| + |notifications| && timers[..|old(timers)|] == old(timers)
      ensures forall i | |old(timers)| <= i < |timers| :: fresh(timers[i])
    {
      isRunning := true;
      endDate := date;
      ok := false;
      for i := 0 to |notifications|
        invariant Valid() && endDate == date
        invariant (loop.State(), ok) == StartAll(old(loop.State()), notifications[..i], date)
        invariant isRunning == !AnyRunsOnce(notifications[..i])
        invariant old(timers) <= timers && |timers| == |old(timers)| + i
        invariant forall k | |old(timers)| <= k < |timers| :: fresh(timers[k])
      {
        StartAllExtend(old(loop.State()), notifications, i, date);
        AnyRunsOnceExtend(notifications, i);
        var started := StartTimer(notifications[i]);
        ok := ok || started;
      }
      assert notifications[..|notifications|] == notifications;
    }

    /** Not running, the end instant is now, every timer is reset and dropped, and no
        source is left pending. */
    method Reset()
      requires Valid()
      modifies this`timers, this`isRunning, this`endDate, loop, timers
      ensures Valid() && timers == [] && !isRunning && endDate == loop.now
      ensures loop.State() == old(loop.State()).(sources := map[])
    {
      isRunning := false;
      endDate := loop.now;
      var i := 0;
      while i < |timers|
        invariant 0 <= i <= |timers| && timers == old(timers)
        invariant !isRunning && endDate == loop.now
        invariant loop.Valid() && loop.State() == old(loop.State()).(sources := loop.sources)
        invariant forall k | i <= k < |timers| :: timers[k].id == old(timers[k].id)
        invariant forall id | id in loop.sources :: i < |timers| && exists k | i <= k < |timers| :: old(timers[k].id) == id
      {
        timers[i].Reset(loop);
        i := i + 1;
      }
      assert i == |timers|;
      assert forall id :: id !in loop.sources;
      assert loop.sources == map[];
      timers := [];
    }

    /** The loop dispatches one of this countdown's sources. */
    method Fire(id: int)
      requires Valid() && id in loop.sources
      modifies this`timers, this`isRunning, loop
      ensures Valid()
      ensures loop.State() == FireOne(old(loop.State()), endDate, id).0
      ensures isRunning == (old(isRunning) && !FireOne(old(loop.State()), endDate, id).1)
    {
      match loop.sources[id].action
      case Delayed(n) =>
        var started := StartTimer(n.(firstRunDelay := 0));
        loop.Finish(id, false);
      case Repeating(n) =>
        var left := LeftBy(endDate, loop.now, n.timeout);
        if left > 0 {
          loop.IdleAdd(Called(n.role, left));
          loop.Finish(id, true);
        } else {
          isRunning := false;
          loop.Finish(id, false);
        }
    }
  }

  class AlarmClock {
    const loop: MainLoop<Action, Event>
    const countdown: CountdownTimer
    var halfMinutesNotification: Notification
    var secondsNotification: Notification
    var endNotification: Notification
    var endDate: int
    var isDropSeconds: bool
    var isOnlyAlarm: bool

    ghost predicate Valid()
      reads this, loop, countdown, countdown.timers
    {
      && countdown.loop == loop && countdown.Valid()
      && halfMinutesNotification == Notification(HalfMinutes, 30, 0)
      && secondsNotification.role == EverySecond && secondsNotification.timeout == 1
      && endNotification.role == Expiry && endNotification.timeout == 0
    }

    constructor (loop: MainLoop<Action, Event>)
      requires loop.Valid() && loop.sources == map[]
      ensures Valid() && this.loop == loop && fresh(countdown)
      ensures endDate == loop.now && !isDropSeconds && isOnlyAlarm && !countdown.isRunning
    {
      this.loop := loop;
      halfMinutesNotification := Notification(HalfMinutes, 30, 0);
      secondsNotification := Notification(EverySecond, 1, 0);
      endNotification := Notification(Expiry, 0, 0);
      endDate := loop.now;
      isDropSeconds := false;
      countdown := new CountdownTimer(loop);
      isOnlyAlarm := true;
    }

    method Add(minutes: int)
      modifies this`endDate
      ensures endDate == AddedEnd(old(endDate), loop.now, minutes, isDropSeconds)
    {
      var ms := minutes * MsPerMinute;
      var now := loop.now;
      if endDate > now {
        endDate := endDate + ms;
      } else {
        endDate := now + ms;
      }
      if isDropSeconds {
        endDate := DropSeconds(endDate);
      }
    }

    /** Resets the countdown, builds the notification list for the seconds left and starts
        the countdown towards `endDate`. */
    method Start()
      requires Valid()
      modifies this`endNotification, this`secondsNotification, countdown, countdown.timers, loop
      ensures Valid()
      ensures var left := SecondsUntil(endDate, old(loop.now));
              && endNotification == old(endNotification).(firstRunDelay := left)
              && secondsNotification == (if isOnlyAlarm then old(secondsNotification) else old(secondsNotification).(firstRunDelay := SecondsDelay(left)))
              && countdown.notifications == Schedule(left, isOnlyAlarm, halfMinutesNotification, old(secondsNotification), old(endNotification))
      ensures countdown.endDate == endDate
      ensures loop.State() == StartAll(old(loop.State()).(sources := map[]), countdown.notifications, endDate).0
      ensures countdown.isRunning == !AnyRunsOnce(countdown.notifications)
      ensures |countdown.timers| == |countdown.notifications|
      ensures forall i | 0 <= i < |countdown.timers| :: fresh(countdown.timers[i])
    {
      countdown.Reset();
      countdown.notifications := [];
      var left := SecondsUntil(endDate, loop.now);
      endNotification := endNotification.(firstRunDelay := left);
      countdown.notifications := countdown.notifications + [endNotification];
      if !isOnlyAlarm {
        secondsNotification := secondsNotification.(firstRunDelay := SecondsDelay(left));
        countdown.notifications := countdown.notifications + [halfMinutesNotification, secondsNotification];
      }
      var started := countdown.Start(endDate);
    }

    method Reset()
      requires Valid()
      modifies this`endDate, countdown, countdown.timers, loop
      ensures Valid() && !countdown.isRunning && endDate == loop.now
      ensures loop.State() == old(loop.State()).(sources := map[])
    {
      countdown.Reset();
      endDate := loop.now;
    }

    predicate IsRunning()
      reads this, countdown
    {
      countdown.isRunning
    }

    /** The end instant while running, and now otherwise. */
    function GetEndDate(): (r: int)
      reads this, countdown, loop
      ensures IsRunning() ==> r == endDate
      ensures !IsRunning() ==> r == loop.now
    {
      if IsRunning() then endDate else loop.now
    }
  }
}
