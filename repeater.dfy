/** repeater.js: a remaining number of seconds becomes a chain of per-minute callbacks and a
    final chain of per-second callbacks, ending with one call of `endCallback`.
    Each link of a chain is a one-shot registration whose closure defers the user callback
    to the idle queue and registers the next link with the count lowered by one. */
module Repeating {
  import opened Clock
  import opened Scheduling

  /** The user callbacks of repeater.js, and the one of timer.js, which shares the loop. */
  datatype Event = MinutesCalled | SecondsCalled | EndCalled | TimeoutCalled

  /** The closures registered on the shared loop: a link of a `_call_periodic` chain (its
      period in seconds, the count still to run, the callback it defers and whether its
      `notify` is `endCallback`), and the one-shot timeout of timer.js. */
  datatype Action = Periodic(timeout: int, count: int, callback: Event, hasNotify: bool) | Timeout

  type RLoop = Loop<Action, Event>

  /** `oneSourceId` and `twoSourceId`. */
  datatype Ids = Ids(one: int, two: int)

  /** The split made by `call_every_minute_then_every_second`. */
  datatype Split = Split(minutes: int, leftSeconds: int, timeout: int)

  function SplitSeconds(seconds: int): (r: Split)
    ensures r.minutes * 60 <= seconds < r.minutes * 60 + 60
    ensures r.leftSeconds + r.timeout == seconds
    ensures r.leftSeconds <= 60 && r.timeout >= 0
    ensures r.leftSeconds == 60 || (r.leftSeconds == seconds && r.timeout == 0)
    ensures seconds > 0 <==> r.leftSeconds > 0
    ensures r.minutes > 0 ==> r.leftSeconds == 60
  {
    var minutes := seconds / 60;
    if seconds < 60 then Split(minutes, seconds, 0) else Split(minutes, 60, seconds - 60)
  }

  /** The body of the closure built by `_call_periodic(timeout, count, callback, notify)`. */
  function Step(l: RLoop, ids: Ids, timeout: int, count: int, callback: Event, hasNotify: bool): (r: (RLoop, Ids))
    requires l.Valid()
    ensures r.0.Valid() && r.0.now == l.now && r.1.one == ids.one
    ensures count > 0 ==> && r.1.two == l.nextId && r.1.two in r.0.sources && r.0.nextId == l.nextId + 1
                          && r.0.sources[r.1.two].action == Periodic(timeout, count - 1, callback, hasNotify)
                          && r.0.idle == l.idle + [callback] && r.0.trace == l.trace
    ensures count <= 0 ==> && r.1 == ids && r.0.sources == l.sources && r.0.idle == l.idle
                           && r.0.trace == l.trace + (if hasNotify then [EndCalled] else [])
  {
    if count > 0 then
      var (l1, id) := l.Enqueue(callback).AddTimeout(timeout * MsPerSecond, Periodic(timeout, count - 1, callback, hasNotify));
      (l1, ids.(two := id))
    else if hasNotify then
      (l.Emit(EndCalled), ids)
    else
      (l, ids)
  }

  /** The loop dispatches a chain link: the closure runs and returns `undefined`, so the
      loop drops the source. */
  function FireChain(l: RLoop, ids: Ids, id: int): (r: (RLoop, Ids))
    requires l.Valid() && id in l.sources && l.sources[id].action.Periodic?
    ensures r.0.Valid() && r.0.now == l.now && id !in r.0.sources && r.1.one == ids.one
    ensures r.0.sources - {id, l.nextId} == l.sources - {id}
  {
    var a := l.sources[id].action;
    var (l1, ids1) := Step(l, ids, a.timeout, a.count, a.callback, a.hasNotify);
    (l1.Finish(id, false), ids1)
  }

  /** `call_every_minute_then_every_second(seconds)`. */
  function StartChains(l: RLoop, ids: Ids, seconds: int): (r: (RLoop, Ids))
    requires l.Valid()
    ensures r.0.Valid() && r.0.now == l.now && r.0.trace == l.trace
    ensures forall k | k in l.sources :: k in r.0.sources && r.0.sources[k] == l.sources[k]
    ensures seconds <= 0 ==> r == (l, ids)
    ensures seconds > 0 ==> r.1.one in r.0.sources && r.1.one !in l.sources
    ensures seconds >= 60 ==> r.1.two in r.0.sources && r.1.two !in l.sources && r.1.two != r.1.one
    ensures seconds < 60 ==> r.1.two == ids.two
  {
    var sp := SplitSeconds(seconds);
    var (l1, ids1) := if sp.minutes > 0 then Step(l, ids, 60, sp.minutes, MinutesCalled, false) else (l, ids);
    if sp.leftSeconds > 0 then
      var (l2, one) := l1.AddTimeout(sp.timeout * MsPerSecond, Periodic(1, sp.leftSeconds, SecondsCalled, true));
      (l2, ids1.(one := one))
    else
      (l1, ids1)
  }

  /** `_safetyDestroySourceById`. */
  function SafeDestroy(l: RLoop, id: int): (r: RLoop)
    ensures l.Valid() ==> r == l.(sources := l.sources - {id})
  {
    if id > 0 && id in l.sources then l.Destroy(id) else l
  }

  /** `reset`. */
  function ResetChains(l: RLoop, ids: Ids): (r: RLoop)
    ensures l.Valid() ==> r == l.(sources := l.sources - {ids.one, ids.two})
  {
    SafeDestroy(SafeDestroy(l, ids.one), ids.two)
  }

  function Repeat(e: Event, n: int): (r: seq<Event>)
    ensures |r| == if n > 0 then n else 0
    ensures forall i | 0 <= i < |r| :: r[i] == e
  {
    if n <= 0 then [] else [e] + Repeat(e, n - 1)
  }

  /** A chain left alone: the loop waits for the link's due instant, dispatches it and goes on
      with the link it registered, until a link with a count of 0 or less has run. */
  function RunChain(l: RLoop, ids: Ids, id: int): (r: (RLoop, Ids))
    requires l.Valid() && id in l.sources && l.sources[id].action.Periodic?
    ensures r.0.Valid() && r.0.now >= l.now && r.0.nextId >= l.nextId && r.1.one == ids.one
    decreases if l.sources[id].action.count > 0 then l.sources[id].action.count else 0
  {
    var a := l.sources[id].action;
    var (l1, ids1) := FireChain(l.AdvanceTo(l.sources[id].due), ids, id);
    if a.count > 0 then
      assert ids1.two == l.nextId && ids1.two in l1.sources;
      RunChain(l1, ids1, ids1.two)
    else
      (l1, ids1)
  }

  /** One dispatch of a link with a positive count, on time. */
  lemma LinkFires(l: RLoop, ids: Ids, id: int)
    requires l.Valid() && id in l.sources && l.sources[id].action.Periodic?
    requires l.now <= l.sources[id].due && l.sources[id].action.count > 0
    ensures var s := l.sources[id];
            var a := s.action;
            var next := Source(s.due + a.timeout * MsPerSecond, a.timeout * MsPerSecond, Periodic(a.timeout, a.count - 1, a.callback, a.hasNotify));
            FireChain(l.AdvanceTo(s.due), ids, id)
              == (Loop(s.due, l.sources[l.nextId := next] - {id}, l.nextId + 1, l.idle + [a.callback], l.trace), ids.(two := l.nextId))
  {
  }

  /** One dispatch of a link with a count of 0 or less, on time. */
  lemma LastLinkFires(l: RLoop, ids: Ids, id: int)
    requires l.Valid() && id in l.sources && l.sources[id].action.Periodic?
    requires l.now <= l.sources[id].due && l.sources[id].action.count <= 0
    ensures var s := l.sources[id];
            FireChain(l.AdvanceTo(s.due), ids, id)
              == (Loop(s.due, l.sources - {id}, l.nextId, l.idle, l.trace + (if s.action.hasNotify then [EndCalled] else [])), ids)
  {
    var s := l.sources[id];
    var l0 := l.AdvanceTo(s.due);
    assert l0 == l.(now := s.due);
    var st := Step(l0, ids, s.action.timeout, s.action.count, s.action.callback, s.action.hasNotify);
    assert st.0 == l0.(trace := l.trace + (if s.action.hasNotify then [EndCalled] else []));
  }

  lemma Spacing(n: int, timeout: int, due: int)
    ensures due + timeout * MsPerSecond + (n - 1) * timeout * MsPerSecond == due + n * timeout * MsPerSecond
  {
  }

  /** A chain link with count n defers its callback exactly n times (max(n, 0), one per
      link), through n further one-shot registrations spaced `timeout` seconds apart, each
      overwriting `twoSourceId`; then `notify` is called exactly once if the chain has one.
      No other pending source and not `oneSourceId` is touched. */
  lemma {:induction false} RunChainEffect(l: RLoop, ids: Ids, id: int)
    requires l.Valid() && id in l.sources && l.sources[id].action.Periodic?
    requires l.now <= l.sources[id].due && l.sources[id].action.timeout >= 0
    ensures var a := l.sources[id].action;
            var n := if a.count > 0 then a.count else 0;
            var r := RunChain(l, ids, id);
            && r.0.idle == l.idle + Repeat(a.callback, n)
            && r.0.trace == l.trace + (if a.hasNotify then [EndCalled] else [])
            && r.0.now == l.sources[id].due + n * a.timeout * MsPerSecond
            && r.0.sources == l.sources - {id}
            && r.0.nextId == l.nextId + n
            && r.1 == (if n > 0 then ids.(two := l.nextId + n - 1) else ids)
    decreases if l.sources[id].action.count > 0 then l.sources[id].action.count else 0
  {
    var s := l.sources[id];
    var a := s.action;
    if a.count > 0 {
      var next := Source(s.due + a.timeout * MsPerSecond, a.timeout * MsPerSecond, Periodic(a.timeout, a.count - 1, a.callback, a.hasNotify));
      var l1 := Loop(s.due, l.sources[l.nextId := next] - {id}, l.nextId + 1, l.idle + [a.callback], l.trace);
      var ids1 := ids.(two := l.nextId);
      LinkFires(l, ids, id);
      assert RunChain(l, ids, id) == RunChain(l1, ids1, l.nextId);
      RunChainEffect(l1, ids1, l.nextId);
      assert Repeat(a.callback, a.count) == [a.callback] + Repeat(a.callback, a.count - 1);
      Spacing(a.count, a.timeout, s.due);
      assert l1.sources - {l.nextId} == l.sources - {id};
    } else {
      LastLinkFires(l, ids, id);
    }
  }

  /** Nothing is scheduled, and so `endCallback` never runs, for a non-positive number of
      seconds. */
  lemma NothingForNonPositive(l: RLoop, ids: Ids, seconds: int)
    requires l.Valid() && seconds <= 0
    ensures StartChains(l, ids, seconds) == (l, ids)
  {
  }

  /** For a positive number of seconds, the per-second chain is registered `timeout` seconds
      ahead and recorded in `oneSourceId`; left alone it defers `secondsCallback`
      min(seconds, 60) times and calls `endCallback` exactly once, `seconds` seconds after
      the start. */
  lemma SecondsChainEndsOnTime(l: RLoop, ids: Ids, seconds: int)
    requires l.Valid() && seconds > 0
    ensures var sp := SplitSeconds(seconds);
            var (r, rids) := StartChains(l, ids, seconds);
            && rids.one in r.sources
            && r.sources[rids.one] == Source(l.now + sp.timeout * MsPerSecond, sp.timeout * MsPerSecond, Periodic(1, sp.leftSeconds, SecondsCalled, true))
            && var (e, _) := RunChain(r, rids, rids.one);
               && e.trace == l.trace + [EndCalled]
               && e.now == l.now + seconds * MsPerSecond
               && e.idle == r.idle + Repeat(SecondsCalled, sp.leftSeconds)
  {
    var sp := SplitSeconds(seconds);
    var (r, rids) := StartChains(l, ids, seconds);
    var (l1, ids1) := if sp.minutes > 0 then Step(l, ids, 60, sp.minutes, MinutesCalled, false) else (l, ids);
    assert l1.trace == l.trace && l1.now == l.now;
    assert r.trace == l.trace && r.now == l.now;
    RunChainEffect(r, rids, rids.one);
  }

  /** For at least a minute, `minutesCallback` is deferred once synchronously and the
      per-minute chain, left alone, defers it again until floor(seconds / 60) calls in all,
      every 60 seconds, and never calls `endCallback`. */
  lemma MinutesChainCount(l: RLoop, ids: Ids, seconds: int)
    requires l.Valid() && seconds >= 60
    ensures var sp := SplitSeconds(seconds);
            var (r, rids) := StartChains(l, ids, seconds);
            && rids.two in r.sources
            && r.sources[rids.two] == Source(l.now + 60 * MsPerSecond, 60 * MsPerSecond, Periodic(60, sp.minutes - 1, MinutesCalled, false))
            && r.idle == l.idle + [MinutesCalled]
            && var (e, _) := RunChain(r, rids, rids.two);
               && e.trace == l.trace
               && e.idle == l.idle + Repeat(MinutesCalled, sp.minutes)
               && e.now == l.now + sp.minutes * 60 * MsPerSecond
  {
    var sp := SplitSeconds(seconds);
    var (r, rids) := StartChains(l, ids, seconds);
    var (l1, ids1) := Step(l, ids, 60, sp.minutes, MinutesCalled, false);
    assert ids1.two == l.nextId && rids.two == ids1.two;
    assert rids.one == l.nextId + 1;
    RunChainEffect(r, rids, rids.two);
    assert Repeat(MinutesCalled, sp.minutes) == [MinutesCalled] + Repeat(MinutesCalled, sp.minutes - 1);
    assert (sp.minutes - 1) * 60 * MsPerSecond + 60 * MsPerSecond == sp.minutes * 60 * MsPerSecond;
  }

  /** `reset` destroys the pending sources recorded in the two ids and nothing else: a link
      whose id was overwritten in `twoSourceId` stays pending. */
  lemma ResetDestroysRecorded(l: RLoop, ids: Ids)
    requires l.Valid()
    ensures ResetChains(l, ids) == l.(sources := l.sources - {ids.one, ids.two})
    ensures ResetChains(ResetChains(l, ids), ids) == ResetChains(l, ids)
  {
    assert l.sources - {ids.one} - {ids.two} == l.sources - {ids.one, ids.two};
  }

  class Repeater {
    const loop: MainLoop<Action, Event>
    var oneSourceId: int
    var twoSourceId: int

    function Recorded(): Ids
      reads this
    {
      Ids(oneSourceId, twoSourceId)
    }

    constructor (loop: MainLoop<Action, Event>)
      ensures this.loop == loop && Recorded() == Ids(0, 0)
    {
      this.loop := loop;
      oneSourceId, twoSourceId := 0, 0;
    }

    /** The closure returned by `_call_periodic(timeout, count, callback, notify)`, run. */
    method CallPeriodic(timeout: int, count: int, callback: Event, hasNotify: bool)
      requires loop.Valid()
      modifies this, loop
      ensures loop.Valid()
      ensures (loop.State(), Recorded()) == Step(old(loop.State()), old(Recorded()), timeout, count, callback, hasNotify)
    {
      if count > 0 {
        loop.IdleAdd(callback);
        twoSourceId := loop.TimeoutAdd(timeout * MsPerSecond, Periodic(timeout, count - 1, callback, hasNotify));
      } else if hasNotify {
        loop.Call(EndCalled);
      }
    }

    method SafetyDestroySourceById(sourceId: int)
      modifies loop
      ensures loop.State() == SafeDestroy(old(loop.State()), sourceId)
    {
      if sourceId > 0 && loop.FindSource(sourceId) {
        loop.Destroy(sourceId);
      }
    }

    method CallEveryMinuteThenEverySecond(seconds: int)
      requires loop.Valid()
      modifies this, loop
      ensures loop.Valid()
      ensures (loop.State(), Recorded()) == StartChains(old(loop.State()), old(Recorded()), seconds)
    {
      var sp := SplitSeconds(seconds);
      if sp.minutes > 0 {
        CallPeriodic(60, sp.minutes, MinutesCalled, false);
      }
      if sp.leftSeconds > 0 {
        oneSourceId := loop.TimeoutAdd(sp.timeout * MsPerSecond, Periodic(1, sp.leftSeconds, SecondsCalled, true));
      }
    }

    /** Destroys what the two ids name; the ids themselves are kept. */
    method Reset()
      modifies loop
      ensures loop.State() == ResetChains(old(loop.State()), Recorded())
    {
      SafetyDestroySourceById(oneSourceId);
      SafetyDestroySourceById(twoSourceId);
    }

    /** The loop dispatches one of this repeater's chain links. */
    method Fire(id: int)
      requires loop.Valid() && id in loop.sources && loop.sources[id].action.Periodic?
      modifies this, loop
      ensures loop.Valid()
      ensures (loop.State(), Recorded()) == FireChain(old(loop.State()), old(Recorded()), id)
    {
      var a := loop.sources[id].action;
      CallPeriodic(a.timeout, a.count, a.callback, a.hasNotify);
      loop.Finish(id, false);
    }
  }
}
