# Countdown timers of a desktop-shell timer extension, in Dafny

The extension has three timer components, all driven by one single-threaded event loop:

- `alarm_clock.js` drives a countdown towards a shared end instant with three
  notifications:
  - a half-minute progress callback;
  - a per-second callback for the last minute;
  - the expiry callback.
  `AlarmClock` accumulates the end instant with `add` and builds the notification list.
  `CountdownTimer` starts one guarded `Timer` per notification. Each notification either
  gets a delayed first run, or is called at once. It is then registered to repeat only if
  more than one period is left, and it repeats while at least one period is left.
- `timer.js` is an older single-deadline timer. It registers one one-shot timeout for
  `startDate + delayMinutes` minutes and hands the duration to an optional repeater.
- `repeater.js` splits a number of seconds into two self-rescheduling chains:
  - a per-minute chain;
  - a final per-second chain of at most 60 links.
  The per-second chain ends with one call of `endCallback`.

The project has five modules:

- `Scheduling` (`mainloop.dfy`) stands in for the GLib main loop. It has two forms:
  - a value form: the `Loop` datatype and its functions;
  - an object form: the `MainLoop` class, whose methods are proved equal to those
    functions.
  A loop holds:
  - a millisecond clock;
  - the pending sources by id, each a due instant, a re-arm interval and an action tag
    standing for the registered closure;
  - a positive next id;
  - an idle queue of deferred user callbacks;
  - a trace of the user callbacks invoked so far.
- `Clock` (`clock.dfy`) holds the floor arithmetic and the dropping of the seconds field.
- `Repeating` (`repeater.dfy`), `DeadlineTimer` (`timer.dfy`) and `Alarm`
  (`alarm_clock.dfy`) model the three source files.

Each source class whose fields are updated in place becomes a Dafny class over the same
state: `Timer` and `CountdownTimer` and `AlarmClock` of alarm_clock.js, `Timer` of
timer.js, `Repeater` of repeater.js. `Notification` is a value, and the callbacks it holds
become a role tag. The methods of `Repeater`, of timer.js's `Timer` and of alarm_clock.js's
`Timer` are proved to leave the loop and their fields exactly as a pure function of the old
state says. The other alarm_clock.js methods are proved equal to such a function on the
loop and on their scalar fields; the list of guard timers is described only by its length,
its old prefix and the fresh new entries (see "## Left out"). The properties are then lemmas
about those functions, and about the runs a loop makes when left alone:

- `RunChain` in repeater.js;
- `RunRepeating` in alarm_clock.js.

`timer.js` and `repeater.js` share one loop, whose tags are `Periodic` (a chain link) and
`Timeout`. The alarm clock owns a loop of its own, whose tags are `Delayed` and
`Repeating`.

What the code does, in the cases that are easy to get wrong:

- `AlarmClock.start` sets the first-run delays of the expiry and per-second notifications
  only; the half-minute notification keeps its delay of 0 (alarm_clock.js:156-164).
- With the end instant already reached, `start` calls the expiry callback synchronously,
  inside `_startTimer` (alarm_clock.js:86-90); `Alarm.ExpiryFiresOnce`.
- Over a two-minute run the half-minute callback is called with 4 at once and then, from
  the repeating source, with 3, 2 and 1, 30 seconds apart (alarm_clock.js:75-84, 90-99);
  `Alarm.TwoMinuteScenario`, `Alarm.ImmediateCountsDown`.
- The half-minute callback stops, and clears `isRunning`, at the last whole half-minute
  before the end, so `isRunning()` turns false and `getEndDate()` returns now up to 30
  seconds before the expiry (alarm_clock.js:82, 174-181); `Alarm.HalfMinutesStopsEarly`.
- The calls made synchronously by `start` are not undone by a following `reset`
  (alarm_clock.js:90, 115-120).
- Every link of either chain of repeater.js records its successor in `twoSourceId`
  (repeater.js:21); only the first per-second link goes in `oneSourceId` (repeater.js:62).
  `reset` cancels only the two recorded ids (repeater.js:69-72), so a link whose id was
  overwritten stays pending; `Repeating.ResetDestroysRecorded`.
- With drop-seconds, timer.js arms its timeout for the deadline with the seconds field
  cleared, up to 59 s before the deadline (timer.js:40-47), while the repeater still
  gets the whole `delayMinutes*60` seconds (timer.js:56-58). The timeout's callback then
  resets the repeater (timer.js:50-54, 63-69). That destroys the pending per-second link
  whenever the repeater recorded it, and then `endCallback` never runs;
  `DeadlineTimer.DropSecondsFiresEarly`, `DeadlineTimer.FireCancelsChainLinks`.

## Model

| member | source | states |
|---|---|---|
| Clock.SecondsUntil | alarm_clock.js:154-155 | whole seconds to `deadline`, rounded down: `r*1000 <= deadline-now < r*1000+1000`; non-negative exactly when the deadline has not passed |
| Clock.DropSecondsShift | alarm_clock.js:146-148 | shifting an instant by whole minutes shifts its dropped-seconds instant by the same amount |
| Clock.DropSeconds | alarm_clock.js:146-148 | `setSeconds(0)`: seconds field 0, milliseconds field and minute kept, earlier by a whole number of seconds, at most 59 |
| Repeating.SplitSeconds | repeater.js:44-55 | minutes is floor(s/60); leftSeconds + timeout == s; leftSeconds <= 60, timeout >= 0; leftSeconds is 60 or (s with timeout 0); positive exactly when s is; 60 whenever a minute phase exists |
| Repeating.Step | repeater.js:18-31 | with count > 0: defers the callback, registers a fresh link with count - 1 and records its id in `twoSourceId`; otherwise registers nothing and calls `notify` exactly when there is one; the clock and `oneSourceId` are kept |
| Repeating.FireChain | repeater.js:17-31 | a dispatched link is dropped; no other pending source changes, `oneSourceId` is kept |
| Repeating.StartChains | repeater.js:43-67 | keeps every pending source and calls nothing; nothing for s <= 0; for s > 0 `oneSourceId` names a new source, for s >= 60 `twoSourceId` names another new one |
| Repeating.SafeDestroy | repeater.js:34-41 | on a valid loop, exactly the source `id` is removed, if pending, and nothing else changes |
| Repeating.ResetChains | repeater.js:69-72 | on a valid loop, exactly the sources named by the two ids are removed and nothing else changes |
| Repeating.RunChain | repeater.js:15-32 | a chain left alone terminates, keeps the loop valid, never moves the clock back or reuses an id, and keeps `oneSourceId` |
| Repeating.LinkFires | repeater.js:18-25 | a link with count > 0 firing on time defers its callback once, registers the next link (count - 1) one period later, records it in `twoSourceId`, and is dropped |
| Repeating.LastLinkFires | repeater.js:26-30 | a link with count <= 0 defers nothing, registers nothing, calls `notify` exactly when there is one, and is dropped |
| Repeating.RunChainEffect | repeater.js:15-32 | a chain of count n left alone defers its callback max(n,0) times through n more registrations, ending n periods after its first due instant, calls `notify` once if it has one, ends with `twoSourceId` naming its last link, and leaves every other source and `oneSourceId` alone |
| Repeating.NothingForNonPositive | repeater.js:57-66 | for seconds <= 0 nothing is registered or called: loop and ids unchanged |
| Repeating.SecondsChainEndsOnTime | repeater.js:61-66 | for s > 0 the seconds chain is registered `timeout` seconds ahead into `oneSourceId`; left alone it defers `secondsCallback` leftSeconds times and calls `endCallback` exactly once, exactly s seconds after the start |
| Repeating.MinutesChainCount | repeater.js:57-59 | for s >= 60 the first `minutesCallback` is deferred synchronously and the chain, left alone, defers it floor(s/60) times in all, 60 s apart, never calling `endCallback` |
| Repeating.ResetDestroysRecorded | repeater.js:69-72 | `reset` removes exactly the sources named by the two ids (a missing or non-positive id is skipped) and is idempotent |
| Repeating.Repeater.constructor | repeater.js:7-13 | both ids start at 0 |
| Repeating.Repeater.CallPeriodic | repeater.js:15-32 | one run of the `_call_periodic` closure equals `Step`: with count > 0 defer the callback and register the next link into `twoSourceId`, else call `notify` if any |
| Repeating.Repeater.SafetyDestroySourceById | repeater.js:34-41 | destroys the source only for a positive id that is still pending |
| Repeating.Repeater.CallEveryMinuteThenEverySecond | repeater.js:43-67 | equals `StartChains`: the split, the minutes chain when minutes > 0, the seconds chain into `oneSourceId` when leftSeconds > 0 |
| Repeating.Repeater.Reset | repeater.js:69-72 | equals `ResetChains` of the recorded ids; ids are kept |
| Repeating.Repeater.Fire | repeater.js:17-31 | the loop dispatching a chain link: the closure's body, then the source is dropped |
| DeadlineTimer.CountDownDate | timer.js:31-34 | the deadline is a whole number of minutes, `delayMinutes`, after the start, and not before it for a non-negative delay |
| DeadlineTimer.ClearTimeoutSpec | timer.js:72-82 | `clearTimeout` removes exactly the timeout and the two repeater ids from the pending sources, calls and defers nothing, hands out no id, zeroes `timeoutID`, clears `isSet` and keeps every other field |
| DeadlineTimer.ResetSpec | timer.js:63-69 | `reset` is `clearTimeout` with `delayMinutes` zeroed; its second `repeater.reset()` changes nothing on a valid loop |
| DeadlineTimer.StartSpec | timer.js:36-61 | `start` records `startDate` as now, is set, gives `timeoutID` the next id, hands out at least one id, keeps the delay, the drop-seconds flag and whether a repeater is set |
| DeadlineTimer.FireSpec | timer.js:50-54 | after the timeout fires, the delay and `timeoutID` are 0, the timer is not set, the source is gone; `startDate`, the repeater and the flag are kept |
| DeadlineTimer.StartDelay | timer.js:40-47 | the delay is never negative and the timeout is due at the (possibly seconds-dropped) deadline, or at once when that has passed |
| DeadlineTimer.LeftSeconds | timer.js:84-88 | floor((countDownDate - now)/1000); absent exactly when the timer was never started |
| DeadlineTimer.ClearTimeoutLeavesNone | timer.js:72-82 | after `clearTimeout` no timeout is pending, `timeoutID` is 0, `isSet` is false, the invariant holds, and a second call changes nothing |
| DeadlineTimer.ResetIdempotent | timer.js:63-69 | `reset` also zeroes `delayMinutes`, leaves no timeout pending, and is idempotent |
| DeadlineTimer.StartArmsOneTimeout | timer.js:36-61 | `start` records `startDate`, is set, and leaves exactly one timeout pending, named by `timeoutID`, due `StartDelay` from now |
| DeadlineTimer.RepeaterEndsAtDeadline | timer.js:36-61 | the repeater gets `delayMinutes*60` seconds: its seconds chain, left alone, calls `endCallback` once, exactly at the deadline; the timeout is armed for that instant, or for no later one under drop-seconds |
| DeadlineTimer.DropSecondsFiresEarly | timer.js:40-47 | under drop-seconds the timeout is due at most 59 s before the deadline, never after a deadline still ahead, and strictly before it, at the deadline with its seconds cleared, whenever a positive delay ends off a whole minute |
| DeadlineTimer.FireCancelsChainLinks | timer.js:50-69 | when the timeout fires with a repeater set, exactly the timeout and the sources named by the two repeater ids are removed, so a pending per-second link recorded there, and with it `endCallback`, is cancelled; the callback runs once |
| DeadlineTimer.FireRunsCallbackOnce | timer.js:50-54 | the timeout runs the callback exactly once, then `reset`; afterwards no timeout is pending and the timer is not set |
| DeadlineTimer.Timer.constructor | timer.js:10-18 | fields start at 0 / false / none |
| DeadlineTimer.Timer.CountDown | timer.js:31-34 | `countDownDate` is `startDate + delayMinutes*60000`; undefined before a start |
| DeadlineTimer.Timer.GetLeftSeconds | timer.js:84-88 | absent exactly before the first `start`; otherwise the whole seconds to `countDownDate`, rounded down |
| DeadlineTimer.Timer.ClearTimeout | timer.js:72-82 | the new state is `ClearTimeoutSpec` of the old, keeping the invariant |
| DeadlineTimer.Timer.Reset | timer.js:63-69 | the new state is `ResetSpec` of the old, keeping the invariant |
| DeadlineTimer.Timer.Start | timer.js:36-61 | the new state is `StartSpec` of the old, keeping the invariant |
| DeadlineTimer.Timer.SetRepeater | timer.js:90-92 | a fresh repeater with both ids 0 on the same loop; nothing else changes |
| DeadlineTimer.Timer.Fire | timer.js:50-54 | the loop dispatching the timeout: `FireSpec`, keeping the invariant |
| Alarm.LeftBy | alarm_clock.js:57-63 | 0 for a period <= 0; else the floor of the time left over the period (negative once past the end) |
| Alarm.LeftByShift | alarm_clock.js:57-63 | one period later, one period fewer is left |
| Alarm.AddedEnd | alarm_clock.js:137-149 | the end moves `minutes` later, from the end while it is ahead and from now otherwise; with drop-seconds the seconds field is 0, the milliseconds kept, within a minute below |
| Alarm.LaterAddsAccumulate | alarm_clock.js:137-149 | any number of `add`s each made while the end is ahead add their minutes to it; an end on a whole minute stays there under drop-seconds |
| Alarm.AddAccumulates | alarm_clock.js:137-149 | a first `add` at any instant followed by any number of `add`s made before the end: the end is max(end, first instant) + the sum of the minutes, with the seconds dropped once under drop-seconds |
| Alarm.SecondsPhaseIsLastMinute | alarm_clock.js:154-160 | the per-second notification first runs exactly 60 s before `now + left` seconds (up to 999 ms before the end), or at once under a minute, and first sees min(left, 60) seconds left |
| Alarm.StartOne | alarm_clock.js:65-103 | `_startTimer` keeps the loop valid and leaves the clock and the idle queue as they are |
| Alarm.StartOneEffect | alarm_clock.js:65-103 | `_startTimer` calls the callback synchronously exactly when the first-run delay is <= 0, registers exactly one source exactly when the delay is positive or more than one period is left, and returns whether it did; the source is a delayed one-shot `firstRunDelay` s ahead, or a repeating one every `timeout` s |
| Alarm.StartAll | alarm_clock.js:105-113 | the `forEach` keeps the loop valid and leaves the clock and the idle queue as they are |
| Alarm.StartAllEffect | alarm_clock.js:105-113 | `start` returns true exactly when some notification registered a source; the synchronous calls are those of the notifications due now, in order; one fresh source per registering notification, old sources kept |
| Alarm.FireOne | alarm_clock.js:69-84 | a dispatch touches no other pending source; a delayed run is dropped; a repeating tick calls nothing synchronously, registers nothing, and either re-arms one interval after now or is dropped, returning cleared `isRunning` exactly when it was dropped |
| Alarm.DelayedRunsOnce | alarm_clock.js:69-73 | a delayed first run is dropped after firing, starts the notification afresh as due now (one synchronous call), clears running exactly for a run-once notification, and registers exactly one repeating source, one period ahead, exactly when more than one period is left |
| Alarm.DelayedCountsDown | alarm_clock.js:69-99 | a delayed first run dispatched on time and left alone is called once with the k periods left, repeats only if k > 1, then is called with k-1 … 1 one period apart and stops, clearing `isRunning`, k periods after the delayed run with no source of its own left |
| Alarm.SecondsPhaseCountsDown | alarm_clock.js:69-99 | the per-second notification's delayed run, made with 60 whole seconds left, is called with 60, then with 59 … 1 one second apart, and stops 60 s after its first run |
| Alarm.RunRepeating | alarm_clock.js:75-84 | a repeating source left alone always stops: it ends dropped, with `isRunning` cleared, no id handed out and the clock not moved back |
| Alarm.RunRepeatingEffect | alarm_clock.js:75-84 | a repeating source left alone defers one call per tick with the periods left counting down to 1, one period apart, then clears `isRunning` and is dropped |
| Alarm.ImmediateCountsDown | alarm_clock.js:90-102 | a periodic notification due now is called once with L periods left; it repeats only if L > 1, then is called with L-1 … 1 and clears `isRunning` L periods later |
| Alarm.ExpiryFiresOnce | alarm_clock.js:86-95 | the expiry notification is called exactly once, with 0, and clears `isRunning`: at once for a delay <= 0, else from one delayed source that registers nothing more |
| Alarm.HalfMinutesStopsEarly | alarm_clock.js:75-99 | with a minute or more left the half-minute source stops, clearing `isRunning`, at most 30 s before the end and never after it; with 119 s left it stops after 90 s |
| Alarm.HalfMinutesSuppressed | alarm_clock.js:97-102 | with under a minute left the half-minute notification is called once and registers nothing |
| Alarm.Schedule | alarm_clock.js:153-165 | the list is `[end]` in only-alarm mode and `[end, half, seconds]` otherwise; the expiry's delay is the seconds left, the half-minute notification is untouched, and the per-second delay is 60 s less than the expiry's, or 0 under a minute |
| Alarm.StartIsClean | alarm_clock.js:151-167 | after `AlarmClock.start` every pending source is a fresh one from this start, at most one per notification (1 or 3 of them) |
| Alarm.TwoMinuteScenario | alarm_clock.js:151-167 | two minutes with progress notifications: the half-minute callback gets 4 at once; expiry in 120 s, half-minute ticks every 30 s, the per-second phase in 60 s |
| Alarm.Timer.constructor | alarm_clock.js:7-9 | `id` starts at 0 |
| Alarm.Timer.Start | alarm_clock.js:11-22 | refuses (false, nothing changed) when `id > 0`; otherwise registers exactly one source, records its id and returns true |
| Alarm.Timer.Reset | alarm_clock.js:24-32 | destroys the source and zeroes `id` when `id > 0` names a pending source; otherwise nothing changes |
| Alarm.CountdownTimer.constructor | alarm_clock.js:50-55 | no timers, no notifications, not running, end instant now |
| Alarm.CountdownTimer.StartTimer | alarm_clock.js:65-103 | equals `StartOne`; clears running exactly for a run-once notification; appends exactly one fresh timer; every pending source stays owned by a timer |
| Alarm.CountdownTimer.Start | alarm_clock.js:105-113 | sets the end instant, equals `StartAll` of the notifications, running unless one runs once, one new timer per notification |
| Alarm.CountdownTimer.Reset | alarm_clock.js:115-120 | not running, end instant now, no timers, and no source left pending |
| Alarm.CountdownTimer.Fire | alarm_clock.js:69-84 | the loop dispatching one of the countdown's sources: `FireOne`, clearing running as the callback does |
| Alarm.AlarmClock.constructor | alarm_clock.js:127-135 | notifications (30 s, 1 s, run-once), not dropping seconds, only-alarm mode, not running |
| Alarm.AlarmClock.Add | alarm_clock.js:137-149 | the new end instant is `AddedEnd` of the old one |
| Alarm.AlarmClock.Start | alarm_clock.js:151-167 | resets the countdown; expiry delay = seconds left; list `[end]` or `[end, half, seconds]` with the seconds delay `left < 60 ? 0 : left-60` and the half-minute delay untouched; the loop is `StartAll` of it from no pending sources; one fresh timer per notification |
| Alarm.AlarmClock.Reset | alarm_clock.js:169-172 | not running, end instant now, no source pending |
| Alarm.AlarmClock.IsRunning | alarm_clock.js:174-176 | the countdown's `isRunning` flag; when it goes false is stated by `Alarm.HalfMinutesStopsEarly`, `Alarm.RunRepeatingEffect` and `Alarm.ExpiryFiresOnce` |
| Alarm.AlarmClock.GetEndDate | alarm_clock.js:174-181 | the end instant while running, now otherwise |

## Left out

- The GLib main loop is not modelled as such. It is replaced by `Scheduling.Loop` and
  `Scheduling.MainLoop`: ids are handed out in increasing order, and a repeating source
  re-arms at its dispatch time plus its interval.
- Wall-clock behaviour is not modelled:
  - the clock does not advance while the program's own code runs;
  - there is no clock drift, no host sleep, and no time-zone or DST effect on
    `setSeconds(0)`.
  Seconds-of-minute is `(t/1000) % 60` on a millisecond clock.
- Fractional and non-integer minutes and seconds are not modelled, and neither is floating
  point. All quantities are integers.
- A user callback that re-enters the components is not modelled. Callbacks are events in
  the trace.
- An idle callback runs exactly once here. In GLib an idle source runs again for as long as
  its handler returns true. alarm_clock.js:79 wraps the user callback in a closure that
  returns nothing, but repeater.js:20 hands `minutesCallback` and `secondsCallback` to
  `idle_add` unwrapped. So the counts of `Repeating.RunChainEffect`,
  `Repeating.MinutesChainCount` and `Repeating.SecondsChainEndsOnTime` are counts of
  calls only for callbacks that return a falsy value.
- Cancelling an idle callback that is already queued cannot be modelled. `reset` cannot
  retract it in the source either.
- The three notification objects are values, not shared objects. The write of
  `firstRunDelay = 0` in the delayed callback acts on the copy held by the source:
  - `AlarmClock.start` overwrites the expiry and per-second delays before each use;
  - the half-minute delay is always 0.
- Alarm.CountdownTimer.constructor: requires a loop with no pending sources. The alarm
  clock is assumed to own its loop, which is what lets `reset` be shown to leave no source
  pending.
- DeadlineTimer.Timer.constructor: requires a loop with no pending `Timeout` source. The
  timer is assumed to be the only user of timeouts on its loop.
- DeadlineTimer.Timer.SetRepeater: does not follow the replaced repeater's links. They stay
  pending and are no longer cancelled by `reset`, as in the source.
- Alarm.CountdownTimer.StartTimer, Alarm.CountdownTimer.Start: the list of guard timers is
  described by its length, its old prefix, the fresh new entries and the id of the newest.
  Alarm.AlarmClock.Start: the list is described by its length, one timer per notification,
  and the freshness of its entries. The timers' own ids after later dispatches are not
  tracked. Only their ownership of every pending source is tracked, which is what `reset`
  needs.
- The order in which the loop dispatches sources due at the same instant is not fixed. The
  lemmas about a chain or a repeating source "left alone" describe the run where no other
  source is dispatched in between. Without drop-seconds, timer.js's timeout and the last
  per-second link are due at the same instant, and which runs first is not modelled.
- `timeout_add` takes the interval as a 32-bit count of milliseconds in GLib, about 49.7
  days (timer.js:50). Intervals are unbounded integers here, and the overflow is not
  modelled.
- `Mainloop.source_remove` of an id that is no longer pending is a no-op here. GLib logs a
  warning in that case.
- The user-interface files `extension.js` and `prefs.js` are not part of this model.
  Neither is the sound player `sound_player.js`.
