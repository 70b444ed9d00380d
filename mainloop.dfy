/** An abstract single-threaded event loop standing in for the GLib main context that
    `Mainloop.timeout_add`, `Mainloop.timeout_add_seconds`, `Mainloop.idle_add`,
    `find_source_by_id`, `source.destroy()` and `Mainloop.source_remove` talk to.

    A pending source is a due instant, a re-arm interval and an action tag `A` (the closure
    the program registered, written as data). User callbacks are events `E`: a callback made
    on the spot is appended to `trace`, one deferred with `idle_add` is appended to `idle`
    and reaches `trace` when the loop drains its idle queue. */
module Scheduling {

  datatype Source<A> = Source(due: int, interval: int, action: A)

  /** The loop as a value: the clock in milliseconds, the pending sources by id, the next
      id to hand out, the idle queue and the callbacks invoked so far. */
  datatype Loop<A, E> = Loop(now: int, sources: map<int, Source<A>>, nextId: int, idle: seq<E>, trace: seq<E>)
  {
    /** Ids are positive (0 means "no source" to every caller) and never reused. */
    predicate Valid()
    {
      nextId > 0 && forall id | id in sources :: 0 < id < nextId
    }

    /** timeout_add: a fresh id for a source due `ms` from now that re-arms every `ms`. */
    function AddTimeout(ms: int, action: A): (r: (Loop<A, E>, int))
      requires Valid()
      ensures r.0.Valid() && r.1 > 0 && r.1 !in sources
      ensures r.0.sources == sources[r.1 := Source(now + ms, ms, action)]
      ensures r.0.now == now && r.0.idle == idle && r.0.trace == trace && r.0.nextId == nextId + 1
    {
      (this.(sources := sources[nextId := Source(now + ms, ms, action)], nextId := nextId + 1), nextId)
    }

    /** idle_add of a callback that only calls a user callback. */
    function Enqueue(e: E): (r: Loop<A, E>)
      ensures Valid() ==> r.Valid()
    {
      this.(idle := idle + [e])
    }

    /** A user callback invoked synchronously. */
    function Emit(e: E): (r: Loop<A, E>)
      ensures Valid() ==> r.Valid()
    {
      this.(trace := trace + [e])
    }

    /** source.destroy() / source_remove: the source, if still pending, is gone. */
    function Destroy(id: int): (r: Loop<A, E>)
      ensures Valid() ==> r.Valid()
      ensures id !in r.sources
    {
      this.(sources := sources - {id})
    }

    /** End of a dispatch: a callback that returned true re-arms its source (from the
        dispatch time), one that returned false lets the loop drop it. */
    function Finish(id: int, repeat: bool): (r: Loop<A, E>)
      ensures Valid() ==> r.Valid()
      ensures repeat && id in sources ==> id in r.sources
      ensures !repeat ==> id !in r.sources
    {
      if repeat && id in sources then
        this.(sources := sources[id := sources[id].(due := now + sources[id].interval)])
      else
        this.(sources := sources - {id})
    }

    /** The clock moves forward to `t` (never backwards). */
    function AdvanceTo(t: int): (r: Loop<A, E>)
      ensures Valid() ==> r.Valid()
      ensures r.now >= now && r.now >= t && (r.now == now || r.now == t)
      ensures r.sources == sources && r.nextId == nextId && r.idle == idle && r.trace == trace
    {
      if t > now then this.(now := t) else this
    }

    /** The loop runs the oldest idle callback. */
    function RunIdle(): (r: Loop<A, E>)
      requires idle != []
      ensures Valid() ==> r.Valid()
      ensures r.trace == trace + [idle[0]] && r.idle == idle[1..]
    {
      this.(idle := idle[1..], trace := trace + [idle[0]])
    }
  }

  /** The loop as an object shared by the components that register sources on it. */
  class MainLoop<A, E> {
    var now: int
    var sources: map<int, Source<A>>
    var nextId: int
    var idle: seq<E>
    var trace: seq<E>

    function State(): Loop<A, E>
      reads this
    {
      Loop(now, sources, nextId, idle, trace)
    }

    predicate Valid()
      reads this
    {
      State().Valid()
    }

    constructor (start: int)
      ensures Valid() && State() == Loop(start, map[], 1, [], [])
    {
      now, sources, nextId, idle, trace := start, map[], 1, [], [];
    }

    method TimeoutAdd(ms: int, action: A) returns (id: int)
      requires Valid()
      modifies this
      ensures Valid()
      ensures (State(), id) == old(State()).AddTimeout(ms, action)
    {
      id := nextId;
      sources := sources[id := Source(now + ms, ms, action)];
      nextId := nextId + 1;
    }

    method IdleAdd(e: E)
      modifies this
      ensures State() == old(State()).Enqueue(e)
    {
      idle := idle + [e];
    }

    method Call(e: E)
      modifies this
      ensures State() == old(State()).Emit(e)
    {
      trace := trace + [e];
    }

    /** find_source_by_id(id) != null */
    predicate FindSource(id: int)
      reads this
    {
      id in sources
    }

    method Destroy(id: int)
      modifies this
      ensures State() == old(State()).Destroy(id)
    {
      sources := sources - {id};
    }

    method Finish(id: int, repeat: bool)
      modifies this
      ensures State() == old(State()).Finish(id, repeat)
    {
      if repeat && id in sources {
        sources := sources[id := sources[id].(due := now + sources[id].interval)];
      } else {
        sources := sources - {id};
      }
    }

    method AdvanceTo(t: int)
      modifies this
      ensures State() == old(State()).AdvanceTo(t)
    {
      if t > now {
        now := t;
      }
    }

    method RunIdle()
      requires idle != []
      modifies this
      ensures State() == old(State()).RunIdle()
    {
      trace := trace + [idle[0]];
      idle := idle[1..];
    }

    /** The loop runs every idle callback queued, oldest first, before it waits again. */
    method DrainIdle()
      modifies this
      ensures trace == old(trace) + old(idle) && idle == []
      ensures now == old(now) && sources == old(sources) && nextId == old(nextId)
    {
      while idle != []
        invariant trace + idle == old(trace) + old(idle)
        invariant now == old(now) && sources == old(sources) && nextId == old(nextId)
        decreases |idle|
      {
        RunIdle();
      }
    }
  }
}
