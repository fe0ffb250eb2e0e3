/** The bookkeeping of the debug overlay: a bounded log of events that
    forgets its oldest entry, and a window of recent frame times from
    which the frame rate is computed. Clocks are parameters. */
module DebugHud {
  import opened Base

  /** One logged event: when, in which category, and what. */
  datatype LogEvent = Event(timestamp: real, category: string, message: string)

  /** The events after one `add`: when the log is full its oldest event
      goes, and the new event comes last. */
  function Added(events: seq<LogEvent>, maxEvents: nat, e: LogEvent): seq<LogEvent>
    requires |events| >= maxEvents ==> |events| > 0
  {
    (if |events| >= maxEvents then events[1..] else events) + [e]
  }

  /** The log after adding `es` one by one to an empty log. */
  function AddAll(es: seq<LogEvent>, maxEvents: nat): (r: seq<LogEvent>)
    requires maxEvents > 0
    ensures |r| <= maxEvents
    decreases |es|
  {
    if es == [] then [] else Added(AddAll(es[..|es| - 1], maxEvents), maxEvents, es[|es| - 1])
  }

  /** The last `n` elements of `s` (all of them when there are fewer). */
  function LastN<T>(s: seq<T>, n: nat): seq<T> {
    s[|s| - Min(|s|, n)..]
  }

  /** A log filled from empty holds exactly the `maxEvents` most recent
      events, oldest first. */
  lemma {:induction false} AddAllKeepsNewest(es: seq<LogEvent>, maxEvents: nat)
    requires maxEvents > 0
    ensures AddAll(es, maxEvents) == LastN(es, maxEvents)
    decreases |es|
  {
    if es != [] {
      var init := es[..|es| - 1];
      AddAllKeepsNewest(init, maxEvents);
      var last := es[|es| - 1];
      if |init| >= maxEvents {
        assert LastN(init, maxEvents)[1..] + [last] == LastN(es, maxEvents);
      } else {
        assert LastN(init, maxEvents) + [last] == LastN(es, maxEvents);
      }
    }
  }

  /** `EventLog`: the retained events and the fixed capacity. */
  class EventLog {
    var events: seq<LogEvent>
    const maxEvents: nat

    /** `EventLog::new`: empty, with the given capacity. */
    constructor (maxEvents: nat)
      ensures this.events == [] && this.maxEvents == maxEvents
    {
      this.events := [];
      this.maxEvents := maxEvents;
    }

    /** `EventLog::add`. A full log with capacity zero would remove from an
        empty vector, so the log must hold an event whenever it is full. */
    method Add(now: real, category: string, message: string)
      requires |events| >= maxEvents ==> |events| > 0
      modifies this
      ensures events == Added(old(events), maxEvents, Event(now, category, message))
      ensures |old(events)| <= maxEvents ==> |events| <= Max(maxEvents, 1)
      ensures events[|events| - 1] == Event(now, category, message)
    {
      if |events| >= maxEvents {
        events := events[1..];
      }
      events := events + [Event(now, category, message)];
    }
  }

  /** The sum of the frame times. */
  function Sum(ts: seq<real>): real
    decreases |ts|
  {
    if ts == [] then 0.0 else Sum(ts[..|ts| - 1]) + ts[|ts| - 1]
  }

  /** The samples after one `frame`: the new time appended, and the
      oldest dropped once there are more than `maxSamples`. */
  function Sampled(ts: seq<real>, maxSamples: nat, dt: real): (r: seq<real>)
    ensures |ts| <= maxSamples ==> r == LastN(ts + [dt], maxSamples) && |r| <= maxSamples
    ensures maxSamples > 0 ==> r != [] && r[|r| - 1] == dt
  {
    var pushed := ts + [dt];
    if |pushed| > maxSamples then pushed[1..] else pushed
  }

  /** The frame rate shown for a window of samples: one over the mean
      frame time, or zero when the mean is not positive. */
  function Fps(ts: seq<real>): (fps: real)
    ensures fps >= 0.0
  {
    var avg := Sum(ts) / (Max(|ts|, 1) as real);
    if avg > 0.0 then 1.0 / avg else 0.0
  }

  lemma {:induction false} SumConstant(ts: seq<real>, d: real)
    requires forall i :: 0 <= i < |ts| ==> ts[i] == d
    ensures Sum(ts) == (|ts| as real) * d
    decreases |ts|
  {
    if ts != [] {
      SumConstant(ts[..|ts| - 1], d);
    }
  }

  /** Steady frames of `d` seconds show a rate of `1/d`. */
  lemma SteadyFrameRate(ts: seq<real>, d: real)
    requires ts != [] && d > 0.0
    requires forall i :: 0 <= i < |ts| ==> ts[i] == d
    ensures Fps(ts) == 1.0 / d
  {
    SumConstant(ts, d);
    assert Sum(ts) / (|ts| as real) == d;
  }

  /** `PerfHud`: the frame-time window, the last frame instant, the frame
      rate, the counters the overlay shows, and the event log. */
  class PerfHud {
    var frameTimes: seq<real>
    const maxSamples: nat
    var lastFrame: real
    var fps: real
    var systemsSnapshot: seq<(string, real)>
    var entityCount: nat
    var eventLog: EventLog

    /** `PerfHud::new`: no samples, a window of 240, a rate of zero and an
        event log for 100 events. */
    constructor (now: real)
      ensures frameTimes == [] && maxSamples == 240 && lastFrame == now && fps == 0.0
      ensures systemsSnapshot == [] && entityCount == 0
      ensures fresh(eventLog) && eventLog.events == [] && eventLog.maxEvents == 100
    {
      frameTimes := [];
      maxSamples := 240;
      lastFrame := now;
      fps := 0.0;
      systemsSnapshot := [];
      entityCount := 0;
      eventLog := new EventLog(100);
    }

    /** `PerfHud::frame` at instant `now`: the time since the last frame
        (zero if the clock reads earlier) enters the window and the rate is
        recomputed from the window. */
    method Frame(now: real)
      modifies this
      ensures lastFrame == now
      ensures frameTimes == Sampled(old(frameTimes), maxSamples, MaxReal(now - old(lastFrame), 0.0))
      ensures fps == Fps(frameTimes)
      ensures |old(frameTimes)| <= maxSamples ==> |frameTimes| <= maxSamples
      ensures systemsSnapshot == old(systemsSnapshot) && entityCount == old(entityCount)
      ensures eventLog == old(eventLog)
    {
      var dt := MaxReal(now - lastFrame, 0.0);
      lastFrame := now;
      frameTimes := frameTimes + [dt];
      if |frameTimes| > maxSamples {
        frameTimes := frameTimes[1..];
      }
      var avg := Sum(frameTimes) / (Max(|frameTimes|, 1) as real);
      fps := if avg > 0.0 then 1.0 / avg else 0.0;
    }

    /** `PerfHud::log_event`: adds to the event log. */
    method LogEvent(now: real, category: string, message: string)
      requires |eventLog.events| >= eventLog.maxEvents ==> |eventLog.events| > 0
      modifies eventLog
      ensures eventLog.events == Added(old(eventLog.events), eventLog.maxEvents, Event(now, category, message))
    {
      eventLog.Add(now, category, message);
    }
  }
}
