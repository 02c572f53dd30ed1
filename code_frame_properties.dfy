// What sequences of start/stop calls do to a frame's timing state, and what
// repeated pauses do to its saved peaks (src/profiler/code_frame.hh:47-65).

module CodeFrameProperties {
  import opened TimePoints
  import opened CodeFrames

  /** One call a code point makes on its frame. */
  datatype Call = Start(now: TimePoint) | Stop(forced: bool, now: TimePoint)

  /** The state after one call, and what it returned: one value for a stop,
      none for a start. */
  function Step(s: TimerState, c: Call): (TimerState, seq<bool>) {
    match c
    case Start(now) => (Started(s, now), [])
    case Stop(forced, now) => var (t, open) := Stopped(s, forced, now); (t, [open])
  }

  /** The state after a sequence of calls, and the values its stops returned. */
  function Run(s: TimerState, cs: seq<Call>): (TimerState, seq<bool>)
    decreases |cs|
  {
    if cs == [] then (s, [])
    else
      var (t, r) := Step(s, cs[0]);
      var (u, rs) := Run(t, cs[1..]);
      (u, r + rs)
  }

  function Starts(ts: seq<TimePoint>): seq<Call> {
    seq(|ts|, i requires 0 <= i < |ts| => Start(ts[i]))
  }

  function Stops(us: seq<TimePoint>): seq<Call> {
    seq(|us|, i requires 0 <= i < |us| => Stop(false, us[i]))
  }

  function CountStarts(cs: seq<Call>): (n: nat)
    ensures n <= |cs|
    decreases |cs|
  {
    if cs == [] then 0 else (if cs[0].Start? then 1 else 0) + CountStarts(cs[1..])
  }

  /** The instants of `cs` never go back in time, and none is before `t`. */
  ghost predicate ClockFrom(t: int, cs: seq<Call>)
    decreases |cs|
  {
    cs == [] || (t <= cs[0].now.ticks && ClockFrom(cs[0].now.ticks, cs[1..]))
  }

  /** Running two sequences one after the other is running their concatenation. */
  lemma {:induction false} RunAppend(s: TimerState, a: seq<Call>, b: seq<Call>)
    ensures Run(s, a + b) == (Run(Run(s, a).0, b).0, Run(s, a).1 + Run(Run(s, a).0, b).1)
    decreases |a|
  {
    if a == [] {
      assert a + b == b;
      assert Run(s, a) == (s, []);
      assert [] + Run(s, b).1 == Run(s, b).1;
    } else {
      assert (a + b)[0] == a[0];
      assert (a + b)[1..] == a[1..] + b;
      var (t, r) := Step(s, a[0]);
      RunAppend(t, a[1..], b);
      var (m, rs) := Run(t, a[1..]);
      assert r + (rs + Run(m, b).1) == (r + rs) + Run(m, b).1;
    }
  }

  /** Starts return nothing; the first one on an idle frame opens the interval,
      later ones only add recursions and calls, and time is not accumulated. */
  lemma {:induction false} RunStarts(s: TimerState, ts: seq<TimePoint>)
    requires s.running <==> s.recursions > 0
    ensures Run(s, Starts(ts)).1 == []
    ensures Run(s, Starts(ts)).0 ==
      if ts == [] then s
      else TimerState(true, s.recursions + |ts|, s.calls + |ts|,
                      if s.recursions == 0 then ts[0] else s.startTime, s.cumulative)
    decreases |ts|
  {
    if ts == [] {
      assert Starts(ts) == [];
    } else {
      assert Starts(ts)[0] == Start(ts[0]);
      assert Starts(ts)[1..] == Starts(ts[1..]);
      RunStarts(Started(s, ts[0]), ts[1..]);
    }
  }

  /** At most as many plain stops as open recursions: stop number i (from 0)
      reports the frame still open exactly when a start is still unmatched after
      it; only the stop that matches the first start closes the interval, adding
      the span from the interval's start to that stop's instant. */
  lemma {:induction false} RunStops(s: TimerState, us: seq<TimePoint>)
    requires s.running <==> s.recursions > 0
    requires |us| <= s.recursions
    ensures |Run(s, Stops(us)).1| == |us|
    ensures forall i :: 0 <= i < |us| ==> Run(s, Stops(us)).1[i] == (i + 1 < s.recursions)
    ensures Run(s, Stops(us)).0 ==
      if us == [] then s
      else if |us| < s.recursions then s.(recursions := s.recursions - |us|)
      else s.(running := false, recursions := 0, cumulative := s.cumulative + us[|us| - 1].Minus(s.startTime))
    decreases |us|
  {
    if us == [] {
      assert Stops(us) == [];
    } else {
      assert Stops(us)[0] == Stop(false, us[0]);
      assert Stops(us)[1..] == Stops(us[1..]);
      var (t, open) := Stopped(s, false, us[0]);
      RunStops(t, us[1..]);
      if s.recursions == 1 {
        assert us[1..] == [];
      }
    }
  }

  /** n >= 1 nested starts followed by n stops: the first n - 1 stops report the
      frame still open, the last reports it closed, the frame ends idle, and
      exactly one period is accumulated: from the first start to the last stop,
      whatever n is. */
  lemma NestedStartsThenStops(s: TimerState, ts: seq<TimePoint>, us: seq<TimePoint>)
    requires Consistent(s) && !s.running
    requires |ts| == |us| >= 1
    ensures !Run(s, Starts(ts) + Stops(us)).0.running
    ensures Run(s, Starts(ts) + Stops(us)).0.recursions == 0
    ensures Run(s, Starts(ts) + Stops(us)).0.calls == s.calls + |ts|
    ensures Run(s, Starts(ts) + Stops(us)).0.cumulative == s.cumulative + us[|us| - 1].Minus(ts[0])
    ensures |Run(s, Starts(ts) + Stops(us)).1| == |us|
    ensures forall i :: 0 <= i < |us| - 1 ==> Run(s, Starts(ts) + Stops(us)).1[i]
    ensures !Run(s, Starts(ts) + Stops(us)).1[|us| - 1]
  {
    RunAppend(s, Starts(ts), Stops(us));
    RunStarts(s, ts);
    RunStops(Run(s, Starts(ts)).0, us);
  }

  /** A forced stop after any number n >= 1 of nested starts closes the frame in
      one call: it reports it closed, no recursion is left, and the one period
      from the first start to the forced stop is accumulated. */
  lemma ForcedStopAfterStarts(s: TimerState, ts: seq<TimePoint>, u: TimePoint)
    requires Consistent(s) && !s.running
    requires |ts| >= 1
    ensures Run(s, Starts(ts) + [Stop(true, u)]).1 == [false]
    ensures Run(s, Starts(ts) + [Stop(true, u)]).0 ==
      TimerState(false, 0, s.calls + |ts|, ts[0], s.cumulative + u.Minus(ts[0]))
  {
    RunAppend(s, Starts(ts), [Stop(true, u)]);
    RunStarts(s, ts);
  }

  /** Stops on a frame with no open start, forced or not, change nothing and all
      report the frame closed. */
  lemma {:induction false} StopsWhenIdle(s: TimerState, cs: seq<Call>)
    requires s.recursions == 0
    requires forall i :: 0 <= i < |cs| ==> cs[i].Stop?
    ensures Run(s, cs).0 == s
    ensures |Run(s, cs).1| == |cs|
    ensures forall i :: 0 <= i < |cs| ==> !Run(s, cs).1[i]
    decreases |cs|
  {
    if cs != [] {
      StopsWhenIdle(s, cs[1..]);
    }
  }

  /** After unbalanced stops on an idle frame, the next start behaves as the
      first start on that frame: one recursion, interval opened at its instant. */
  lemma UnbalancedStopsRecover(s: TimerState, cs: seq<Call>, now: TimePoint)
    requires s.recursions == 0
    requires forall i :: 0 <= i < |cs| ==> cs[i].Stop?
    ensures Run(s, cs + [Start(now)]).0 ==
      s.(running := true, recursions := 1, calls := s.calls + 1, startTime := now)
  {
    RunAppend(s, cs, [Start(now)]);
    StopsWhenIdle(s, cs);
  }

  /** Any sequence of calls whose instants never go back in time keeps the frame
      consistent, never decreases the accumulated time, and counts one call per
      start. */
  lemma {:induction false} RunKeepsConsistent(s: TimerState, t: int, cs: seq<Call>)
    requires Consistent(s)
    requires s.running ==> s.startTime.ticks <= t
    requires ClockFrom(t, cs)
    ensures Consistent(Run(s, cs).0)
    ensures Run(s, cs).0.cumulative >= s.cumulative
    ensures Run(s, cs).0.calls == s.calls + CountStarts(cs)
    decreases |cs|
  {
    if cs != [] {
      var next := Step(s, cs[0]).0;
      RunKeepsConsistent(next, cs[0].now.ticks, cs[1..]);
    }
  }

  /** The recursion depth after the calls `cs`, starting from depth `d`. */
  function Depth(d: int, cs: seq<Call>): int
    decreases |cs|
  {
    if cs == [] then d else Depth(if cs[0].Start? then d + 1 else d - 1, cs[1..])
  }

  /** `cs` holds only plain (non-forced) calls, and starting from depth `d` the
      depth never drops below 1: no stop in `cs` matches the opening start. */
  ghost predicate StaysOpen(d: int, cs: seq<Call>)
    decreases |cs|
  {
    cs == [] ||
    match cs[0]
    case Start(_) => StaysOpen(d + 1, cs[1..])
    case Stop(forced, _) => !forced && d >= 2 && StaysOpen(d - 1, cs[1..])
  }

  /** While the frame stays open, calls only move the recursion count and count
      starts as calls: the interval start and the accumulated time are kept, and
      every stop reports the frame still open. */
  lemma {:induction false} InsideOpen(s: TimerState, d: nat, cs: seq<Call>)
    requires s.running && s.recursions == d >= 1
    requires StaysOpen(d, cs)
    ensures Run(s, cs).0.recursions == Depth(d, cs) >= 1
    ensures Run(s, cs).0 == s.(recursions := Run(s, cs).0.recursions, calls := s.calls + CountStarts(cs))
    ensures |Run(s, cs).1| == |cs| - CountStarts(cs)
    ensures forall i :: 0 <= i < |Run(s, cs).1| ==> Run(s, cs).1[i]
    decreases |cs|
  {
    if cs != [] {
      var t := Step(s, cs[0]).0;
      InsideOpen(t, t.recursions, cs[1..]);
    }
  }

  /** Any balanced, properly nested sequence of plain calls between an opening
      start and its matching stop (recursive re-entries such as
      `start; start; stop; start; stop; stop`) accumulates exactly one
      interval, from the opening start to the closing stop; every inner stop
      reports the frame still open and the closing stop reports it closed. */
  lemma BalancedOneInterval(s: TimerState, t0: TimePoint, cs: seq<Call>, u: TimePoint)
    requires Consistent(s) && !s.running
    requires StaysOpen(1, cs) && Depth(1, cs) == 1
    ensures Run(s, [Start(t0)] + cs + [Stop(false, u)]).0 ==
      s.(calls := s.calls + 1 + CountStarts(cs), startTime := t0, cumulative := s.cumulative + u.Minus(t0))
    ensures |Run(s, [Start(t0)] + cs + [Stop(false, u)]).1| == |cs| - CountStarts(cs) + 1
    ensures forall i :: 0 <= i < |cs| - CountStarts(cs) ==> Run(s, [Start(t0)] + cs + [Stop(false, u)]).1[i]
    ensures !Run(s, [Start(t0)] + cs + [Stop(false, u)]).1[|cs| - CountStarts(cs)]
  {
    RunAppend(s, [Start(t0)] + cs, [Stop(false, u)]);
    RunAppend(s, [Start(t0)], cs);
    assert Run(s, [Start(t0)]) == (Started(s, t0), []);
    InsideOpen(Started(s, t0), 1, cs);
  }

  /** The saved peaks after a series of pauses, one reading per counter each. */
  function PauseAll(saved: seq<int>, rounds: seq<seq<int>>): seq<int>
    requires forall j :: 0 <= j < |rounds| ==> |rounds[j]| == |saved|
    decreases |rounds|
  {
    if rounds == [] then saved
    else PauseAll(MergePeaks(saved, rounds[0]), rounds[1..])
  }

  /** However many pauses are made, no saved peak decreases, and each saved
      peak is at least every reading taken for its counter. */
  lemma {:induction false} PausesNeverDecrease(saved: seq<int>, rounds: seq<seq<int>>)
    requires forall j :: 0 <= j < |rounds| ==> |rounds[j]| == |saved|
    ensures |PauseAll(saved, rounds)| == |saved|
    ensures forall i :: 0 <= i < |saved| ==> saved[i] <= PauseAll(saved, rounds)[i]
    ensures forall j, i :: 0 <= j < |rounds| && 0 <= i < |saved| ==> rounds[j][i] <= PauseAll(saved, rounds)[i]
    decreases |rounds|
  {
    if rounds != [] {
      var next := MergePeaks(saved, rounds[0]);
      PausesNeverDecrease(next, rounds[1..]);
      forall j, i | 0 <= j < |rounds| && 0 <= i < |saved|
        ensures rounds[j][i] <= PauseAll(saved, rounds)[i]
      {
        if j > 0 {
          assert rounds[j] == rounds[1..][j - 1];
        }
      }
    }
  }

  /** Pausing twice with the same readings saves the same peaks as pausing once. */
  lemma MergePeaksIdempotent(saved: seq<int>, readings: seq<int>)
    requires |saved| == |readings|
    ensures MergePeaks(MergePeaks(saved, readings), readings) == MergePeaks(saved, readings)
  {
  }
}
