// The recursive timer frame of one instrumented code point
// (class CodeFrame, src/profiler/code_frame.hh).

module CodeFrames {
  import opened TimePoints

  /** The descriptor of an instrumented source location. A frame only keeps a
      reference to it, so it is compared by identity and has no visible state. */
  class CodePoint { }

  /** The timing part of a frame: whether it is measuring, the number of open
      (recursive) starts, the number of starts ever made, the instant at which
      the open interval began and the ticks accumulated over closed intervals. */
  datatype TimerState = TimerState(
    running: bool,
    recursions: nat,
    calls: nat,
    startTime: TimePoint,
    cumulative: int)

  /** The invariant every frame keeps: it is measuring exactly while some start
      is unmatched, every open start was counted as a call, and the accumulated
      time is never negative. */
  ghost predicate Consistent(s: TimerState) {
    (s.running <==> s.recursions > 0) && s.recursions <= s.calls && s.cumulative >= 0
  }

  /** The frame's timing state after `start()` at instant `now`: the first start
      opens an interval at `now`; a nested one only counts a recursion. Every
      start counts a call. */
  function Started(s: TimerState, now: TimePoint): TimerState {
    if s.recursions == 0 then
      s.(running := true, recursions := 1, calls := s.calls + 1, startTime := now)
    else
      s.(recursions := s.recursions + 1, calls := s.calls + 1)
  }

  /** The frame's timing state after `stop(forced)` at instant `now`, with the
      value `stop` returns: whether the frame is still open. The last matching
      stop, or any forced one, closes the interval and adds its length to the
      accumulated time. A stop on a frame with no open start changes nothing. */
  function Stopped(s: TimerState, forced: bool, now: TimePoint): (TimerState, bool) {
    if s.recursions == 0 then
      (s, false)
    else if forced || s.recursions == 1 then
      (s.(running := false, recursions := 0, cumulative := s.cumulative + now.Minus(s.startTime)), false)
    else
      (s.(recursions := s.recursions - 1), true)
  }

  function Max(a: int, b: int): int {
    if a < b then b else a
  }

  /** The saved peaks after one pause: for each counter, the larger of the value
      saved so far and the reading taken now. */
  function MergePeaks(saved: seq<int>, readings: seq<int>): (r: seq<int>)
    requires |saved| == |readings|
    ensures |r| == |saved|
    ensures forall i :: 0 <= i < |r| ==>
      saved[i] <= r[i] && readings[i] <= r[i] && (r[i] == saved[i] || r[i] == readings[i])
  {
    if saved == [] then []
    else [Max(saved[0], readings[0])] + MergePeaks(saved[1..], readings[1..])
  }

  /** A frame bound to one code point. `savedPeaks` holds, per attached counter,
      the peak value saved by `Pause`. */
  class CodeFrame {
    const codePoint: CodePoint
    const index: nat
    const savedPeaks: array<int>

    var running: bool
    var recursions: nat
    var calls: nat
    var startTime: TimePoint
    var cumulative: int

    ghost function Timer(): TimerState
      reads this
    {
      TimerState(running, recursions, calls, startTime, cumulative)
    }

    ghost predicate Valid()
      reads this
    {
      Consistent(Timer())
    }

    /** A frame for code point `cp` at slot `index` of the profiler's registry,
        with `counters` attached counters whose saved peaks start at 0. */
    constructor (cp: CodePoint, index: nat, counters: nat)
      ensures Valid() && fresh(savedPeaks)
      ensures codePoint == cp && this.index == index
      ensures !running && recursions == 0 && calls == 0 && cumulative == 0
      ensures savedPeaks[..] == seq(counters, _ => 0)
    {
      codePoint := cp;
      this.index := index;
      savedPeaks := new int[counters](_ => 0);
      running := false;
      recursions := 0;
      calls := 0;
      startTime := TimePoint(0);
      cumulative := 0;
    }

    /** Whether the frame is still measuring. */
    function IsRunning(): (r: bool)
      requires Valid()
      reads this
      ensures r <==> recursions > 0
    {
      running
    }

    /** Starts the timer at instant `now`; if it is already started, only counts
        one more recursion and call. */
    method Start(now: TimePoint)
      requires Valid()
      modifies this
      ensures Valid()
      ensures Timer() == Started(old(Timer()), now)
      ensures running && recursions == old(recursions) + 1 && calls == old(calls) + 1
      ensures startTime == if old(recursions) == 0 then now else old(startTime)
      ensures cumulative == old(cumulative)
    {
      if recursions == 0 {
        startTime := now;
        running := true;
      }
      recursions := recursions + 1;
      calls := calls + 1;
    }

    /** Stops the timer at instant `now` once the recursions drop back to zero,
        or at once when `forced`, adding the closed period to the cumulative
        time. Returns true when the frame is still open. */
    method Stop(forced: bool, now: TimePoint) returns (stillOpen: bool)
      requires Valid()
      requires running ==> startTime.ticks <= now.ticks
      modifies this
      ensures Valid()
      ensures (Timer(), stillOpen) == Stopped(old(Timer()), forced, now)
      ensures stillOpen <==> !forced && old(recursions) > 1
      ensures stillOpen == running
      ensures recursions == if forced || old(recursions) == 0 then 0 else old(recursions) - 1
      ensures cumulative == old(cumulative) + if old(running) && !stillOpen then now.Minus(old(startTime)) else 0
      ensures startTime == old(startTime) && calls == old(calls)
    {
      if recursions == 0 {
        stillOpen := false;
      } else if forced || recursions == 1 {
        cumulative := cumulative + now.Minus(startTime);
        recursions := 0;
        running := false;
        stillOpen := false;
      } else {
        recursions := recursions - 1;
        stillOpen := true;
      }
    }

    /** Pauses the frame: saves into each counter the larger of its saved peak
        and the current maximum-usage reading. The timing state is untouched. */
    method Pause(readings: seq<int>)
      requires Valid()
      requires |readings| == savedPeaks.Length
      modifies savedPeaks
      ensures Valid() && Timer() == old(Timer())
      ensures savedPeaks[..] == MergePeaks(old(savedPeaks[..]), readings)
    {
      var i := 0;
      while i < savedPeaks.Length
        invariant 0 <= i <= savedPeaks.Length
        invariant forall k :: 0 <= k < i ==> savedPeaks[k] == Max(old(savedPeaks[k]), readings[k])
        invariant forall k :: i <= k < savedPeaks.Length ==> savedPeaks[k] == old(savedPeaks[k])
      {
        if savedPeaks[i] < readings[i] {
          savedPeaks[i] := readings[i];
        }
        i := i + 1;
      }
    }

    /** Resumes the frame. Its one effect is asking the memory library to track
        the maximum usage again, which is outside the frame: nothing the frame
        holds changes. */
    method Resume()
      requires Valid()
      ensures Valid() && Timer() == old(Timer()) && savedPeaks[..] == old(savedPeaks[..])
    {
    }
  }

  /** Two nested starts and stops on a fresh frame, with a second frame of the
      same code point beside it: the inner stop reports the frame still open,
      the outer one closes it, exactly the outer span is accumulated, and the
      other frame is left idle. */
  method NestedStartStop(cp: CodePoint, t0: TimePoint, t1: TimePoint, t2: TimePoint, t3: TimePoint)
    returns (innerOpen: bool, outerOpen: bool, elapsed: int, otherRunning: bool)
    requires t0.ticks <= t1.ticks <= t2.ticks <= t3.ticks
    ensures innerOpen && !outerOpen
    ensures elapsed == t3.Minus(t0)
    ensures !otherRunning
  {
    var frame := new CodeFrame(cp, 0, 1);
    var other := new CodeFrame(cp, 1, 1);
    frame.Start(t0);
    frame.Start(t1);
    innerOpen := frame.Stop(false, t2);
    outerOpen := frame.Stop(false, t3);
    elapsed := frame.cumulative;
    otherRunning := other.IsRunning();
  }
}
