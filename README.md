# Recursive timer frame of the profiler

This project models `CodeFrame`, the profiler's runtime timer for one instrumented
code point. Recursive re-entry of the code point calls `start()` and `stop()` on the
same frame again. The frame folds these nested calls into one measured interval:
- the first start opens the interval;
- nested starts only count recursions (and calls);
- the stop that matches the first start closes the interval and adds its length to
  the cumulative time;
- a forced stop closes the interval at once, whatever the recursion count.

`pause()` and `resume()` handle the memory-peak bookkeeping of the counters attached
to the frame.

Time is given by the caller. `Start` and `Stop` take the current instant as a
`TimePoint` tick count. Durations are tick differences (`TimePoint.Minus`), not
seconds.

Files:
- `time_point.dfy`, module `TimePoints`: an instant as a tick count, and the
  difference of two instants.
- `code_frame.dfy`, module `CodeFrames`:
  - the timing state `TimerState` and its invariant `Consistent`;
  - the specification functions `Started`, `Stopped` and `MergePeaks`;
  - the class `CodeFrame`, whose methods change its fields in place and are proved
    against those functions;
  - a client, `NestedStartStop`.
- `code_frame_properties.dfy`, module `CodeFrameProperties`: what whole sequences of
  calls do. `Run` folds `Started`/`Stopped` over a sequence of calls. The lemmas
  cover nested starts and stops, forced stops, unbalanced stops, the frame
  invariant, and repeated pauses.

Modelling choices:
- The header does not say what `stop()` does when no start is open. The model
  clamps: such a stop, forced or not, changes nothing and returns false. So the
  recursion count can never go negative.
- `Stop` requires that, while the frame is running, `now` is not earlier than the
  interval's start. This is an assumption about the instants the caller
  supplies: the clock's own header does not promise monotonicity, and it warns
  that the system timer can be changed under the program. The assumption keeps
  the cumulative time non-negative.
- The header says `start()` increases "number of starts (recursions) and calls".
  So the frame keeps a call counter beside the recursion counter. The recursion
  counter is not a field in the header, but its comments imply it.
- The header's one-line summaries say "Pauses current timer" and "Resume current
  timer", but the detailed comments describe only the effect on the PETSc memory
  peak. The model follows the detailed comments: neither operation touches the
  timing state (see "Left out").
  - `Pause(readings)` takes the current maximum-usage reading for each counter as
    a parameter. It keeps the larger of the saved peak and the reading.
  - `Resume()` only asks the memory library to track the maximum again. That
    state is outside the frame, so the model's `Resume` changes nothing.
- `codePoint` and `index` are `const` fields: they cannot change after
  construction.

## Model

| member | source | states |
|---|---|---|
| CodeFrames.CodeFrame.constructor | src/profiler/code_frame.hh:32 | a new frame is bound to its code point and registry index, is not running, has no recursions, calls or accumulated time, and keeps a zero saved peak per counter |
| CodeFrames.CodeFrame.IsRunning | src/profiler/code_frame.hh:39-45 | the frame reports running exactly when some start is still unmatched; it changes nothing |
| CodeFrames.CodeFrame.Start | src/profiler/code_frame.hh:47-50 | a start on an idle frame makes it running and records `now` as the interval start; on a running frame it keeps the interval start; either way it adds one recursion and one call, leaves the cumulative time alone and keeps the invariant |
| CodeFrames.CodeFrame.Stop | src/profiler/code_frame.hh:52-58 | returns true exactly when the stop is not forced and a recursion is still open afterwards, and then the frame stays running with the time unchanged; otherwise no recursion is left, the frame stops and the open period is added once; only this frame's fields change |
| CodeFrames.CodeFrame.Pause | src/profiler/code_frame.hh:59-65 | each saved peak becomes the merge of its old value with the current reading (see MergePeaks); the timing state is unchanged |
| CodeFrames.CodeFrame.Resume | src/profiler/code_frame.hh:66-71 | neither the timing state nor the saved peaks change |
| TimePoints.TimePoint.Minus | src/profiler/time/time_point.hh:74-80 | the step that measures a period: the ticks from `right` to `this`; it carries no contract of its own, and the lemmas that add periods (RunStops, NestedStartsThenStops, BalancedOneInterval) state the durations through it |
| CodeFrames.Started | src/profiler/code_frame.hh:47-50 | the step function of `start()`; it carries no contract of its own: CodeFrame.Start is proved equal to it, and RunStarts, RunKeepsConsistent and BalancedOneInterval state its properties |
| CodeFrames.Stopped | src/profiler/code_frame.hh:52-58 | the step function of `stop(forced)` with its return value; it carries no contract of its own: CodeFrame.Stop is proved equal to it, and RunStops, ForcedStopAfterStarts, StopsWhenIdle, RunKeepsConsistent and BalancedOneInterval state its properties |
| CodeFrames.MergePeaks | src/profiler/code_frame.hh:59-65 | a merged peak is at least the saved value and at least the reading, and equals one of them |
| CodeFrames.NestedStartStop | src/profiler/code_frame.hh:47-58 | `start; start; stop; stop` on a fresh frame: the inner stop reports the frame open, the outer reports it closed, exactly the outer span is accumulated, and a second frame stays idle |
| CodeFrameProperties.RunAppend | src/profiler/code_frame.hh:47-58 | running two call sequences in turn gives the same state and stop results as running their concatenation |
| CodeFrameProperties.RunStarts | src/profiler/code_frame.hh:47-50 | any number of starts returns nothing and accumulates no time; the first start on an idle frame fixes the interval start, and later starts on a running frame keep it; recursions and calls grow by the number of starts |
| CodeFrameProperties.RunStops | src/profiler/code_frame.hh:52-58 | with at most as many plain stops as open recursions, stop i reports "still open" exactly when a start is still unmatched after it; the interval closes (adding last stop minus interval start) only when the count reaches zero |
| CodeFrameProperties.NestedStartsThenStops | src/profiler/code_frame.hh:47-58 | n >= 1 nested starts then n stops: the first n - 1 stops return true and the last returns false; the frame ends idle; exactly one period, last stop minus first start, is added, whatever n is |
| CodeFrameProperties.InsideOpen | src/profiler/code_frame.hh:47-58 | plain calls that never bring the depth below 1 keep the frame running with the same interval start and accumulated time, change the recursion count to the resulting depth, count each start as a call, and every stop among them returns true |
| CodeFrameProperties.BalancedOneInterval | src/profiler/code_frame.hh:47-58 | any balanced, properly nested sequence of plain calls between an opening start and its matching stop (such as `start; start; stop; start; stop; stop`) ends idle and adds exactly one period, closing stop minus opening start; every inner stop returns true and the closing stop returns false |
| CodeFrameProperties.ForcedStopAfterStarts | src/profiler/code_frame.hh:52-58 | after any n >= 1 starts, one forced stop returns false, leaves no recursion, stops the frame and adds the one period from the first start |
| CodeFrameProperties.StopsWhenIdle | src/profiler/code_frame.hh:52-58 | stops, forced or not, on a frame with no open start change nothing and all return false |
| CodeFrameProperties.UnbalancedStopsRecover | src/profiler/code_frame.hh:47-58 | after such unbalanced stops, the next start opens the interval with exactly one recursion, as on a fresh idle frame |
| CodeFrameProperties.RunKeepsConsistent | src/profiler/code_frame.hh:39-58 | any call sequence with non-decreasing instants keeps running equal to "recursions > 0", recursions at most calls, and the cumulative time non-negative and non-decreasing; calls grow by the number of starts |
| CodeFrameProperties.PausesNeverDecrease | src/profiler/code_frame.hh:59-65 | over any series of pauses, no saved peak decreases, and each saved peak is at least every reading taken for its counter |
| CodeFrameProperties.MergePeaksIdempotent | src/profiler/code_frame.hh:59-65 | two pauses with the same readings save the same peaks as one |

## Left out

- Capturing the current time: `TimePoint`'s constructor reads an OS counter (QueryPerformanceCounter or `std::chrono`), and the CPU frequency is cached. Both are foreign calls, so instants are parameters of `Start` and `Stop`.
- Converting a tick difference to seconds: `TimePoint::operator-` returns `double` seconds. The model keeps integer ticks; floating point is not modelled.
- The 64-bit width of `long long ticks` and of `size_t index_`: ticks, durations and the index are unbounded integers, so overflow is not modelled.
- PETSc memory calls behind `pause()` and `resume()`: these are foreign calls. The maximum-usage reading is a parameter of `Pause`. The re-arming done by `resume()` is not modelled.
- CodeFrames.CodeFrame.Pause: pause and resume do not suspend time accumulation, so a paused window between a start and its closing stop is counted. The header's summaries say "Pauses current timer" and "Resume current timer", but its detailed comments describe only the memory-peak effect, and the model follows those.
- CodeFrames.CodeFrame.Resume: states only that the frame's own state is unchanged. The header says resume tells PETSc to monitor the maximum memory usage again, and that effect lives in the foreign library.
- The concrete counters in `counters` (the `PerformanceCounterBase` subclasses are not part of this model): a counter is modelled only by its saved peak. The number of counters is fixed when the frame is built, and saved peaks start at 0.
- How the profiler's registry assigns `index_`, and the contents of `CodePoint`: both are opaque constructor arguments. `CodePoint` is an empty class, compared by identity.
- The `START_TIMER` macros and the static local frame per call site: preprocessor glue.
- `operator<<`: output formatting.
- The destructor: its behaviour is not stated in the header.
- Use from several threads: the frame has no locking, and the model is sequential.
- A diagnostic for an unbalanced `stop()`: the model only clamps.
