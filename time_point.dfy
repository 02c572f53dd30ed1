// An instant of the profiler's monotonic clock (src/profiler/time/time_point.hh).

module TimePoints {

  /** An instant captured from the monotonic clock, kept as its raw tick count.
      Capturing "now" is done by the caller; the model only receives the value. */
  datatype TimePoint = TimePoint(ticks: int) {

    /** `this - right`: the number of ticks elapsed from `right` to `this`
        (the source converts this difference to seconds). */
    function Minus(right: TimePoint): int {
      ticks - right.ticks
    }
  }
}
