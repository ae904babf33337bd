/** Instants and durations are integers counted in nanoseconds, as Go's `time.Duration` counts them. */
module Clock {
  const MILLISECOND := 1_000_000
  const SECOND := 1_000 * MILLISECOND
  const MINUTE := 60 * SECOND
  const HOUR := 60 * MINUTE
  const DAY := 24 * HOUR
}
