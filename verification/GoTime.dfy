/** Clock readings and durations. */
module GoTime {
  /** A clock reading, in nanoseconds since the zero time. */
  type Time = nat

  const SECOND: nat := 1_000_000_000
  const MINUTE: nat := 60 * SECOND
}
