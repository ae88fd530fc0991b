/** What several modules share. */
module Common {
  datatype Option<T> = None | Some(value: T)

  const SECONDS_PER_DAY := 86400

  /** The day of a date, counted from the epoch. */
  function Day(t: int): int {
    t / SECONDS_PER_DAY
  }

  /** Clocks are read in nanoseconds; the dates of records are whole seconds. */
  const SECOND := 1_000_000_000

  function Ticks(seconds: int): int {
    seconds * SECOND
  }
}
