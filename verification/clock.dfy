/** Calendar values: Python's `datetime.time`, `date` and aware `datetime`. */
module Clock {

  const MicrosPerSecond: int := 1_000_000
  const MicrosPerMinute: int := 60 * MicrosPerSecond
  const MicrosPerHour: int := 60 * MicrosPerMinute
  const MicrosPerDay: int := 24 * MicrosPerHour

  /**
   * A naive `datetime.time`, as microseconds since midnight. Python compares times field by field
   * (hour, minute, second, microsecond), which is the integer order on this count.
   */
  type Time = t: int | 0 <= t < MicrosPerDay

  /** `datetime.time(hour, minute, second)`. */
  function Hms(hour: nat, minute: nat, second: nat): (t: Time)
    requires hour < 24 && minute < 60 && second < 60
    ensures t / MicrosPerHour == hour
  {
    hour * MicrosPerHour + minute * MicrosPerMinute + second * MicrosPerSecond
  }

  /** A calendar `date`, as a day number; only its order matters to the model. */
  type Date = int

  /** An instant (`created_at`), as microseconds on a fixed time line. */
  type Instant = int
}
