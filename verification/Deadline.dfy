/** Deadlines: gettimeofday values, timeradd, IsTimeOver and the absolute timeout
    handed to mq_timedreceive. */
module Deadline {
  import opened Base

  datatype Timeval = Timeval(sec: int, usec: int)

  datatype Timespec = Timespec(sec: int, nsec: int)

  const MICRO := 1_000_000
  const NANO := 1_000_000_000

  predicate Normal(t: Timeval) {
    0 <= t.usec < MICRO
  }

  /** The instant a time value denotes, in microseconds. */
  function Micros(t: Timeval): int {
    t.sec * MICRO + t.usec
  }

  function TimerAdd(a: Timeval, b: Timeval): Timeval {
    var usec := a.usec + b.usec;
    if usec >= MICRO then Timeval(a.sec + b.sec + 1, usec - MICRO)
    else Timeval(a.sec + b.sec, usec)
  }

  function Interval(timeout: nat): Timeval {
    Timeval(timeout / 1000, timeout % 1000 * 1000)
  }

  function ExpiresAt(now: Timeval, timeout: nat): Timeval {
    TimerAdd(now, Interval(timeout))
  }

  predicate IsTimeOver(now: Timeval, expires: Timeval) {
    now.sec > expires.sec || (now.sec == expires.sec && now.usec >= expires.usec)
  }

  /** The nanosecond sum before the carry. */
  function RecvNanos(now: Timeval, timeout: nat): int {
    now.usec * 1000 + timeout % 1000 * 1000 * 1000
  }

  function RecvDeadline(now: Timeval, timeout: nat): Timespec {
    var nsec := RecvNanos(now, timeout);
    if nsec >= NANO then Timespec(now.sec + timeout / 1000 + 1, nsec - NANO)
    else Timespec(now.sec + timeout / 1000, nsec)
  }

  /** One carry is enough, and the deadline is exactly timeout milliseconds away. */
  lemma ExpiresAtExact(now: Timeval, timeout: nat)
    requires Normal(now)
    ensures Normal(ExpiresAt(now, timeout))
    ensures Micros(ExpiresAt(now, timeout)) == Micros(now) + timeout * 1000
  {
  }

  /** mq_timedreceive waits until the same instant, to the nanosecond, and the sum
      that precedes the carry fits a signed 32-bit long. */
  lemma RecvDeadlineExact(now: Timeval, timeout: nat)
    requires Normal(now)
    ensures 0 <= RecvNanos(now, timeout) < TWO31
    ensures 0 <= RecvDeadline(now, timeout).nsec < NANO
    ensures RecvDeadline(now, timeout).sec == ExpiresAt(now, timeout).sec
    ensures RecvDeadline(now, timeout).nsec == ExpiresAt(now, timeout).usec * 1000
  {
  }

  /** Comparing (sec, usec) field by field is comparing instants. */
  lemma IsTimeOverIsOrder(now: Timeval, expires: Timeval)
    requires Normal(now) && Normal(expires)
    ensures IsTimeOver(now, expires) <==> Micros(now) >= Micros(expires)
  {
  }

  /** A deadline set at `at` is over at `now` exactly when timeout milliseconds have
      passed; set no earlier than `now` with a positive timeout it is never over. */
  lemma OverWhenElapsed(now: Timeval, at: Timeval, timeout: nat)
    requires Normal(now) && Normal(at)
    ensures IsTimeOver(now, ExpiresAt(at, timeout)) <==> Micros(now) - Micros(at) >= timeout * 1000
    ensures IsTimeOver(at, now) && timeout > 0 ==> !IsTimeOver(now, ExpiresAt(at, timeout))
  {
  }
}
