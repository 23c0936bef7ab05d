/** The integer time arithmetic of the program: the `timespec` that `mSleep` hands to
    `nanosleep`, and the absolute deadline that `SafeQueueWait` and
    `pthread_cond_timedwait_msec` build from the current wall-clock time. */
module TimeArith {

  const MillisPerSec: int := 1000
  const NanosPerMilli: int := 1_000_000
  const NanosPerSec: int := 1_000_000_000

  /** A `struct timespec`: whole seconds and nanoseconds. */
  datatype Timespec = Timespec(sec: int, nsec: int)

  /** The form `nanosleep` and `pthread_cond_timedwait` accept: nanoseconds in [0, 1e9). */
  predicate Normalized(t: Timespec) {
    0 <= t.nsec < NanosPerSec
  }

  /** The instant a `timespec` denotes, in nanoseconds. */
  function TotalNanos(t: Timespec): (n: int) {
    t.sec * NanosPerSec + t.nsec
  }

  /** C's `msec / 1000`: the quotient truncated toward zero (Dafny's `/` rounds down). */
  function WholeSeconds(msec: int): (q: int)
    ensures 0 <= msec ==> 0 <= q * MillisPerSec <= msec < q * MillisPerSec + MillisPerSec
    ensures msec < 0 ==> q * MillisPerSec - MillisPerSec < msec <= q * MillisPerSec <= 0
  {
    if msec >= 0 then msec / MillisPerSec else -((-msec) / MillisPerSec)
  }

  /** C's `msec % 1000`: the remainder that goes with the truncated quotient, so it has the
      sign of `msec`. */
  function LeftoverMillis(msec: int): (r: int)
    ensures WholeSeconds(msec) * MillisPerSec + r == msec
    ensures -MillisPerSec < r < MillisPerSec
    ensures msec >= 0 ==> r == msec % MillisPerSec
    ensures msec < 0 ==> r <= 0
  {
    msec - WholeSeconds(msec) * MillisPerSec
  }

  /** The interval `mSleep` asks `nanosleep` for. */
  function SleepInterval(msec: int): (t: Timespec)
    ensures TotalNanos(t) == msec * NanosPerMilli
    ensures -NanosPerSec < t.nsec < NanosPerSec
    ensures msec >= 0 ==> Normalized(t) && t.nsec == (msec % MillisPerSec) * NanosPerMilli
    ensures msec >= 0 ==> t.sec * MillisPerSec + t.nsec / NanosPerMilli == msec
  {
    Timespec(WholeSeconds(msec), LeftoverMillis(msec) * NanosPerMilli)
  }

  /** The absolute deadline `msec` milliseconds after `now`: add the whole seconds and the
      leftover nanoseconds, then carry one second if the nanoseconds reached a full second. */
  function Deadline(now: Timespec, msec: int): (t: Timespec)
    ensures TotalNanos(t) == TotalNanos(now) + msec * NanosPerMilli
    ensures msec >= 0 && Normalized(now) ==> Normalized(t)
    ensures msec >= 0 && Normalized(now) ==> now.sec + WholeSeconds(msec) <= t.sec <= now.sec + WholeSeconds(msec) + 1
  {
    var sec := now.sec + WholeSeconds(msec);
    var nsec := now.nsec + LeftoverMillis(msec) * NanosPerMilli;
    if nsec >= NanosPerSec then Timespec(sec + 1, nsec - NanosPerSec) else Timespec(sec, nsec)
  }

  /** A negative timeout is not normalised: the nanoseconds can drop below zero, a value
      `pthread_cond_timedwait` rejects. */
  lemma NegativeTimeoutLeavesNegativeNanos()
    ensures Deadline(Timespec(0, 0), -1) == Timespec(0, -NanosPerMilli)
    ensures !Normalized(Deadline(Timespec(0, 0), -1))
  {
  }
}
