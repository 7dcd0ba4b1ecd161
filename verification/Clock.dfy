/** Clock readings and the age of a probe. */
module Clock {

  const NANOSECONDS_PER_SECOND := 1_000_000_000
  const NANOSECONDS_PER_MILLISECOND := 1_000_000

  datatype Timespec = Timespec(sec: int, nsec: int)

  type Time = t: Timespec | 0 <= t.nsec < NANOSECONDS_PER_SECOND witness Timespec(0, 0)

  function Nanos(t: Time): int {
    t.sec * NANOSECONDS_PER_SECOND + t.nsec
  }

  /** The formula both scanners use; its second summand is negative when a second boundary was crossed. */
  function Elapsed(now: Time, since: Time): int {
    (now.sec - since.sec) * NANOSECONDS_PER_SECOND + (now.nsec - since.nsec)
  }

  predicate Fits64(x: int) {
    -0x8000_0000_0000_0000 <= x < 0x8000_0000_0000_0000
  }

  predicate ElapsedFits64(now: Time, since: Time) {
    && Fits64(now.sec - since.sec)
    && Fits64((now.sec - since.sec) * NANOSECONDS_PER_SECOND)
    && Fits64(now.nsec - since.nsec)
    && Fits64(Elapsed(now, since))
  }

  const LAST_SECOND := 9_223_372_035

  /** The formula gives the nanoseconds between two readings.  Up to the year 2262 it never leaves 64 bits; past
      `LAST_SECOND` seconds apart it does leave them for some pair of readings. */
  lemma ElapsedExact(now: Time, since: Time)
    ensures Elapsed(now, since) == Nanos(now) - Nanos(since)
    ensures 1_000_000_000 * now.sec + now.nsec == 1_000_000_000 * since.sec + since.nsec + Elapsed(now, since)
    ensures 0 <= now.sec <= LAST_SECOND && 0 <= since.sec <= LAST_SECOND ==> ElapsedFits64(now, since)
    ensures exists a: Time, b: Time :: a.sec - b.sec == LAST_SECOND + 1 && !ElapsedFits64(a, b)
  {
    var a: Time := Timespec(LAST_SECOND + 1, NANOSECONDS_PER_SECOND - 1);
    var b: Time := Timespec(0, 0);
    assert a.sec - b.sec == LAST_SECOND + 1 && !ElapsedFits64(a, b);
  }
}
