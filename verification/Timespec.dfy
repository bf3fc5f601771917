/** The deadline arithmetic of myhttp/http/include/my_pthread.h, on 64-bit words. */
module Timespec {
  const TWO64: int := 0x1_0000_0000_0000_0000
  const TICKS: int := 10_000_000      // 100 ns units in a second
  const NANOS: int := 1_000_000_000

  type Ulonglong = n: int | 0 <= n < TWO64

  class AbsTime {
    var sec: int
    var nsec: int

    // set_timespec_time_nsec: `time` counts 100 ns units; the sum may wrap.
    method SetTimeNsec(time: Ulonglong, nsecs: Ulonglong)
      modifies this
      ensures Normalised(Stamp(sec, nsec))
      ensures Nanoseconds(Stamp(sec, nsec)) == 100 * time + nsecs <==> time + nsecs / 100 < TWO64
      ensures (Nanoseconds(Stamp(sec, nsec)) - (100 * time + nsecs)) % (100 * TWO64) == 0
    {
      var now := (time + nsecs / 100) % TWO64;
      sec := now / TICKS;
      nsec := now % TICKS * 100 + nsecs % 100;
      assert Nanoseconds(Stamp(sec, nsec)) == 100 * now + nsecs % 100;
    }
  }

  datatype Stamp = Stamp(sec: int, nsec: int)

  predicate Normalised(t: Stamp) {
    0 <= t.nsec < NANOS
  }

  function Nanoseconds(t: Stamp): int {
    t.sec * NANOS + t.nsec
  }

  function Cmp(a: Stamp, b: Stamp): int {
    if a.sec > b.sec || (a.sec == b.sec && a.nsec > b.nsec) then 1
    else if a.sec < b.sec || (a.sec == b.sec && a.nsec < b.nsec) then -1
    else 0
  }

  // diff_timespec: the multiplication by 1000000000ULL makes the result unsigned.
  function Diff(a: Stamp, b: Stamp): Ulonglong {
    ((a.sec - b.sec) * NANOS + a.nsec - b.nsec) % TWO64
  }

  // The same word read as a signed number.
  function AsSigned(n: Ulonglong): int {
    if n < TWO64 / 2 then n else n - TWO64
  }

  function Sign(n: int): int {
    if n > 0 then 1 else if n < 0 then -1 else 0
  }

  /** On normalised pairs, comparing field by field is comparing the instants. */
  lemma CmpIsSignOfDifference(a: Stamp, b: Stamp)
    requires Normalised(a) && Normalised(b)
    ensures Cmp(a, b) == Sign(Nanoseconds(a) - Nanoseconds(b))
    ensures Cmp(a, b) == 0 <==> a == b
  {
  }

  /** The unsigned difference, read as signed, is the difference of the instants exactly when that
      fits; then it also has the sign of the comparison. */
  lemma DiffIsExactIffItFits(a: Stamp, b: Stamp)
    ensures var exact := Nanoseconds(a) - Nanoseconds(b);
            AsSigned(Diff(a, b)) == exact <==> -TWO64 / 2 <= exact < TWO64 / 2
  {
    var exact := Nanoseconds(a) - Nanoseconds(b);
    assert exact == (a.sec - b.sec) * NANOS + a.nsec - b.nsec;
  }

  /** Two instants 2^63 ns apart: the later one looks earlier by the difference. */
  lemma DiffTurnsNegative()
    ensures var a, b := Stamp(9_223_372_037, 0), Stamp(0, 0);
            Normalised(a) && Normalised(b) && Cmp(a, b) == 1 && AsSigned(Diff(a, b)) < 0
  {
  }

  /** Comparison is a total order on normalised pairs. */
  lemma CmpIsTotalOrder(a: Stamp, b: Stamp, c: Stamp)
    requires Normalised(a) && Normalised(b) && Normalised(c)
    ensures Cmp(a, b) == -Cmp(b, a)
    ensures Cmp(a, b) <= 0 && Cmp(b, c) <= 0 ==> Cmp(a, c) <= 0
    ensures Cmp(a, b) <= 0 && Cmp(b, a) <= 0 ==> a == b
  {
  }
}
