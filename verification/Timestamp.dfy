/** `ds/timer-heap/timestamp.cc` and `timestamp.hpp`: unsigned 64-bit microseconds with signed
    64-bit differences, through C++'s wrapping arithmetic. */
module Timestamp {
  const MODULUS: int := 0x1_0000_0000_0000_0000
  const HALF: int := 0x8000_0000_0000_0000

  predicate IsTimePoint(t: int) {
    0 <= t < MODULUS
  }

  predicate IsTimeDiff(d: int) {
    -HALF <= d < HALF
  }

  /** The conversion to `uint64_t`. */
  function Wrap(x: int): (r: int)
    ensures IsTimePoint(r)
  {
    x % MODULUS
  }

  /** The conversion of a `uint64_t` to `int64_t`. */
  function Signed(x: int): (r: int)
    requires IsTimePoint(x)
    ensures IsTimeDiff(r)
  {
    if x < HALF then x else x - MODULUS
  }

  /** `operator-` (timestamp.hpp lines 53-56). */
  function Difference(lhs: int, rhs: int): (d: int)
    requires IsTimePoint(lhs) && IsTimePoint(rhs)
    ensures IsTimeDiff(d)
  {
    Signed(Wrap(lhs - rhs))
  }

  /** The exact sum where it is a time point, and 0 where it is not. */
  function Sum(epoch: int, span: int): (r: int)
    requires IsTimePoint(epoch) && IsTimeDiff(span)
    ensures IsTimePoint(r)
  {
    if IsTimePoint(epoch + span) then epoch + span else 0
  }

  class Timestamp {
    var epochUsec: int

    constructor (usec: int)
      ensures epochUsec == usec
    {
      epochUsec := usec;
    }

    /** The overflow test, made after the wrapping addition, finds exactly the sums that are not
        time points. */
    method AddTimespan(spanUsec: int)
      requires IsTimePoint(epochUsec) && IsTimeDiff(spanUsec)
      modifies this
      ensures 0 <= old(epochUsec) + spanUsec < MODULUS ==> epochUsec == old(epochUsec) + spanUsec
      ensures !(0 <= old(epochUsec) + spanUsec < MODULUS) ==> epochUsec == 0
      ensures epochUsec == Sum(old(epochUsec), spanUsec)
    {
      var oldValue := epochUsec;
      epochUsec := Wrap(epochUsec + Wrap(spanUsec));
      var isPositive := spanUsec > 0;
      if (isPositive && oldValue > epochUsec) || (!isPositive && oldValue < epochUsec) {
        epochUsec := 0;
      }
    }
  }

  /** The wrapping difference is the true one exactly when that fits a signed 64-bit number. */
  lemma DifferenceExactly(a: int, b: int)
    requires IsTimePoint(a) && IsTimePoint(b)
    ensures Difference(b, a) == b - a <==> IsTimeDiff(b - a)
    ensures b - a >= HALF ==> Difference(b, a) == b - a - MODULUS
    ensures b - a < -HALF ==> Difference(b, a) == b - a + MODULUS
  {
    assert Wrap(b - a) == if b >= a then b - a else b - a + MODULUS;
  }

  /** Adding the difference from a to b to a gives b if and only if the true difference fits, or
      b is the value that `AddTimespan` falls back to. */
  lemma RoundTripExactly(a: int, b: int)
    requires IsTimePoint(a) && IsTimePoint(b)
    ensures Sum(a, Difference(b, a)) == b <==> IsTimeDiff(b - a) || b == 0
  {
    DifferenceExactly(a, b);
  }

  /** Within the range of differences the sign of a difference tells the order. */
  lemma DifferenceOrders(a: int, b: int)
    requires IsTimePoint(a) && IsTimePoint(b) && IsTimeDiff(b - a)
    ensures (Difference(b, a) > 0 <==> a < b) && (Difference(b, a) == 0 <==> a == b)
  {
    DifferenceExactly(a, b);
  }
}
