/**
 The ride-duration estimator and the booking window it induces.

 The estimator maps two pincodes to a whole number of hours: the distance
 between the codes, wrapped modulo 24. A window starts at a timestamp in
 integer milliseconds and lasts that many hours.
 */
module Duration {

  /** Milliseconds in one hour (`60 * 60 * 1000` in the controllers). */
  const MsPerHour: int := 60 * 60 * 1000

  function Abs(x: int): (r: nat)
    ensures r == x || r == -x
  {
    if x < 0 then -x else x
  }

  /** Estimated ride duration in hours between two pincodes: the remainder of
      their distance modulo 24, so always an hour count in [0, 23]. */
  function CalculateDuration(fromPincode: int, toPincode: int): (hours: nat)
    ensures hours < 24
    ensures (Abs(fromPincode - toPincode) - hours) % 24 == 0
  {
    Abs(fromPincode - toPincode) % 24
  }

  /** End of the window that starts at `start` and lasts the estimated
      duration between the two pincodes. */
  function WindowEnd(start: int, fromPincode: int, toPincode: int): (end: int)
    ensures start <= end <= start + 23 * MsPerHour
    ensures (end - start) % MsPerHour == 0
  {
    start + CalculateDuration(fromPincode, toPincode) * MsPerHour
  }

  /** The estimate does not depend on the direction of travel. */
  lemma DurationSymmetric(a: int, b: int)
    ensures CalculateDuration(a, b) == CalculateDuration(b, a)
  {
  }

  /** The estimate is the unique hour count in [0, 23] congruent to the
      distance modulo 24. */
  lemma DurationIsDistanceRemainder(a: int, b: int, h: int)
    requires 0 <= h < 24
    requires (Abs(a - b) - h) % 24 == 0
    ensures CalculateDuration(a, b) == h
  {
  }

  /** Adding a full day's worth of code distance in the same direction does
      not change the estimate. */
  lemma DurationWrapsForward(a: int, b: int, k: nat)
    requires a <= b
    ensures CalculateDuration(a, b + 24 * k) == CalculateDuration(a, b)
  {
  }

  /** Codes a whole number of days apart, in either direction, give a zero
      hour trip: the degenerate case of the wrap-around. */
  lemma DurationZeroAtMultiplesOf24(a: int, k: int)
    ensures CalculateDuration(a, a + 24 * k) == 0
  {
  }

  /** The concrete values the estimator's tests expect. */
  lemma DurationTestValues()
    ensures CalculateDuration(100001, 100020) == 19
    ensures CalculateDuration(100020, 100001) == 19
    ensures CalculateDuration(110001, 110005) == 4
    ensures CalculateDuration(100001, 100025) == 0
    ensures CalculateDuration(100001, 100049) == 0
  {
  }
}
