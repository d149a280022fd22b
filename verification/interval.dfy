/**
 The overlap test shared by the conflict check and the availability query.
 Windows are half-open, `[start, end)`, in integer milliseconds.
 */
module Interval {

  /** Whether `[s1, e1)` and `[s2, e2)` overlap: both comparisons are strict,
      so windows that only touch at an endpoint do not. */
  predicate Overlaps(s1: int, e1: int, s2: int, e2: int)
  {
    s1 < e2 && e1 > s2
  }

  /** The order in which the two windows are given does not matter. */
  lemma OverlapsSymmetric(s1: int, e1: int, s2: int, e2: int)
    ensures Overlaps(s1, e1, s2, e2) <==> Overlaps(s2, e2, s1, e1)
  {
  }

  /** A window ending exactly where another starts does not overlap it. */
  lemma TouchingWindowsDoNotOverlap(s1: int, m: int, e2: int)
    ensures !Overlaps(s1, m, m, e2)
    ensures !Overlaps(m, e2, s1, m)
  {
  }

  /** A window overlaps itself exactly when it is non-empty; a zero-hour
      window `[s, s)` overlaps nothing that starts at `s`. */
  lemma OverlapsItselfIffNonEmpty(s: int, e: int)
    ensures Overlaps(s, e, s, e) <==> s < e
  {
  }

  /** Instant `t` lies in `[s, e)`. */
  predicate Contains(s: int, e: int, t: int)
  {
    s <= t < e
  }

  /** On non-empty windows the strict test agrees with the meaning of
      "overlap": both windows contain some common instant. */
  lemma OverlapsIffSharedInstant(s1: int, e1: int, s2: int, e2: int)
    requires s1 < e1 && s2 < e2
    ensures Overlaps(s1, e1, s2, e2) <==> exists t :: Contains(s1, e1, t) && Contains(s2, e2, t)
  {
    if Overlaps(s1, e1, s2, e2) {
      var t := if s1 < s2 then s2 else s1;
      assert Contains(s1, e1, t) && Contains(s2, e2, t);
    }
  }

  /** A zero-length window `[t, t)` contains no instant, yet the strict test
      reports it as overlapping every window that holds `t` strictly inside. */
  lemma EmptyWindowOverlapsIffStrictlyInside(t: int, s: int, e: int)
    ensures Overlaps(t, t, s, e) <==> s < t < e
  {
  }
}
