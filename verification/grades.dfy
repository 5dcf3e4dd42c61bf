/**
 * The grade clamp shared by `Student` (src/matrix22/Student.java) and
 * `Internship` (test/matrix22/Internship.java). Grades are modelled as `real`:
 * the program only compares and assigns them, never computes with them.
 */
module Grades {

  /** The range a clamped grade is guaranteed to lie in. Note that it is the
      half-open interval (0, 10], not [1, 10]: inputs strictly between 0 and 1
      are kept as they are. */
  predicate InRange(g: real) {
    0.0 < g <= 10.0
  }

  /** An input at or below 0 becomes 1, an input above 10 becomes 10, and any
      other input is kept unchanged. */
  function Clamp(g: real): (r: real)
    ensures InRange(r)
    ensures InRange(g) ==> r == g
  {
    if g <= 0.0 then 1.0
    else if g > 10.0 then 10.0
    else g
  }

  /** Out-of-range inputs are replaced by the bound on their side, except that
      the low side is replaced by 1 rather than by the infimum 0. */
  lemma ClampOutOfRange(g: real)
    ensures g <= 0.0 ==> Clamp(g) == 1.0
    ensures g > 10.0 ==> Clamp(g) == 10.0
  {
  }

  /** Exactly the grades in range are left alone. */
  lemma ClampFixedPoints(g: real)
    ensures Clamp(g) == g <==> InRange(g)
  {
  }

  /** Clamping a stored grade again changes nothing. */
  lemma ClampIdempotent(g: real)
    ensures Clamp(Clamp(g)) == Clamp(g)
  {
  }

  /** The clamp is not monotone and its range reaches below 1: 0 becomes 1 while
      the larger input 0.5 stays 0.5. */
  lemma ClampNotMonotone()
    ensures 0.0 < 0.5 && Clamp(0.0) > Clamp(0.5)
    ensures Clamp(0.5) < 1.0
  {
  }
}
