/** Exact ratios with an explicit "undefined" value.

    The notebooks divide integer counters by a denominator column in which
    0 has been replaced by NaN, so a zero denominator yields NaN.  Counters
    are natural numbers, so every defined ratio is an exact rational: here it
    is a `real`, and NaN is `None`.
 */
module Ratios {

  datatype Option<+T> = None | Some(value: T)

  /** `n / d.replace(0, nan)`: undefined exactly when the denominator is zero. */
  function Div(n: nat, d: nat): (r: Option<real>)
    ensures r.None? <==> d == 0
    ensures r.Some? ==> r.value * d as real == n as real
    ensures r.Some? ==> r.value >= 0.0
  {
    if d == 0 then None else Some(n as real / d as real)
  }

  /** Addition of two float columns: NaN on either side gives NaN. */
  function Plus(a: Option<real>, b: Option<real>): (r: Option<real>)
    ensures r.Some? <==> a.Some? && b.Some?
    ensures r.Some? ==> r.value == a.value + b.value
  {
    if a.Some? && b.Some? then Some(a.value + b.value) else None
  }

  /** A comparison `x > c`, `x <= c` or `x >= c` against NaN is false, so a
      boolean mask built from a float column only keeps defined values. */
  predicate Exceeds(a: Option<real>, c: real)
  {
    a.Some? && a.value > c
  }

  predicate AtMost(a: Option<real>, c: real)
  {
    a.Some? && a.value <= c
  }

  predicate AtLeast(a: Option<real>, c: real)
  {
    a.Some? && a.value >= c
  }

  /** The two ratios over one denominator add up to the ratio of the sums. */
  lemma DivAdds(a: nat, b: nat, d: nat)
    ensures Plus(Div(a, d), Div(b, d)) == Div(a + b, d)
  {
    if d > 0 {
      assert a as real / d as real + b as real / d as real == (a + b) as real / d as real;
    }
  }

  /** A part over a whole lies in [0, 1]. */
  lemma DivPartOfWhole(part: nat, whole: nat)
    requires part <= whole
    ensures Div(part, whole).Some? ==> 0.0 <= Div(part, whole).value <= 1.0
  {
    if whole > 0 {
      var r := Div(part, whole).value;
      assert r * whole as real == part as real;
    }
  }
}
