/** Order statistics as pandas computes them on a float column: NaN
    entries are skipped, quantiles use linear interpolation between the two
    nearest order statistics, and the median is the middle value. */
module Stats {
  import opened Ratios
  import opened Selection

  /** The defined (non-NaN) entries of a column, in order: each value
      occurs as often as the column holds it, so no duplicate is lost. */
  function Defined(col: seq<Option<real>>): (r: seq<real>)
    ensures |r| <= |col|
    ensures forall x :: x in r <==> Some(x) in col
    ensures forall x :: multiset(r)[x] == multiset(col)[Some(x)]
    decreases |col|
  {
    if col == [] then []
    else
      assert col == [col[0]] + col[1..];
      assert multiset(col) == multiset{col[0]} + multiset(col[1..]);
      (if col[0].Some? then [col[0].value] else []) + Defined(col[1..])
  }

  /** A defined value comes from some entry of the column. */
  lemma DefinedAt(col: seq<Option<real>>, x: real) returns (i: nat)
    requires x in Defined(col)
    ensures i < |col| && col[i] == Some(x)
  {
    assert Some(x) in col;
    i :| i < |col| && col[i] == Some(x);
  }

  /** A column with no defined value holds NaN everywhere. */
  lemma DefinedNone(col: seq<Option<real>>, i: nat)
    requires Defined(col) == [] && i < |col|
    ensures col[i].None?
  {
    assert col[i] in col;
  }

  function AsKey(x: real): Option<real>
  {
    Some(x)
  }

  /** The values in non-decreasing order. */
  function Sorted(xs: seq<real>): (v: seq<real>)
    ensures |v| == |xs|
    ensures multiset(v) == multiset(xs)
    ensures forall i, j :: 0 <= i <= j < |v| ==> v[i] <= v[j]
  {
    var v := SortBy(xs, AsKey, Ascending);
    assert forall i, j :: 0 <= i < j < |v| ==> Precedes(AsKey(v[i]), AsKey(v[j]), Ascending);
    v
  }

  /** `quantile(q)` with linear interpolation: the position q * (n - 1) in
      the sorted values is split into a whole part i and a fraction f, and
      the result is v[i] + f * (v[i + 1] - v[i]).  No values give NaN.  The
      result lies between the two order statistics around that position, so
      some value is at most it and some value is at least it. */
  function Quantile(xs: seq<real>, q: real): (r: Option<real>)
    requires 0.0 <= q <= 1.0
    ensures r.Some? <==> |xs| > 0
    ensures r.Some? ==> exists x :: x in xs && x <= r.value
    ensures r.Some? ==> exists x :: x in xs && x >= r.value
  {
    if |xs| == 0 then None
    else
      var v := Sorted(xs);
      var last: nat := |v| - 1;
      FloorBounds(q, last);
      var pos := q * last as real;
      var r := Interpolate(v, pos);
      QuantileWitnesses(xs, v, pos, r);
      Some(r)
  }

  /** Linear interpolation in sorted values at a fractional position: the
      result lies between the order statistics just below and just above
      the position. */
  function Interpolate(v: seq<real>, pos: real): (r: real)
    requires 0 <= pos.Floor < |v|
    requires forall i, j :: 0 <= i <= j < |v| ==> v[i] <= v[j]
    ensures v[pos.Floor] <= r <= v[Above(pos.Floor, |v|)]
  {
    var i := pos.Floor;
    var f := pos - i as real;
    if i + 1 < |v| then
      InterpolationBounds(v[i], v[i + 1], f);
      v[i] + f * (v[i + 1] - v[i])
    else
      v[i]
  }

  /** The index of the order statistic just above index i, or i itself at the end. */
  function Above(i: nat, n: nat): nat
  {
    if i + 1 < n then i + 1 else i
  }

  lemma QuantileWitnesses(xs: seq<real>, v: seq<real>, pos: real, r: real)
    requires v == Sorted(xs)
    requires 0 <= pos.Floor < |v|
    requires v[pos.Floor] <= r <= v[Above(pos.Floor, |v|)]
    ensures exists x :: x in xs && x <= r
    ensures exists x :: x in xs && x >= r
  {
    var lo, hi := v[pos.Floor], v[Above(pos.Floor, |v|)];
    assert lo in multiset(v) && hi in multiset(v);
    assert lo in xs && hi in xs;
  }

  lemma FloorBounds(q: real, m: nat)
    requires 0.0 <= q <= 1.0
    ensures 0 <= (q * m as real).Floor <= m
    ensures 0 <= (q * m as real).Floor < m + 1
  {
    ProductNonNegative(q, m as real);
    ProductNonNegative(1.0 - q, m as real);
  }

  lemma InterpolationBounds(a: real, b: real, f: real)
    requires a <= b && 0.0 <= f < 1.0
    ensures a <= a + f * (b - a) <= b
  {
    ProductNonNegative(1.0 - f, b - a);
    ProductNonNegative(f, b - a);
  }

  lemma ProductNonNegative(a: real, b: real)
    requires a >= 0.0 && b >= 0.0
    ensures a * b >= 0.0
  {
  }

  /** Position 0 is the smallest value and position 1 the largest. */
  lemma QuantileExtremes(xs: seq<real>)
    requires |xs| > 0
    ensures forall x :: x in xs ==> Quantile(xs, 0.0).value <= x <= Quantile(xs, 1.0).value
  {
    var v := Sorted(xs);
    var n := |v|;
    assert (0.0 * (n - 1) as real).Floor == 0;
    assert (1.0 * (n - 1) as real).Floor == n - 1;
    assert Quantile(xs, 0.0).value == v[0];
    assert Quantile(xs, 1.0).value == v[n - 1];
    forall x | x in xs ensures v[0] <= x <= v[n - 1] {
      assert x in multiset(v);
    }
  }

  /** `median()`: the middle value, or the mean of the two middle values
      when the count is even; NaN for no values. */
  function Median(xs: seq<real>): (r: Option<real>)
    ensures r.Some? <==> |xs| > 0
  {
    if |xs| == 0 then None
    else
      var v := Sorted(xs);
      var n := |v|;
      if n % 2 == 1 then Some(v[n / 2]) else Some((v[n / 2 - 1] + v[n / 2]) / 2.0)
  }

  /** The median is the 0.5 quantile under linear interpolation. */
  lemma MedianIsHalfQuantile(xs: seq<real>)
    ensures Median(xs) == Quantile(xs, 0.5)
  {
    if |xs| > 0 {
      var v := Sorted(xs);
      HalfQuantile(xs);
      InterpolateMiddle(v);
    }
  }

  lemma HalfQuantile(xs: seq<real>)
    requires |xs| > 0
    ensures 0 <= (0.5 * (|xs| - 1) as real).Floor < |xs|
    ensures Quantile(xs, 0.5) == Some(Interpolate(Sorted(xs), 0.5 * (|xs| - 1) as real))
  {
    FloorBounds(0.5, |xs| - 1);
  }

  /** Interpolating at the half position gives the middle value, or the mean
      of the two middle values. */
  lemma InterpolateMiddle(v: seq<real>)
    requires |v| > 0
    requires forall i, j :: 0 <= i <= j < |v| ==> v[i] <= v[j]
    ensures 0 <= (0.5 * (|v| - 1) as real).Floor < |v|
    ensures Interpolate(v, 0.5 * (|v| - 1) as real)
      == if |v| % 2 == 1 then v[|v| / 2] else (v[|v| / 2 - 1] + v[|v| / 2]) / 2.0
  {
    var n := |v|;
    var pos := 0.5 * (n - 1) as real;
    if n % 2 == 1 {
      OddMiddle(n);
      var h := n / 2;
      if h + 1 < n {
        assert pos - h as real == 0.0;
        assert Interpolate(v, pos) == v[h] + 0.0 * (v[h + 1] - v[h]);
      }
    } else {
      EvenMiddle(n);
      MeanIsHalfway(v[n / 2 - 1], v[n / 2]);
    }
  }

  /** For an odd count the half position is the whole middle index. */
  lemma OddMiddle(n: nat)
    requires n % 2 == 1
    ensures (0.5 * (n - 1) as real).Floor == n / 2
    ensures 0.5 * (n - 1) as real == (n / 2) as real
  {
    assert (n - 1) as real == 2.0 * (n / 2) as real;
  }

  /** For an even count the half position lies midway between the two
      middle indices. */
  lemma EvenMiddle(n: nat)
    requires n % 2 == 0 && n > 0
    ensures (0.5 * (n - 1) as real).Floor == n / 2 - 1
    ensures 0.5 * (n - 1) as real - (n / 2 - 1) as real == 0.5
  {
    assert (n - 1) as real == 2.0 * (n / 2 - 1) as real + 1.0;
  }

  lemma MeanIsHalfway(a: real, b: real)
    ensures a + 0.5 * (b - a) == (a + b) / 2.0
  {
  }
}
