/** Row selection as the notebooks use it on data frames: boolean masks
    (`frame[mask]`), `sort_values` with NaN placed last, and `head(n)`.
 */
module Selection {
  import opened Ratios

  // ---------------------------------------------------------------------
  // Boolean masks
  // ---------------------------------------------------------------------

  /** `frame[mask]`: the rows that satisfy `p`, in their original order. */
  function Filter<T(!new)>(s: seq<T>, p: T -> bool): (r: seq<T>)
    ensures |r| <= |s|
    ensures forall x :: x in r <==> x in s && p(x)
    ensures forall x :: multiset(r)[x] == if p(x) then multiset(s)[x] else 0
    decreases |s|
  {
    if s == [] then []
    else
      assert s == [s[0]] + s[1..];
      (if p(s[0]) then [s[0]] else []) + Filter(s[1..], p)
  }

  /** `a` is obtained from `b` by deleting elements, keeping the order. */
  ghost predicate SubsequenceOf<T>(a: seq<T>, b: seq<T>)
    decreases |b|
  {
    a == [] || (b != [] && ((a[0] == b[0] && SubsequenceOf(a[1..], b[1..])) || SubsequenceOf(a, b[1..])))
  }

  /** A mask keeps the order of the rows it keeps. */
  lemma {:induction false} FilterKeepsOrder<T(!new)>(s: seq<T>, p: T -> bool)
    ensures SubsequenceOf(Filter(s, p), s)
    decreases |s|
  {
    if s != [] {
      FilterKeepsOrder(s[1..], p);
      var r := Filter(s[1..], p);
      if p(s[0]) {
        assert Filter(s, p) == [s[0]] + r;
        assert ([s[0]] + r)[1..] == r;
      } else {
        assert Filter(s, p) == r;
      }
    }
  }

  /** Filtering by a stricter mask after a looser one is the same as
      filtering by the stricter mask alone; in particular it yields a
      sub-table of the looser result. */
  lemma {:induction false} FilterNarrower<T(!new)>(s: seq<T>, p: T -> bool, q: T -> bool)
    requires forall x :: q(x) ==> p(x)
    ensures Filter(Filter(s, p), q) == Filter(s, q)
    decreases |s|
  {
    if s != [] {
      var tail := s[1..];
      FilterNarrower(tail, p, q);
      var loose := Filter(tail, p);
      if p(s[0]) {
        assert Filter(s, p) == [s[0]] + loose;
        assert ([s[0]] + loose)[1..] == loose;
        assert Filter([s[0]] + loose, q) == (if q(s[0]) then [s[0]] else []) + Filter(loose, q);
      } else {
        assert Filter(s, p) == loose;
      }
    }
  }

  // ---------------------------------------------------------------------
  // sort_values(key, ascending=..., na_position="last")
  // ---------------------------------------------------------------------

  datatype Direction = Ascending | Descending

  /** Whether a row with key `a` may stand before a row with key `b` after
      sorting in direction `dir`: NaN comes last in either direction. */
  predicate Precedes(a: Option<real>, b: Option<real>, dir: Direction)
  {
    if a.None? then b.None?
    else if b.None? then true
    else if dir == Ascending then a.value <= b.value
    else a.value >= b.value
  }

  lemma PrecedesTotal(a: Option<real>, b: Option<real>, dir: Direction)
    ensures Precedes(a, b, dir) || Precedes(b, a, dir)
  {
  }

  lemma PrecedesTransitive(a: Option<real>, b: Option<real>, c: Option<real>, dir: Direction)
    requires Precedes(a, b, dir) && Precedes(b, c, dir)
    ensures Precedes(a, c, dir)
  {
  }

  ghost predicate SortedBy<T>(s: seq<T>, key: T -> Option<real>, dir: Direction)
  {
    forall i, j :: 0 <= i < j < |s| ==> Precedes(key(s[i]), key(s[j]), dir)
  }

  /** Inserts `x` into a sorted sequence before the first element it may
      precede. */
  function Insert<T>(x: T, s: seq<T>, key: T -> Option<real>, dir: Direction): (r: seq<T>)
    requires SortedBy(s, key, dir)
    ensures |r| == |s| + 1
    ensures multiset(r) == multiset(s) + multiset{x}
    ensures SortedBy(r, key, dir)
    decreases |s|
  {
    if s == [] then [x]
    else if Precedes(key(x), key(s[0]), dir) then
      InsertFront(x, s, key, dir);
      [x] + s
    else
      var rest := Insert(x, s[1..], key, dir);
      assert s == [s[0]] + s[1..];
      InsertBehind(x, s, rest, key, dir);
      [s[0]] + rest
  }

  lemma InsertFront<T>(x: T, s: seq<T>, key: T -> Option<real>, dir: Direction)
    requires SortedBy(s, key, dir) && s != []
    requires Precedes(key(x), key(s[0]), dir)
    ensures SortedBy([x] + s, key, dir)
  {
    var r := [x] + s;
    forall i, j | 0 <= i < j < |r| ensures Precedes(key(r[i]), key(r[j]), dir) {
      if i == 0 && j > 1 {
        PrecedesTransitive(key(x), key(s[0]), key(s[j - 1]), dir);
      }
    }
  }

  lemma InsertBehind<T>(x: T, s: seq<T>, rest: seq<T>, key: T -> Option<real>, dir: Direction)
    requires SortedBy(s, key, dir) && s != []
    requires !Precedes(key(x), key(s[0]), dir)
    requires SortedBy(rest, key, dir)
    requires multiset(rest) == multiset(s[1..]) + multiset{x}
    ensures SortedBy([s[0]] + rest, key, dir)
  {
    PrecedesTotal(key(x), key(s[0]), dir);
    var r := [s[0]] + rest;
    forall j | 0 < j < |r| ensures Precedes(key(s[0]), key(r[j]), dir) {
      var y := r[j];
      assert y in multiset(rest) by { assert y == rest[j - 1]; }
      if y != x {
        assert y in multiset(s[1..]);
        var k :| 0 <= k < |s[1..]| && s[1..][k] == y;
        assert s[k + 1] == y;
      }
    }
  }

  /** A sort in the given direction: a permutation of `s` that is sorted by `key`. */
  function SortBy<T>(s: seq<T>, key: T -> Option<real>, dir: Direction): (r: seq<T>)
    ensures |r| == |s|
    ensures multiset(r) == multiset(s)
    ensures SortedBy(r, key, dir)
    decreases |s|
  {
    if s == [] then []
    else
      assert s == [s[0]] + s[1..];
      Insert(s[0], SortBy(s[1..], key, dir), key, dir)
  }

  // ---------------------------------------------------------------------
  // head(n)
  // ---------------------------------------------------------------------

  function Min(a: nat, b: nat): nat
  {
    if a < b then a else b
  }

  /** `head(n)`: the first n rows, or all of them when there are fewer. */
  function Head<T>(s: seq<T>, n: nat): (r: seq<T>)
    ensures |r| == Min(n, |s|)
    ensures r == s[..|r|]
  {
    s[..Min(n, |s|)]
  }

  /** `sort_values(...).head(n)`: the n best-ranked rows.  It has
      min(n, |s|) rows, all drawn from `s`, sorted, and every row of `s`
      left out ranks no higher than every row chosen. */
  function TopBy<T(!new)>(s: seq<T>, n: nat, key: T -> Option<real>, dir: Direction): (r: seq<T>)
    ensures |r| == Min(n, |s|)
    ensures multiset(r) <= multiset(s)
    ensures SortedBy(r, key, dir)
    ensures forall x, y :: x in r && y in multiset(s) - multiset(r) ==> Precedes(key(x), key(y), dir)
  {
    var sorted := SortBy(s, key, dir);
    var r := Head(sorted, n);
    HeadRanksFirst(sorted, n, key, dir);
    r
  }

  lemma HeadRanksFirst<T>(sorted: seq<T>, n: nat, key: T -> Option<real>, dir: Direction)
    requires SortedBy(sorted, key, dir)
    ensures multiset(Head(sorted, n)) <= multiset(sorted)
    ensures forall x, y :: x in Head(sorted, n) && y in multiset(sorted) - multiset(Head(sorted, n)) ==>
      Precedes(key(x), key(y), dir)
  {
    var r := Head(sorted, n);
    var rest := sorted[|r|..];
    assert sorted == r + rest;
    assert multiset(sorted) == multiset(r) + multiset(rest);
    forall x, y | x in r && y in multiset(sorted) - multiset(r)
      ensures Precedes(key(x), key(y), dir)
    {
      assert y in multiset(rest);
      var i :| 0 <= i < |r| && r[i] == x;
      var j :| 0 <= j < |rest| && rest[j] == y;
      assert sorted[i] == x && sorted[|r| + j] == y;
    }
  }

  // ---------------------------------------------------------------------
  // Distinct elements
  // ---------------------------------------------------------------------

  ghost predicate Distinct<T>(s: seq<T>)
  {
    forall i, j :: 0 <= i < j < |s| ==> s[i] != s[j]
  }

  lemma {:induction false} DistinctOccursOnce<T>(s: seq<T>)
    requires Distinct(s)
    ensures forall x :: multiset(s)[x] <= 1
    decreases |s|
  {
    if s != [] {
      assert s == [s[0]] + s[1..];
      DistinctOccursOnce(s[1..]);
      assert s[0] !in s[1..];
    }
  }

  lemma RepeatOccursTwice<T>(s: seq<T>, i: int, j: int)
    requires 0 <= i < j < |s| && s[i] == s[j]
    ensures multiset(s)[s[i]] >= 2
  {
    assert s == s[..j] + s[j..];
    assert s[i] in s[..j];
    assert s[j] in s[j..];
  }

  /** Any sub-multiset of a duplicate-free sequence is duplicate-free. */
  lemma DistinctSubmultiset<T>(s: seq<T>, t: seq<T>)
    requires Distinct(s) && multiset(t) <= multiset(s)
    ensures Distinct(t)
  {
    DistinctOccursOnce(s);
    forall i, j | 0 <= i < j < |t| ensures t[i] != t[j] {
      if t[i] == t[j] {
        RepeatOccursTwice(t, i, j);
      }
    }
  }
}
