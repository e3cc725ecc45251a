/** `groupby(["state", "district"]).sum()` and `merge(on=["state", "district"])`.

    A grouped table has one row per distinct key, in ascending key order
    (pandas sorts group keys by default; strings compare by code point),
    and each counter of a row is the sum of that counter over the input rows
    with the row's key.  The merge is an inner join. */
module Grouping {

  // ---------------------------------------------------------------------
  // Keys and their order
  // ---------------------------------------------------------------------

  datatype Key = Key(state: string, district: string)

  /** Code-point lexicographic order on strings. */
  predicate StrLess(a: string, b: string)
    decreases |a|
  {
    if a == [] then b != []
    else if b == [] then false
    else if a[0] != b[0] then a[0] < b[0]
    else StrLess(a[1..], b[1..])
  }

  lemma {:induction false} StrLessIrreflexive(a: string)
    ensures !StrLess(a, a)
    decreases |a|
  {
    if a != [] {
      StrLessIrreflexive(a[1..]);
    }
  }

  lemma {:induction false} StrLessTransitive(a: string, b: string, c: string)
    requires StrLess(a, b) && StrLess(b, c)
    ensures StrLess(a, c)
    decreases |a|
  {
    if a != [] && a[0] == b[0] && b[0] == c[0] {
      StrLessTransitive(a[1..], b[1..], c[1..]);
    }
  }

  lemma {:induction false} StrLessTotal(a: string, b: string)
    ensures a == b || StrLess(a, b) || StrLess(b, a)
    decreases |a|
  {
    if a != [] && b != [] && a[0] == b[0] {
      StrLessTotal(a[1..], b[1..]);
      if a[1..] == b[1..] {
        assert a == [a[0]] + a[1..] && b == [b[0]] + b[1..];
      }
    }
  }

  /** The order of a two-column group key: by state, then by district. */
  predicate KeyLess(a: Key, b: Key)
  {
    StrLess(a.state, b.state) || (a.state == b.state && StrLess(a.district, b.district))
  }

  lemma KeyLessIrreflexive(a: Key)
    ensures !KeyLess(a, a)
  {
    StrLessIrreflexive(a.state);
    StrLessIrreflexive(a.district);
  }

  lemma KeyLessTransitive(a: Key, b: Key, c: Key)
    requires KeyLess(a, b) && KeyLess(b, c)
    ensures KeyLess(a, c)
  {
    if StrLess(a.state, b.state) && StrLess(b.state, c.state) {
      StrLessTransitive(a.state, b.state, c.state);
    } else if a.state == b.state && b.state == c.state {
      StrLessTransitive(a.district, b.district, c.district);
    }
  }

  lemma KeyLessTotal(a: Key, b: Key)
    ensures a == b || KeyLess(a, b) || KeyLess(b, a)
  {
    StrLessTotal(a.state, b.state);
    StrLessTotal(a.district, b.district);
  }

  // ---------------------------------------------------------------------
  // Rows of counters
  // ---------------------------------------------------------------------

  /** A row: its group key and its integer counter columns. */
  datatype Tally = Tally(key: Key, counts: seq<nat>)

  /** Counter j of a row, 0 past the last column. */
  function At(c: seq<nat>, j: nat): nat
  {
    if j < |c| then c[j] else 0
  }

  function Max(a: nat, b: nat): nat
  {
    if a < b then b else a
  }

  /** Column-wise addition of two counter rows. */
  function AddCounts(a: seq<nat>, b: seq<nat>): (r: seq<nat>)
    ensures |r| == Max(|a|, |b|)
    ensures forall j :: At(r, j) == At(a, j) + At(b, j)
  {
    seq(Max(|a|, |b|), (j: int) requires 0 <= j => At(a, j) + At(b, j))
  }

  /** The keys of a table. */
  function KeySet(s: seq<Tally>): set<Key>
  {
    set i | 0 <= i < |s| :: s[i].key
  }

  /** Keys strictly increase down the table, so no key occurs twice. */
  ghost predicate StrictlyIncreasing(g: seq<Tally>)
  {
    forall i, j :: 0 <= i < j < |g| ==> KeyLess(g[i].key, g[j].key)
  }

  /** The sum of counter j over the rows with key k. */
  function KeySum(rows: seq<Tally>, k: Key, j: nat): nat
    decreases |rows|
  {
    if rows == [] then 0
    else (if rows[0].key == k then At(rows[0].counts, j) else 0) + KeySum(rows[1..], k, j)
  }

  /** The sum of counter j over all rows. */
  function ColumnSum(rows: seq<Tally>, j: nat): nat
    decreases |rows|
  {
    if rows == [] then 0 else At(rows[0].counts, j) + ColumnSum(rows[1..], j)
  }

  // ---------------------------------------------------------------------
  // groupby(...).sum()
  // ---------------------------------------------------------------------

  /** Adds one input row into a grouped table: into the row with the same
      key if there is one, otherwise as a new row at its place in key
      order. */
  function InsertTally(t: Tally, g: seq<Tally>): (r: seq<Tally>)
    requires StrictlyIncreasing(g)
    ensures StrictlyIncreasing(r)
    ensures KeySet(r) == KeySet(g) + {t.key}
    decreases |g|
  {
    if g == [] then
      assert [t][0] == t;
      [t]
    else if t.key == g[0].key then
      var r := [Tally(t.key, AddCounts(g[0].counts, t.counts))] + g[1..];
      assert forall i :: 0 < i < |r| ==> r[i] == g[i];
      assert KeySet(r) == KeySet(g) by {
        assert forall i :: 0 <= i < |r| ==> r[i].key == g[i].key;
      }
      r
    else if KeyLess(t.key, g[0].key) then
      var r := [t] + g;
      InsertBefore(t, g);
      r
    else
      var rest := InsertTally(t, g[1..]);
      InsertBehindHead(t, g, rest);
      [g[0]] + rest
  }

  lemma InsertBefore(t: Tally, g: seq<Tally>)
    requires StrictlyIncreasing(g) && g != [] && KeyLess(t.key, g[0].key)
    ensures StrictlyIncreasing([t] + g)
    ensures KeySet([t] + g) == KeySet(g) + {t.key}
  {
    var r := [t] + g;
    forall i, j | 0 <= i < j < |r| ensures KeyLess(r[i].key, r[j].key) {
      if i == 0 && j > 1 {
        KeyLessTransitive(t.key, g[0].key, g[j - 1].key);
      }
    }
    KeySetCons(t, g);
  }

  lemma KeySetCons(t: Tally, g: seq<Tally>)
    ensures KeySet([t] + g) == KeySet(g) + {t.key}
  {
    var r := [t] + g;
    forall k | k in KeySet(g) ensures k in KeySet(r) {
      var i :| 0 <= i < |g| && g[i].key == k;
      assert r[i + 1] == g[i];
    }
    assert r[0] == t;
  }

  lemma InsertBehindHead(t: Tally, g: seq<Tally>, rest: seq<Tally>)
    requires StrictlyIncreasing(g) && g != []
    requires t.key != g[0].key && !KeyLess(t.key, g[0].key)
    requires StrictlyIncreasing(rest) && KeySet(rest) == KeySet(g[1..]) + {t.key}
    ensures StrictlyIncreasing([g[0]] + rest)
    ensures KeySet([g[0]] + rest) == KeySet(g) + {t.key}
  {
    KeyLessTotal(t.key, g[0].key);
    var r := [g[0]] + rest;
    forall j | 0 < j < |r| ensures KeyLess(g[0].key, r[j].key) {
      var k := r[j].key;
      assert k == rest[j - 1].key;
      assert k in KeySet(rest);
      if k != t.key {
        var i :| 0 <= i < |g[1..]| && g[1..][i].key == k;
        assert g[i + 1].key == k;
      }
    }
    KeySetCons(g[0], rest);
    KeySetCons(g[0], g[1..]);
    assert [g[0]] + g[1..] == g;
  }

  /** `groupby(key).sum()`: one row per distinct key, in ascending key order. */
  function GroupSum(rows: seq<Tally>): (g: seq<Tally>)
    ensures StrictlyIncreasing(g)
    ensures KeySet(g) == KeySet(rows)
    decreases |rows|
  {
    if rows == [] then []
    else
      var g := InsertTally(rows[0], GroupSum(rows[1..]));
      KeySetCons(rows[0], rows[1..]);
      assert [rows[0]] + rows[1..] == rows;
      g
  }

  lemma {:induction false} InsertTallySums(t: Tally, g: seq<Tally>, k: Key, j: nat)
    requires StrictlyIncreasing(g)
    ensures KeySum(InsertTally(t, g), k, j)
      == KeySum(g, k, j) + (if t.key == k then At(t.counts, j) else 0)
    decreases |g|
  {
    if g == [] {
    } else if t.key == g[0].key {
      var r := InsertTally(t, g);
      assert r[1..] == g[1..];
    } else if KeyLess(t.key, g[0].key) {
      assert ([t] + g)[1..] == g;
    } else {
      InsertTallySums(t, g[1..], k, j);
      var rest := InsertTally(t, g[1..]);
      assert ([g[0]] + rest)[1..] == rest;
    }
  }

  lemma {:induction false} InsertTallyColumn(t: Tally, g: seq<Tally>, j: nat)
    requires StrictlyIncreasing(g)
    ensures ColumnSum(InsertTally(t, g), j) == ColumnSum(g, j) + At(t.counts, j)
    decreases |g|
  {
    if g == [] {
      assert ColumnSum([t], j) == At(t.counts, j) + ColumnSum([], j);
    } else if t.key == g[0].key {
      var r := InsertTally(t, g);
      assert r[1..] == g[1..];
    } else if KeyLess(t.key, g[0].key) {
      assert ([t] + g)[1..] == g;
    } else {
      InsertTallyColumn(t, g[1..], j);
      var rest := InsertTally(t, g[1..]);
      assert ([g[0]] + rest)[1..] == rest;
    }
  }

  /** Grouping keeps every per-key sum. */
  lemma {:induction false} GroupSumKeySums(rows: seq<Tally>, k: Key, j: nat)
    ensures KeySum(GroupSum(rows), k, j) == KeySum(rows, k, j)
    decreases |rows|
  {
    if rows != [] {
      GroupSumKeySums(rows[1..], k, j);
      InsertTallySums(rows[0], GroupSum(rows[1..]), k, j);
    }
  }

  /** In a table with distinct keys, the per-key sum is the key's own row. */
  lemma {:induction false} KeySumOfIncreasing(g: seq<Tally>, i: nat, j: nat)
    requires StrictlyIncreasing(g) && i < |g|
    ensures KeySum(g, g[i].key, j) == At(g[i].counts, j)
    decreases |g|
  {
    if i == 0 {
      KeySumAbsent(g[1..], g[0].key, j);
    } else {
      assert g[0].key != g[i].key by {
        KeyLessIrreflexive(g[i].key);
      }
      KeySumOfIncreasing(g[1..], i - 1, j);
    }
  }

  lemma {:induction false} KeySumAbsent(g: seq<Tally>, k: Key, j: nat)
    requires forall i :: 0 <= i < |g| ==> KeyLess(k, g[i].key)
    ensures KeySum(g, k, j) == 0
    decreases |g|
  {
    if g != [] {
      KeyLessIrreflexive(k);
      KeySumAbsent(g[1..], k, j);
    }
  }

  /** Each counter of a grouped row is the sum of that counter over the
      input rows with the row's key. */
  lemma GroupSumCounts(rows: seq<Tally>, i: nat, j: nat)
    requires i < |GroupSum(rows)|
    ensures At(GroupSum(rows)[i].counts, j) == KeySum(rows, GroupSum(rows)[i].key, j)
  {
    KeySumOfIncreasing(GroupSum(rows), i, j);
    GroupSumKeySums(rows, GroupSum(rows)[i].key, j);
  }

  /** Grouping conserves every column total. */
  lemma {:induction false} GroupSumConservesColumns(rows: seq<Tally>, j: nat)
    ensures ColumnSum(GroupSum(rows), j) == ColumnSum(rows, j)
    decreases |rows|
  {
    if rows != [] {
      GroupSumConservesColumns(rows[1..], j);
      InsertTallyColumn(rows[0], GroupSum(rows[1..]), j);
    }
  }

  /** A grouped table of w counters: every grouped row has w counters, each
      the per-key sum of that counter over the input. */
  lemma GroupSumTable(rows: seq<Tally>, w: nat)
    requires forall i :: 0 <= i < |rows| ==> |rows[i].counts| == w
    ensures forall i :: 0 <= i < |GroupSum(rows)| ==> |GroupSum(rows)[i].counts| == w
    ensures forall i: nat, j: nat :: i < |GroupSum(rows)| && j < w ==>
      GroupSum(rows)[i].counts[j] == KeySum(rows, GroupSum(rows)[i].key, j)
  {
    var g := GroupSum(rows);
    GroupSumWidth(rows, w);
    forall i: nat, j: nat | i < |g| && j < w ensures g[i].counts[j] == KeySum(rows, g[i].key, j) {
      GroupSumCounts(rows, i, j);
    }
  }

  /** When every input row has w counters, so does every grouped row. */
  lemma {:induction false} GroupSumWidth(rows: seq<Tally>, w: nat)
    requires forall i :: 0 <= i < |rows| ==> |rows[i].counts| == w
    ensures forall i :: 0 <= i < |GroupSum(rows)| ==> |GroupSum(rows)[i].counts| == w
    decreases |rows|
  {
    if rows != [] {
      GroupSumWidth(rows[1..], w);
      InsertTallyWidth(rows[0], GroupSum(rows[1..]), w);
    }
  }

  lemma {:induction false} InsertTallyWidth(t: Tally, g: seq<Tally>, w: nat)
    requires StrictlyIncreasing(g)
    requires |t.counts| == w && forall i :: 0 <= i < |g| ==> |g[i].counts| == w
    ensures forall i :: 0 <= i < |InsertTally(t, g)| ==> |InsertTally(t, g)[i].counts| == w
    decreases |g|
  {
    if g != [] && t.key != g[0].key && !KeyLess(t.key, g[0].key) {
      InsertTallyWidth(t, g[1..], w);
    }
  }

  // ---------------------------------------------------------------------
  // merge(on=key): inner join
  // ---------------------------------------------------------------------

  /** A merged row: the key and the counters of the left and right rows. */
  datatype Joined = Joined(key: Key, left: seq<nat>, right: seq<nat>)

  /** The merged rows for one left row: one per right row with its key, in
      the right table's order. */
  function Matches(x: Tally, r: seq<Tally>): (m: seq<Joined>)
    ensures forall row :: row in m <==>
      exists y :: y in r && y.key == x.key && row == Joined(x.key, x.counts, y.counts)
    decreases |r|
  {
    if r == [] then []
    else
      assert r == [r[0]] + r[1..];
      (if r[0].key == x.key then [Joined(x.key, x.counts, r[0].counts)] else []) + Matches(x, r[1..])
  }

  /** `left.merge(right, on=key)` with the default inner join: a row for
      every pair of a left row and a right row with the same key, in the
      left table's order. */
  function InnerJoin(l: seq<Tally>, r: seq<Tally>): (j: seq<Joined>)
    ensures forall row :: row in j <==>
      exists x, y :: x in l && y in r && x.key == y.key && row == Joined(x.key, x.counts, y.counts)
    decreases |l|
  {
    if l == [] then []
    else
      assert l == [l[0]] + l[1..];
      Matches(l[0], r) + InnerJoin(l[1..], r)
  }

  /** The keys of a merged table. */
  function JoinKeys(j: seq<Joined>): set<Key>
  {
    set i | 0 <= i < |j| :: j[i].key
  }

  /** The merged keys are exactly the keys present in both tables:
      districts found in only one table are dropped. */
  lemma InnerJoinKeys(l: seq<Tally>, r: seq<Tally>)
    ensures JoinKeys(InnerJoin(l, r)) == KeySet(l) * KeySet(r)
  {
    var j := InnerJoin(l, r);
    forall k | k in JoinKeys(j) ensures k in KeySet(l) * KeySet(r) {
      var i :| 0 <= i < |j| && j[i].key == k;
      assert j[i] in j;
      var x, y :| x in l && y in r && x.key == y.key && j[i] == Joined(x.key, x.counts, y.counts);
      InKeySet(l, x);
      InKeySet(r, y);
    }
    forall k | k in KeySet(l) * KeySet(r) ensures k in JoinKeys(j) {
      var a :| 0 <= a < |l| && l[a].key == k;
      var b :| 0 <= b < |r| && r[b].key == k;
      var row := Joined(k, l[a].counts, r[b].counts);
      assert l[a] in l && r[b] in r;
      assert row in j;
      var i :| 0 <= i < |j| && j[i] == row;
    }
  }

  lemma InKeySet(s: seq<Tally>, x: Tally)
    requires x in s
    ensures x.key in KeySet(s)
  {
    var i :| 0 <= i < |s| && s[i] == x;
  }

  ghost predicate JoinIncreasing(j: seq<Joined>)
  {
    forall a, b :: 0 <= a < b < |j| ==> KeyLess(j[a].key, j[b].key)
  }

  /** Against a table with distinct keys a left row has at most one match. */
  lemma {:induction false} MatchesOfIncreasing(x: Tally, r: seq<Tally>)
    requires StrictlyIncreasing(r)
    ensures |Matches(x, r)| <= 1
    ensures forall row :: row in Matches(x, r) ==> row.key == x.key
    decreases |r|
  {
    if r != [] {
      MatchesOfIncreasing(x, r[1..]);
      if r[0].key == x.key {
        var tail := r[1..];
        assert forall i :: 0 <= i < |tail| ==> KeyLess(r[0].key, tail[i].key) by {
          forall i | 0 <= i < |tail| ensures KeyLess(r[0].key, tail[i].key) {
            assert tail[i] == r[i + 1];
          }
        }
        AboveKeysAbsent(tail, x.key);
        MatchesAbsent(x, tail);
      }
    }
  }

  lemma {:induction false} MatchesAbsent(x: Tally, r: seq<Tally>)
    requires forall y :: y in r ==> y.key != x.key
    ensures Matches(x, r) == []
    decreases |r|
  {
    if r != [] {
      assert r[0] in r;
      MatchesAbsent(x, r[1..]);
    }
  }

  lemma AboveKeysAbsent(g: seq<Tally>, k: Key)
    requires forall i :: 0 <= i < |g| ==> KeyLess(k, g[i].key)
    ensures forall y :: y in g ==> y.key != k
  {
    KeyLessIrreflexive(k);
  }

  /** Merging two grouped tables gives one row per common key, still in
      ascending key order. */
  lemma {:induction false} InnerJoinOfGrouped(l: seq<Tally>, r: seq<Tally>)
    requires StrictlyIncreasing(l) && StrictlyIncreasing(r)
    ensures JoinIncreasing(InnerJoin(l, r))
    ensures |InnerJoin(l, r)| <= |l|
    decreases |l|
  {
    if l != [] {
      InnerJoinOfGrouped(l[1..], r);
      MatchesOfIncreasing(l[0], r);
      var m := Matches(l[0], r);
      var rest := InnerJoin(l[1..], r);
      var j := m + rest;
      forall a, b | 0 <= a < b < |j| ensures KeyLess(j[a].key, j[b].key) {
        if a < |m| {
          assert j[a] in m;
          assert j[b] in rest;
          var x, y :| x in l[1..] && y in r && x.key == y.key && j[b] == Joined(x.key, x.counts, y.counts);
          var i :| 0 <= i < |l[1..]| && l[1..][i] == x;
          assert l[i + 1] == x;
        } else {
          assert j[a] == rest[a - |m|] && j[b] == rest[b - |m|];
        }
      }
    }
  }
}
