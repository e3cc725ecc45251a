/** Age-driven service pressure per district: how much of a district's
    update activity comes from adults (17 and over).

    Demographic and biometric update rows are summed to districts
    separately and merged; each district gets its activity per age band, its
    total and its adult share; the districts whose total is at or above the
    0.75 quantile of the totals are kept (not a fixed quarter: ties at the
    threshold keep more), and the ten most adult-heavy and the ten most
    child-heavy of them are selected, with the median share as reference. */
module AgePressure {
  import opened Ratios
  import opened Selection
  import opened Stats
  import opened Grouping

  // ---------------------------------------------------------------------
  // Input and district aggregation
  // ---------------------------------------------------------------------

  /** One demographic-update row: its labels and its counts per age band. */
  datatype DemoRecord = DemoRecord(state: string, district: string, demoAge5to17: nat, demoAge17plus: nat)

  /** One biometric-update row: its labels and its counts per age band. */
  datatype BioRecord = BioRecord(state: string, district: string, bioAge5to17: nat, bioAge17plus: nat)

  /** Counter columns of the district sums, in this order. */
  const Young: nat := 0
  const Adult: nat := 1

  function DemoTallies(ds: seq<DemoRecord>): (ts: seq<Tally>)
    ensures |ts| == |ds|
    ensures forall i :: 0 <= i < |ds| ==>
      ts[i] == Tally(Key(ds[i].state, ds[i].district), [ds[i].demoAge5to17, ds[i].demoAge17plus])
  {
    seq(|ds|, (i: int) requires 0 <= i < |ds| =>
      Tally(Key(ds[i].state, ds[i].district), [ds[i].demoAge5to17, ds[i].demoAge17plus]))
  }

  function BioTallies(bs: seq<BioRecord>): (ts: seq<Tally>)
    ensures |ts| == |bs|
    ensures forall i :: 0 <= i < |bs| ==>
      ts[i] == Tally(Key(bs[i].state, bs[i].district), [bs[i].bioAge5to17, bs[i].bioAge17plus])
  {
    seq(|bs|, (i: int) requires 0 <= i < |bs| =>
      Tally(Key(bs[i].state, bs[i].district), [bs[i].bioAge5to17, bs[i].bioAge17plus]))
  }

  /** `demo_dist`: the demographic rows summed per (state, district). */
  function DemoDist(ds: seq<DemoRecord>): (g: seq<Tally>)
    ensures StrictlyIncreasing(g)
    ensures KeySet(g) == KeySet(DemoTallies(ds))
  {
    GroupSum(DemoTallies(ds))
  }

  /** `bio_dist`: the biometric rows summed per (state, district). */
  function BioDist(bs: seq<BioRecord>): (g: seq<Tally>)
    ensures StrictlyIncreasing(g)
    ensures KeySet(g) == KeySet(BioTallies(bs))
  {
    GroupSum(BioTallies(bs))
  }

  /** `demo_dist` has one row per distinct raw (state, district) pair of the
      input, and each age column is that column summed over the pair's rows. */
  lemma DemoDistCharacterised(ds: seq<DemoRecord>)
    ensures StrictlyIncreasing(DemoDist(ds))
    ensures KeySet(DemoDist(ds)) == set d | d in ds :: Key(d.state, d.district)
    ensures forall i :: 0 <= i < |DemoDist(ds)| ==> |DemoDist(ds)[i].counts| == 2
    ensures forall i: nat, j: nat :: i < |DemoDist(ds)| && j < 2 ==>
      DemoDist(ds)[i].counts[j] == KeySum(DemoTallies(ds), DemoDist(ds)[i].key, j)
  {
    var ts := DemoTallies(ds);
    forall k | k in KeySet(ts) ensures k in set d | d in ds :: Key(d.state, d.district) {
      var i :| 0 <= i < |ts| && ts[i].key == k;
      assert ds[i] in ds;
    }
    forall k | k in set d | d in ds :: Key(d.state, d.district) ensures k in KeySet(ts) {
      var d :| d in ds && k == Key(d.state, d.district);
      var i :| 0 <= i < |ds| && ds[i] == d;
      assert ts[i].key == k;
    }
    assert forall i :: 0 <= i < |ts| ==> |ts[i].counts| == 2;
    GroupSumTable(ts, 2);
  }

  /** `bio_dist` has one row per distinct raw (state, district) pair of the
      input, and each age column is that column summed over the pair's rows. */
  lemma BioDistCharacterised(bs: seq<BioRecord>)
    ensures StrictlyIncreasing(BioDist(bs))
    ensures KeySet(BioDist(bs)) == set b | b in bs :: Key(b.state, b.district)
    ensures forall i :: 0 <= i < |BioDist(bs)| ==> |BioDist(bs)[i].counts| == 2
    ensures forall i: nat, j: nat :: i < |BioDist(bs)| && j < 2 ==>
      BioDist(bs)[i].counts[j] == KeySum(BioTallies(bs), BioDist(bs)[i].key, j)
  {
    var ts := BioTallies(bs);
    forall k | k in KeySet(ts) ensures k in set b | b in bs :: Key(b.state, b.district) {
      var i :| 0 <= i < |ts| && ts[i].key == k;
      assert bs[i] in bs;
    }
    forall k | k in set b | b in bs :: Key(b.state, b.district) ensures k in KeySet(ts) {
      var b :| b in bs && k == Key(b.state, b.district);
      var i :| 0 <= i < |bs| && bs[i] == b;
      assert ts[i].key == k;
    }
    assert forall i :: 0 <= i < |ts| ==> |ts[i].counts| == 2;
    GroupSumTable(ts, 2);
  }

  /** `demo_dist.merge(bio_dist, on=['state', 'district'])`. */
  function Merged(ds: seq<DemoRecord>, bs: seq<BioRecord>): (m: seq<Joined>)
    ensures JoinKeys(m) == KeySet(DemoDist(ds)) * KeySet(BioDist(bs))
    ensures forall row :: row in m <==>
      exists x, y :: x in DemoDist(ds) && y in BioDist(bs) && x.key == y.key && row == Joined(x.key, x.counts, y.counts)
  {
    InnerJoinKeys(DemoDist(ds), BioDist(bs));
    InnerJoin(DemoDist(ds), BioDist(bs))
  }

  /** The merged table has a row for exactly the districts present in both
      inputs, one row each, in ascending key order. */
  lemma MergedKeys(ds: seq<DemoRecord>, bs: seq<BioRecord>)
    ensures JoinKeys(Merged(ds, bs))
      == (set d | d in ds :: Key(d.state, d.district)) * (set b | b in bs :: Key(b.state, b.district))
    ensures JoinIncreasing(Merged(ds, bs))
    ensures |Merged(ds, bs)| <= |DemoDist(ds)|
  {
    DemoDistCharacterised(ds);
    BioDistCharacterised(bs);
    InnerJoinKeys(DemoDist(ds), BioDist(bs));
    InnerJoinOfGrouped(DemoDist(ds), BioDist(bs));
  }

  /** Each merged row carries the demographic sums and the biometric sums of
      its district. */
  lemma MergedCounts(ds: seq<DemoRecord>, bs: seq<BioRecord>, row: Joined, j: nat)
    requires row in Merged(ds, bs)
    ensures At(row.left, j) == KeySum(DemoTallies(ds), row.key, j)
    ensures At(row.right, j) == KeySum(BioTallies(bs), row.key, j)
  {
    var l := DemoDist(ds);
    var r := BioDist(bs);
    var x, y :| x in l && y in r && x.key == y.key && row == Joined(x.key, x.counts, y.counts);
    var a :| 0 <= a < |l| && l[a] == x;
    var b :| 0 <= b < |r| && r[b] == y;
    GroupSumCounts(DemoTallies(ds), a, j);
    GroupSumCounts(BioTallies(bs), b, j);
  }

  // ---------------------------------------------------------------------
  // The district table
  // ---------------------------------------------------------------------

  /** A district row after the column subset is taken.  The derived columns
      hold 0 or NaN until assigned. */
  datatype AgeRegion = AgeRegion(
    state: string, district: string,
    activity5to17: nat, activity17plus: nat,
    totalUpdateActivity: nat, adultShare: Option<real>)

  /** `activity_5_17` and `activity_17_plus` of a merged row, keeping only
      the labels and these two columns. */
  function AgeRegionOf(j: Joined): (r: AgeRegion)
    ensures r.activity5to17 == At(j.left, Young) + At(j.right, Young)
    ensures r.activity17plus == At(j.left, Adult) + At(j.right, Adult)
    ensures r.state == j.key.state && r.district == j.key.district
  {
    AgeRegion(j.key.state, j.key.district,
              At(j.left, Young) + At(j.right, Young),
              At(j.left, Adult) + At(j.right, Adult),
              0, None)
  }

  /** Each district's activity per age band is the demographic plus the
      biometric count of that band, summed over the district's input rows. */
  lemma AgeBandsSummed(ds: seq<DemoRecord>, bs: seq<BioRecord>, row: Joined)
    requires row in Merged(ds, bs)
    ensures AgeRegionOf(row).activity5to17
      == KeySum(DemoTallies(ds), row.key, Young) + KeySum(BioTallies(bs), row.key, Young)
    ensures AgeRegionOf(row).activity17plus
      == KeySum(DemoTallies(ds), row.key, Adult) + KeySum(BioTallies(bs), row.key, Adult)
  {
    MergedCounts(ds, bs, row, Young);
    MergedCounts(ds, bs, row, Adult);
  }

  /** The derived columns. */
  datatype AgeColumn = TotalUpdateActivity | AdultShare

  /** What each derived column holds once it is assigned. */
  predicate Holds(c: AgeColumn, r: AgeRegion)
  {
    match c
    case TotalUpdateActivity => r.totalUpdateActivity == r.activity5to17 + r.activity17plus
    case AdultShare => r.adultShare == Div(r.activity17plus, r.totalUpdateActivity)
  }

  function WithTotal(r: AgeRegion): AgeRegion
  {
    r.(totalUpdateActivity := r.activity5to17 + r.activity17plus)
  }

  function WithAdultShare(r: AgeRegion): AgeRegion
  {
    r.(adultShare := Div(r.activity17plus, r.totalUpdateActivity))
  }

  /** The district table as the notebook changes it, column by column. */
  class AgeFrame {
    var rows: seq<AgeRegion>
    var columns: set<AgeColumn>

    /** Every assigned column holds its definition on every row, and the
        share is only present with the total it divides by. */
    ghost predicate Valid()
      reads this
    {
      && (AdultShare in columns ==> TotalUpdateActivity in columns)
      && forall c, r :: c in columns && r in rows ==> Holds(c, r)
    }

    /** The merged district sums, with the two age-band columns computed
        row by row and the other columns dropped. */
    constructor (ds: seq<DemoRecord>, bs: seq<BioRecord>)
      ensures Valid() && columns == {}
      ensures |rows| == |Merged(ds, bs)|
      ensures forall i :: 0 <= i < |rows| ==> rows[i] == AgeRegionOf(Merged(ds, bs)[i])
    {
      var merged := Merged(ds, bs);
      var built: seq<AgeRegion> := [];
      var i := 0;
      while i < |merged|
        invariant 0 <= i <= |merged| && |built| == i
        invariant forall k :: 0 <= k < i ==> built[k] == AgeRegionOf(merged[k])
      {
        built := built + [AgeRegionOf(merged[i])];
        i := i + 1;
      }
      rows := built;
      columns := {};
    }

    /** Replaces every row by its image under f, in place. */
    method MapRows(f: AgeRegion -> AgeRegion)
      modifies this
      ensures |rows| == |old(rows)|
      ensures forall i :: 0 <= i < |rows| ==> rows[i] == f(old(rows)[i])
      ensures columns == old(columns)
    {
      var i := 0;
      while i < |rows|
        invariant 0 <= i <= |rows| == |old(rows)|
        invariant columns == old(columns)
        invariant forall k :: 0 <= k < i ==> rows[k] == f(old(rows)[k])
        invariant forall k :: i <= k < |rows| ==> rows[k] == old(rows)[k]
      {
        rows := rows[i := f(rows[i])];
        i := i + 1;
      }
    }

    /** `total_update_activity = activity_5_17 + activity_17_plus`. */
    method AddTotalUpdateActivity()
      requires Valid()
      modifies this
      ensures Valid() && columns == old(columns) + {TotalUpdateActivity}
      ensures |rows| == |old(rows)|
      ensures forall i :: 0 <= i < |rows| ==> rows[i] == WithTotal(old(rows)[i])
    {
      MapRows(WithTotal);
      columns := columns + {TotalUpdateActivity};
      forall c, r | c in columns && r in rows ensures Holds(c, r) {
        var i :| 0 <= i < |rows| && rows[i] == r;
        assert old(rows)[i] in old(rows);
        if c == AdultShare {
          assert Holds(TotalUpdateActivity, old(rows)[i]);
        }
      }
    }

    /** `age_17_plus_share = activity_17_plus / total_update_activity.replace(0, nan)`. */
    method AddAdultShare()
      requires Valid() && TotalUpdateActivity in columns
      modifies this
      ensures Valid() && columns == old(columns) + {AdultShare}
      ensures |rows| == |old(rows)|
      ensures forall i :: 0 <= i < |rows| ==> rows[i] == WithAdultShare(old(rows)[i])
    {
      MapRows(WithAdultShare);
      columns := columns + {AdultShare};
      forall c, r | c in columns && r in rows ensures Holds(c, r) {
        var i :| 0 <= i < |rows| && rows[i] == r;
        assert old(rows)[i] in old(rows);
      }
    }
  }

  /** The notebook's steps in its order, from the two inputs to the
      finished district table. */
  method BuildDistrictTable(ds: seq<DemoRecord>, bs: seq<BioRecord>) returns (f: AgeFrame)
    ensures f.Valid() && f.columns == {TotalUpdateActivity, AdultShare}
    ensures |f.rows| == |Merged(ds, bs)|
    ensures forall i :: 0 <= i < |f.rows| ==>
      f.rows[i] == WithAdultShare(WithTotal(AgeRegionOf(Merged(ds, bs)[i])))
  {
    f := new AgeFrame(ds, bs);
    f.AddTotalUpdateActivity();
    f.AddAdultShare();
  }

  /** The adult share is undefined exactly when the district has no update
      activity, and otherwise lies in [0, 1]. */
  lemma AdultShareMeaning(r: AgeRegion)
    requires Holds(TotalUpdateActivity, r) && Holds(AdultShare, r)
    ensures r.adultShare.None? <==> r.totalUpdateActivity == 0
    ensures r.adultShare.Some? ==> 0.0 <= r.adultShare.value <= 1.0
    ensures r.adultShare.Some? ==>
      r.adultShare.value * r.totalUpdateActivity as real == r.activity17plus as real
  {
    DivPartOfWhole(r.activity17plus, r.totalUpdateActivity);
  }

  // ---------------------------------------------------------------------
  // Volume filter
  // ---------------------------------------------------------------------

  const VolumeQuantile: real := 0.75

  function TotalColumn(rows: seq<AgeRegion>): (xs: seq<real>)
    ensures |xs| == |rows|
    ensures forall i :: 0 <= i < |rows| ==> xs[i] == rows[i].totalUpdateActivity as real
  {
    seq(|rows|, (i: int) requires 0 <= i < |rows| => rows[i].totalUpdateActivity as real)
  }

  /** `MIN_ACTIVITY = total_update_activity.quantile(0.75)`: NaN for an empty
      table, otherwise between the smallest and the largest total. */
  function MinActivity(rows: seq<AgeRegion>): (m: Option<real>)
    ensures m.None? <==> rows == []
    ensures m.Some? ==> exists r :: r in rows && r.totalUpdateActivity as real <= m.value
    ensures m.Some? ==> exists r :: r in rows && r.totalUpdateActivity as real >= m.value
  {
    var xs := TotalColumn(rows);
    var m := Quantile(xs, VolumeQuantile);
    if m.Some? then
      var lo :| lo in xs && lo <= m.value;
      var hi :| hi in xs && hi >= m.value;
      var i :| 0 <= i < |xs| && xs[i] == lo;
      var j :| 0 <= j < |xs| && xs[j] == hi;
      assert rows[i] in rows && rows[j] in rows;
      m
    else m
  }

  predicate Significant(r: AgeRegion, minActivity: Option<real>)
  {
    minActivity.Some? && AtLeast(Some(r.totalUpdateActivity as real), minActivity.value)
  }

  /** `district_df[total_update_activity >= MIN_ACTIVITY]`. */
  function Filtered(rows: seq<AgeRegion>): (f: seq<AgeRegion>)
    ensures forall r :: r in f <==>
      r in rows && MinActivity(rows).Some? && r.totalUpdateActivity as real >= MinActivity(rows).value
    ensures |f| <= |rows|
  {
    var m := MinActivity(rows);
    Filter(rows, (r: AgeRegion) => Significant(r, m))
  }

  /** The filtered table keeps rows of the district table in their order,
      and is non-empty whenever the district table is. */
  lemma FilteredCharacterised(rows: seq<AgeRegion>)
    ensures SubsequenceOf(Filtered(rows), rows)
    ensures rows != [] ==> Filtered(rows) != []
  {
    FilterKeepsOrder(rows, (r: AgeRegion) => Significant(r, MinActivity(rows)));
    if rows != [] {
      var r :| r in rows && r.totalUpdateActivity as real >= MinActivity(rows).value;
      assert r in Filtered(rows);
    }
  }

  // ---------------------------------------------------------------------
  // Adult-heavy and child-heavy districts
  // ---------------------------------------------------------------------

  const TopCount: nat := 10

  function ShareKey(r: AgeRegion): Option<real>
  {
    r.adultShare
  }

  /** `filtered.sort_values('age_17_plus_share', ascending=False).head(10)`. */
  function TopAdultHeavy(filtered: seq<AgeRegion>): (top: seq<AgeRegion>)
    ensures |top| == Min(TopCount, |filtered|)
    ensures multiset(top) <= multiset(filtered)
    ensures SortedBy(top, ShareKey, Descending)
    ensures forall x, y :: x in top && y in multiset(filtered) - multiset(top) ==>
      Precedes(x.adultShare, y.adultShare, Descending)
  {
    TopBy(filtered, TopCount, ShareKey, Descending)
  }

  /** `filtered.sort_values('age_17_plus_share', ascending=True).head(10)`. */
  function TopChildHeavy(filtered: seq<AgeRegion>): (top: seq<AgeRegion>)
    ensures |top| == Min(TopCount, |filtered|)
    ensures multiset(top) <= multiset(filtered)
    ensures SortedBy(top, ShareKey, Ascending)
    ensures forall x, y :: x in top && y in multiset(filtered) - multiset(top) ==>
      Precedes(x.adultShare, y.adultShare, Ascending)
  {
    TopBy(filtered, TopCount, ShareKey, Ascending)
  }

  /** In the adult-heavy list defined shares do not increase and undefined
      shares come last; a district with a defined share left out of the
      list has a share no higher than any listed defined share. */
  lemma TopAdultHeavyOrder(filtered: seq<AgeRegion>)
    ensures forall i, j :: 0 <= i < j < |TopAdultHeavy(filtered)| ==>
      var a, b := TopAdultHeavy(filtered)[i].adultShare, TopAdultHeavy(filtered)[j].adultShare;
      (a.None? ==> b.None?) && (a.Some? && b.Some? ==> a.value >= b.value)
    ensures forall x, y ::
      (x in TopAdultHeavy(filtered) && y in multiset(filtered) - multiset(TopAdultHeavy(filtered)) && y.adultShare.Some?)
      ==> x.adultShare.Some? && x.adultShare.value >= y.adultShare.value
  {
    var top := TopAdultHeavy(filtered);
    forall i, j | 0 <= i < j < |top|
      ensures top[i].adultShare.None? ==> top[j].adultShare.None?
      ensures top[i].adultShare.Some? && top[j].adultShare.Some? ==> top[i].adultShare.value >= top[j].adultShare.value
    {
      assert Precedes(ShareKey(top[i]), ShareKey(top[j]), Descending);
    }
  }

  /** In the child-heavy list defined shares do not decrease and undefined
      shares come last. */
  lemma TopChildHeavyOrder(filtered: seq<AgeRegion>)
    ensures forall i, j :: 0 <= i < j < |TopChildHeavy(filtered)| ==>
      var a, b := TopChildHeavy(filtered)[i].adultShare, TopChildHeavy(filtered)[j].adultShare;
      (a.None? ==> b.None?) && (a.Some? && b.Some? ==> a.value <= b.value)
  {
    var top := TopChildHeavy(filtered);
    forall i, j | 0 <= i < j < |top|
      ensures top[i].adultShare.None? ==> top[j].adultShare.None?
      ensures top[i].adultShare.Some? && top[j].adultShare.Some? ==> top[i].adultShare.value <= top[j].adultShare.value
    {
      assert Precedes(ShareKey(top[i]), ShareKey(top[j]), Ascending);
    }
  }

  // ---------------------------------------------------------------------
  // Median share
  // ---------------------------------------------------------------------

  function ShareColumn(rows: seq<AgeRegion>): (col: seq<Option<real>>)
    ensures |col| == |rows|
    ensures forall i :: 0 <= i < |rows| ==> col[i] == rows[i].adultShare
  {
    seq(|rows|, (i: int) requires 0 <= i < |rows| => rows[i].adultShare)
  }

  /** `age_17_plus_share.median()`, NaN skipped. */
  function MedianShare(rows: seq<AgeRegion>): (m: Option<real>)
    ensures m == Quantile(Defined(ShareColumn(rows)), 0.5)
  {
    MedianIsHalfQuantile(Defined(ShareColumn(rows)));
    Median(Defined(ShareColumn(rows)))
  }

  /** The median share is the 0.5 quantile of the defined shares, it is NaN
      exactly when no share is defined, and with the share column assigned
      it lies in [0, 1]. */
  lemma MedianShareCharacterised(rows: seq<AgeRegion>)
    ensures MedianShare(rows) == Quantile(Defined(ShareColumn(rows)), 0.5)
    ensures MedianShare(rows).None? <==> forall r :: r in rows ==> r.adultShare.None?
    ensures ((forall r :: r in rows ==> Holds(TotalUpdateActivity, r) && Holds(AdultShare, r))
      && MedianShare(rows).Some?) ==> 0.0 <= MedianShare(rows).value <= 1.0
  {
    var col := ShareColumn(rows);
    var xs := Defined(col);
    MedianIsHalfQuantile(xs);
    var m := Quantile(xs, 0.5);
    if m.Some? {
      var lo :| lo in xs && lo <= m.value;
      var hi :| hi in xs && hi >= m.value;
      var i := DefinedAt(col, lo);
      var j := DefinedAt(col, hi);
      assert rows[i] in rows && rows[j] in rows;
      if forall r :: r in rows ==> Holds(TotalUpdateActivity, r) && Holds(AdultShare, r) {
        AdultShareMeaning(rows[i]);
        AdultShareMeaning(rows[j]);
      }
    } else {
      forall r | r in rows ensures r.adultShare.None? {
        var i :| 0 <= i < |rows| && rows[i] == r;
        assert col[i] in col;
      }
    }
  }

  /** The reference line drawn on the chart: the median share of the
      filtered districts. */
  function ReferenceMedian(rows: seq<AgeRegion>): (m: Option<real>)
    ensures m == Quantile(Defined(ShareColumn(Filtered(rows))), 0.5)
    ensures m.None? <==> forall r :: r in Filtered(rows) ==> r.adultShare.None?
  {
    MedianShareCharacterised(Filtered(rows));
    MedianShare(Filtered(rows))
  }

  // ---------------------------------------------------------------------
  // A worked example
  // ---------------------------------------------------------------------

  /** Two districts of one state: d1 has demographic and biometric updates,
      d2 only demographic ones.  The merge keeps d1 alone, with 4 child and
      12 adult actions, so 16 in total and an adult share of 0.75. */
  lemma AgeScenario(s: string, d1: string, d2: string, ds: seq<DemoRecord>, bs: seq<BioRecord>)
    requires KeyLess(Key(s, d1), Key(s, d2))
    requires ds == [DemoRecord(s, d1, 3, 5), DemoRecord(s, d2, 2, 2), DemoRecord(s, d1, 1, 1)]
    requires bs == [BioRecord(s, d1, 0, 6)]
    ensures Merged(ds, bs) == [Joined(Key(s, d1), [4, 6], [0, 6])]
    ensures var r := WithAdultShare(WithTotal(AgeRegionOf(Merged(ds, bs)[0])));
      && r.activity5to17 == 4 && r.activity17plus == 12
      && r.totalUpdateActivity == 16 && r.adultShare == Some(0.75)
  {
    var k1, k2 := Key(s, d1), Key(s, d2);
    DemoScenario(k1, k2, ds);
    BioScenario(k1, bs);
    KeyLessIrreflexive(k1);
    JoinScenario(k1, k2, DemoDist(ds), BioDist(bs));
    ShareExample();
  }

  lemma DemoScenario(k1: Key, k2: Key, ds: seq<DemoRecord>)
    requires KeyLess(k1, k2)
    requires ds == [DemoRecord(k1.state, k1.district, 3, 5), DemoRecord(k2.state, k2.district, 2, 2),
                    DemoRecord(k1.state, k1.district, 1, 1)]
    ensures DemoDist(ds) == [Tally(k1, [4, 6]), Tally(k2, [2, 2])]
  {
    var ts := DemoTallies(ds);
    assert ts == [Tally(k1, [3, 5]), Tally(k2, [2, 2]), Tally(k1, [1, 1])];
    assert GroupSum(ts[2..]) == [Tally(k1, [1, 1])] by {
      assert ts[2..][1..] == [];
    }
    assert !KeyLess(k2, k1) by {
      if KeyLess(k2, k1) {
        KeyLessTransitive(k1, k2, k1);
        KeyLessIrreflexive(k1);
      }
    }
    KeyLessIrreflexive(k1);
    assert ts[1..][1..] == ts[2..];
    var g1 := [Tally(k1, [1, 1])];
    assert g1[1..] == [];
    assert InsertTally(Tally(k2, [2, 2]), g1) == [g1[0]] + InsertTally(Tally(k2, [2, 2]), []);
    assert GroupSum(ts[1..]) == [Tally(k1, [1, 1]), Tally(k2, [2, 2])];
    AddPairs([1, 1], [3, 5], [4, 6]);
  }

  lemma BioScenario(k1: Key, bs: seq<BioRecord>)
    requires bs == [BioRecord(k1.state, k1.district, 0, 6)]
    ensures BioDist(bs) == [Tally(k1, [0, 6])]
  {
    var bt := BioTallies(bs);
    assert bt == [Tally(k1, [0, 6])];
    assert bt[1..] == [];
    assert GroupSum(bt[1..]) == [];
    assert InsertTally(bt[0], []) == [bt[0]];
  }

  lemma JoinScenario(k1: Key, k2: Key, l: seq<Tally>, r: seq<Tally>)
    requires k1 != k2
    requires l == [Tally(k1, [4, 6]), Tally(k2, [2, 2])]
    requires r == [Tally(k1, [0, 6])]
    ensures InnerJoin(l, r) == [Joined(k1, [4, 6], [0, 6])]
  {
    assert r[1..] == [];
    assert Matches(l[0], r) == [Joined(k1, [4, 6], [0, 6])];
    assert Matches(l[1], r) == [];
    var rest := l[1..];
    assert rest[0] == l[1] && rest[1..] == [];
    assert InnerJoin(rest, r) == Matches(rest[0], r) + InnerJoin(rest[1..], r);
    assert InnerJoin(rest, r) == [];
  }

  lemma ShareExample()
    ensures Div(12, 16) == Some(0.75)
  {
  }

  lemma AddPairs(a: seq<nat>, b: seq<nat>, c: seq<nat>)
    requires |a| == |b| == |c| == 2
    requires forall j :: 0 <= j < 2 ==> c[j] == a[j] + b[j]
    ensures AddCounts(a, b) == c
  {
    assert forall j :: 0 <= j < 2 ==> AddCounts(a, b)[j] == At(AddCounts(a, b), j);
  }
}
