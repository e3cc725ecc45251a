/** Update pressure per district: how many identity updates a district
    handles per new enrolment.

    Pincode rows are summed to districts, the district table gains derived
    columns one by one, state and district labels are cleaned, small
    districts are dropped, and several selections are taken for display:
    outliers above a fixed ratio, the states with the highest peak ratio,
    and the districts at or above the 0.90 quantile of the maintenance
    ratio, the first ten of which are labelled with their dominant kind of
    update. */
module UpdatePressure {
  import opened Ratios
  import opened Selection
  import opened Stats
  import opened Labels
  import opened Grouping

  // ---------------------------------------------------------------------
  // Input and district aggregation
  // ---------------------------------------------------------------------

  /** One pincode row of the input: its labels and its three counters. */
  datatype PincodeRecord = PincodeRecord(
    state: string, district: string,
    totalEnrolments: nat, demoActivity: nat, bioActivity: nat)

  /** Counter columns of the district sum, in this order. */
  const Enrolments: nat := 0
  const Demo: nat := 1
  const Bio: nat := 2

  function AsTally(p: PincodeRecord): Tally
  {
    Tally(Key(p.state, p.district), [p.totalEnrolments, p.demoActivity, p.bioActivity])
  }

  function Tallies(ps: seq<PincodeRecord>): (ts: seq<Tally>)
    ensures |ts| == |ps|
    ensures forall i :: 0 <= i < |ps| ==> ts[i] == AsTally(ps[i])
  {
    seq(|ps|, (i: int) requires 0 <= i < |ps| => AsTally(ps[i]))
  }

  /** `groupby(['state', 'district'])[counters].sum()`. */
  function DistrictTotals(ps: seq<PincodeRecord>): (g: seq<Tally>)
    ensures StrictlyIncreasing(g)
    ensures KeySet(g) == KeySet(Tallies(ps))
  {
    GroupSum(Tallies(ps))
  }

  /** The district table has one row per distinct raw (state, district)
      pair, in ascending key order. */
  lemma DistrictTotalsKeys(ps: seq<PincodeRecord>)
    ensures StrictlyIncreasing(DistrictTotals(ps))
    ensures KeySet(DistrictTotals(ps)) == set p | p in ps :: Key(p.state, p.district)
  {
    var ts := Tallies(ps);
    forall k | k in KeySet(ts) ensures k in set p | p in ps :: Key(p.state, p.district) {
      var i :| 0 <= i < |ts| && ts[i].key == k;
      assert ps[i] in ps;
    }
    forall k | k in set p | p in ps :: Key(p.state, p.district) ensures k in KeySet(ts) {
      var p :| p in ps && k == Key(p.state, p.district);
      var i :| 0 <= i < |ps| && ps[i] == p;
      assert ts[i].key == k;
    }
  }

  /** Every district row carries the three counters, each the sum of that
      counter over the pincodes with the row's key. */
  lemma DistrictTotalsCounts(ps: seq<PincodeRecord>)
    ensures forall i :: 0 <= i < |DistrictTotals(ps)| ==> |DistrictTotals(ps)[i].counts| == 3
    ensures forall i: nat, j: nat :: i < |DistrictTotals(ps)| && j < 3 ==>
      DistrictTotals(ps)[i].counts[j] == KeySum(Tallies(ps), DistrictTotals(ps)[i].key, j)
  {
    var ts := Tallies(ps);
    assert forall i :: 0 <= i < |ts| ==> |ts[i].counts| == 3;
    GroupSumTable(ts, 3);
  }

  /** Aggregation conserves the national total of each counter. */
  lemma DistrictTotalsConserve(ps: seq<PincodeRecord>, j: nat)
    ensures ColumnSum(DistrictTotals(ps), j) == ColumnSum(Tallies(ps), j)
  {
    GroupSumConservesColumns(Tallies(ps), j);
  }

  // ---------------------------------------------------------------------
  // The district table
  // ---------------------------------------------------------------------

  /** A district row.  Derived columns hold 0 or NaN until assigned. */
  datatype Region = Region(
    state: string, district: string,
    totalEnrolments: nat, demoActivity: nat, bioActivity: nat,
    totalActivity: nat, totalUpdates: nat,
    updateRatio: Option<real>,
    bioRatio: Option<real>, demoRatio: Option<real>, maintenanceRatio: Option<real>)

  function RegionOf(t: Tally): Region
  {
    Region(t.key.state, t.key.district,
           At(t.counts, Enrolments), At(t.counts, Demo), At(t.counts, Bio),
           0, 0, None, None, None, None)
  }

  function RegionsOf(g: seq<Tally>): (rs: seq<Region>)
    ensures |rs| == |g|
    ensures forall i :: 0 <= i < |g| ==> rs[i] == RegionOf(g[i])
  {
    seq(|g|, (i: int) requires 0 <= i < |g| => RegionOf(g[i]))
  }

  /** The derived columns. */
  datatype Column = TotalActivity | TotalUpdates | UpdateRatio | BioRatio | DemoRatio | MaintenanceRatio

  /** What each derived column holds once it is assigned. */
  predicate Holds(c: Column, r: Region)
  {
    match c
    case TotalActivity => r.totalActivity == r.totalEnrolments + r.demoActivity + r.bioActivity
    case TotalUpdates => r.totalUpdates == r.demoActivity + r.bioActivity
    case UpdateRatio => r.updateRatio == Div(r.totalUpdates, r.totalEnrolments)
    case BioRatio => r.bioRatio == Div(r.bioActivity, r.totalEnrolments)
    case DemoRatio => r.demoRatio == Div(r.demoActivity, r.totalEnrolments)
    case MaintenanceRatio => r.maintenanceRatio == Plus(r.bioRatio, r.demoRatio)
  }

  /** A column computed from other derived columns is only present with them. */
  predicate InputsPresent(cs: set<Column>)
  {
    && (UpdateRatio in cs ==> TotalUpdates in cs)
    && (MaintenanceRatio in cs ==> BioRatio in cs && DemoRatio in cs)
  }

  /** Relabelling a row leaves every column definition as it was. */
  lemma RelabelKeepsHolds(c: Column, r: Region, state: string, district: string)
    requires Holds(c, r)
    ensures Holds(c, r.(state := state, district := district))
  {
  }

  function WithTotalActivity(r: Region): Region
  {
    r.(totalActivity := r.totalEnrolments + r.demoActivity + r.bioActivity)
  }

  function WithStateLabel(r: Region): Region
  {
    r.(state := NormaliseState(r.state))
  }

  function WithDistrictLabel(r: Region): Region
  {
    r.(district := NormaliseDistrict(r.district))
  }

  function WithTotalUpdates(r: Region): Region
  {
    r.(totalUpdates := r.demoActivity + r.bioActivity)
  }

  function WithUpdateRatio(r: Region): Region
  {
    r.(updateRatio := Div(r.totalUpdates, r.totalEnrolments))
  }

  function WithBioRatio(r: Region): Region
  {
    r.(bioRatio := Div(r.bioActivity, r.totalEnrolments))
  }

  function WithDemoRatio(r: Region): Region
  {
    r.(demoRatio := Div(r.demoActivity, r.totalEnrolments))
  }

  function WithMaintenanceRatio(r: Region): Region
  {
    r.(maintenanceRatio := Plus(r.bioRatio, r.demoRatio))
  }

  /** The volume filter threshold: a district needs more activity than this. */
  const VolumeThreshold: nat := 1000

  predicate IsBusy(r: Region, threshold: nat)
  {
    r.totalActivity > threshold
  }

  /** `region_df[region_df['total_activity'] > threshold]`. */
  function KeepBusy(rows: seq<Region>, threshold: nat): (kept: seq<Region>)
    ensures forall r :: r in kept <==> r in rows && r.totalActivity > threshold
    ensures forall x :: multiset(kept)[x] == if x.totalActivity > threshold then multiset(rows)[x] else 0
  {
    Filter(rows, (r: Region) => IsBusy(r, threshold))
  }

  /** The volume filter keeps the surviving rows in their input order. */
  lemma KeepBusyInOrder(rows: seq<Region>, threshold: nat)
    ensures SubsequenceOf(KeepBusy(rows, threshold), rows)
  {
    FilterKeepsOrder(rows, (r: Region) => IsBusy(r, threshold));
  }

  /** A higher threshold keeps a sub-table of what a lower one keeps. */
  lemma KeepBusyMonotone(rows: seq<Region>, low: nat, high: nat)
    requires low <= high
    ensures KeepBusy(KeepBusy(rows, low), high) == KeepBusy(rows, high)
    ensures SubsequenceOf(KeepBusy(rows, high), KeepBusy(rows, low))
  {
    FilterNarrower(rows, (r: Region) => IsBusy(r, low), (r: Region) => IsBusy(r, high));
    FilterKeepsOrder(KeepBusy(rows, low), (r: Region) => IsBusy(r, high));
  }

  /** The district table as the notebook changes it, column by column. */
  class RegionFrame {
    var rows: seq<Region>
    var columns: set<Column>

    /** Every assigned column holds its definition on every row. */
    ghost predicate Valid()
      reads this
    {
      && InputsPresent(columns)
      && forall c, r :: c in columns && r in rows ==> Holds(c, r)
    }

    /** The district sums of the pincode rows, with no derived column yet. */
    constructor (ps: seq<PincodeRecord>)
      ensures Valid()
      ensures rows == RegionsOf(DistrictTotals(ps))
      ensures columns == {}
    {
      rows := RegionsOf(DistrictTotals(ps));
      columns := {};
    }

    /** Replaces every row by its image under f, in place. */
    method MapRows(f: Region -> Region)
      modifies this
      ensures |rows| == |old(rows)|
      ensures forall i :: 0 <= i < |rows| ==> rows[i] == f(old(rows)[i])
      ensures columns == old(columns)
    {
      var i := 0;
      while i < |rows|
        invariant 0 <= i <= |rows| == |old(rows)|
        invariant columns == old(columns)
        invariant forall k :: 0 <= k < i ==> rows[k] == f(old(rows)[k])
        invariant forall k :: i <= k < |rows| ==> rows[k] == old(rows)[k]
      {
        rows := rows[i := f(rows[i])];
        i := i + 1;
      }
    }

    /** `total_activity = total_enrolments + demo_activity + bio_activity`. */
    method AddTotalActivity()
      requires Valid()
      modifies this
      ensures Valid() && columns == old(columns) + {TotalActivity}
      ensures |rows| == |old(rows)|
      ensures forall i :: 0 <= i < |rows| ==> rows[i] == WithTotalActivity(old(rows)[i])
    {
      MapRows(WithTotalActivity);
      columns := columns + {TotalActivity};
      forall c, r | c in columns && r in rows ensures Holds(c, r) {
        var i :| 0 <= i < |rows| && rows[i] == r;
        assert old(rows)[i] in old(rows);
      }
    }

    /** `state = state.str.title().str.strip().replace(aliases)`. */
    method NormaliseStates()
      requires Valid()
      modifies this
      ensures Valid() && columns == old(columns)
      ensures |rows| == |old(rows)|
      ensures forall i :: 0 <= i < |rows| ==> rows[i] == WithStateLabel(old(rows)[i])
    {
      MapRows(WithStateLabel);
      forall c, r | c in columns && r in rows ensures Holds(c, r) {
        var i :| 0 <= i < |rows| && rows[i] == r;
        assert old(rows)[i] in old(rows);
        RelabelKeepsHolds(c, old(rows)[i], r.state, r.district);
      }
    }

    /** `district = district.str.replace('?', '-')`. */
    method NormaliseDistricts()
      requires Valid()
      modifies this
      ensures Valid() && columns == old(columns)
      ensures |rows| == |old(rows)|
      ensures forall i :: 0 <= i < |rows| ==> rows[i] == WithDistrictLabel(old(rows)[i])
    {
      MapRows(WithDistrictLabel);
      forall c, r | c in columns && r in rows ensures Holds(c, r) {
        var i :| 0 <= i < |rows| && rows[i] == r;
        assert old(rows)[i] in old(rows);
        RelabelKeepsHolds(c, old(rows)[i], r.state, r.district);
      }
    }

    /** `region_df = region_df[region_df['total_activity'] > VOLUME_THRESHOLD]`. */
    method ApplyVolumeFilter()
      requires Valid() && TotalActivity in columns
      modifies this
      ensures Valid() && columns == old(columns)
      ensures rows == KeepBusy(old(rows), VolumeThreshold)
      ensures forall r :: r in rows ==> r.totalEnrolments + r.demoActivity + r.bioActivity > VolumeThreshold
    {
      rows := KeepBusy(rows, VolumeThreshold);
    }

    /** `total_updates = demo_activity + bio_activity`. */
    method AddTotalUpdates()
      requires Valid()
      modifies this
      ensures Valid() && columns == old(columns) + {TotalUpdates}
      ensures |rows| == |old(rows)|
      ensures forall i :: 0 <= i < |rows| ==> rows[i] == WithTotalUpdates(old(rows)[i])
    {
      MapRows(WithTotalUpdates);
      columns := columns + {TotalUpdates};
      forall c, r | c in columns && r in rows ensures Holds(c, r) {
        var i :| 0 <= i < |rows| && rows[i] == r;
        assert old(rows)[i] in old(rows);
        if c == UpdateRatio {
          assert Holds(TotalUpdates, old(rows)[i]);
        }
      }
    }

    /** `update_to_enrolment_ratio = total_updates / total_enrolments.replace(0, nan)`. */
    method AddUpdateRatio()
      requires Valid() && TotalUpdates in columns
      modifies this
      ensures Valid() && columns == old(columns) + {UpdateRatio}
      ensures |rows| == |old(rows)|
      ensures forall i :: 0 <= i < |rows| ==> rows[i] == WithUpdateRatio(old(rows)[i])
    {
      MapRows(WithUpdateRatio);
      columns := columns + {UpdateRatio};
      forall c, r | c in columns && r in rows ensures Holds(c, r) {
        var i :| 0 <= i < |rows| && rows[i] == r;
        assert old(rows)[i] in old(rows);
      }
    }

    /** `bio_to_enrol_ratio = bio_activity / total_enrolments.replace(0, nan)`. */
    method AddBioRatio()
      requires Valid()
      modifies this
      ensures Valid() && columns == old(columns) + {BioRatio}
      ensures |rows| == |old(rows)|
      ensures forall i :: 0 <= i < |rows| ==> rows[i] == WithBioRatio(old(rows)[i])
    {
      MapRows(WithBioRatio);
      columns := columns + {BioRatio};
      forall c, r | c in columns && r in rows ensures Holds(c, r) {
        var i :| 0 <= i < |rows| && rows[i] == r;
        assert old(rows)[i] in old(rows);
        if c == MaintenanceRatio {
          assert Holds(BioRatio, old(rows)[i]);
        }
      }
    }

    /** `demo_to_enrol_ratio = demo_activity / total_enrolments.replace(0, nan)`. */
    method AddDemoRatio()
      requires Valid()
      modifies this
      ensures Valid() && columns == old(columns) + {DemoRatio}
      ensures |rows| == |old(rows)|
      ensures forall i :: 0 <= i < |rows| ==> rows[i] == WithDemoRatio(old(rows)[i])
    {
      MapRows(WithDemoRatio);
      columns := columns + {DemoRatio};
      forall c, r | c in columns && r in rows ensures Holds(c, r) {
        var i :| 0 <= i < |rows| && rows[i] == r;
        assert old(rows)[i] in old(rows);
        if c == MaintenanceRatio {
          assert Holds(DemoRatio, old(rows)[i]);
        }
      }
    }

    /** `total_maintenance_ratio = bio_to_enrol_ratio + demo_to_enrol_ratio`. */
    method AddMaintenanceRatio()
      requires Valid() && BioRatio in columns && DemoRatio in columns
      modifies this
      ensures Valid() && columns == old(columns) + {MaintenanceRatio}
      ensures |rows| == |old(rows)|
      ensures forall i :: 0 <= i < |rows| ==> rows[i] == WithMaintenanceRatio(old(rows)[i])
    {
      MapRows(WithMaintenanceRatio);
      columns := columns + {MaintenanceRatio};
      forall c, r | c in columns && r in rows ensures Holds(c, r) {
        var i :| 0 <= i < |rows| && rows[i] == r;
        assert old(rows)[i] in old(rows);
      }
    }
  }

  /** A district row after the first three steps: total activity, then the
      state label, then the district label. */
  function Prepared(r: Region): Region
  {
    WithDistrictLabel(WithStateLabel(WithTotalActivity(r)))
  }

  /** A district row after the five ratio steps, in the notebook's order. */
  function Derived(r: Region): Region
  {
    WithMaintenanceRatio(WithDemoRatio(WithBioRatio(WithUpdateRatio(WithTotalUpdates(r)))))
  }

  function Prepare(rows: seq<Region>): (out: seq<Region>)
    ensures |out| == |rows|
    ensures forall i :: 0 <= i < |rows| ==> out[i] == Prepared(rows[i])
  {
    seq(|rows|, (i: int) requires 0 <= i < |rows| => Prepared(rows[i]))
  }

  function Derive(rows: seq<Region>): (out: seq<Region>)
    ensures |out| == |rows|
    ensures forall i :: 0 <= i < |rows| ==> out[i] == Derived(rows[i])
  {
    seq(|rows|, (i: int) requires 0 <= i < |rows| => Derived(rows[i]))
  }

  /** The finished district table of a set of pincode rows. */
  function RegionTable(ps: seq<PincodeRecord>): seq<Region>
  {
    Derive(KeepBusy(Prepare(RegionsOf(DistrictTotals(ps))), VolumeThreshold))
  }

  /** The district sum of a tally: its three counters added. */
  function Activity(t: Tally): nat
  {
    At(t.counts, Enrolments) + At(t.counts, Demo) + At(t.counts, Bio)
  }

  /** The finished table holds exactly the district sums whose activity is
      above the volume threshold, each with clean labels and with every
      derived column holding its definition. */
  lemma RegionTableRows(ps: seq<PincodeRecord>)
    ensures forall r :: r in RegionTable(ps) <==>
      exists t :: t in DistrictTotals(ps) && Activity(t) > VolumeThreshold && r == Derived(Prepared(RegionOf(t)))
    ensures forall r, c :: r in RegionTable(ps) ==> Holds(c, r)
    ensures forall r :: r in RegionTable(ps) ==>
      NormaliseState(r.state) == r.state && '?' !in r.district
  {
    var g := DistrictTotals(ps);
    var table := RegionTable(ps);
    forall r | r in table
      ensures exists t :: t in g && Activity(t) > VolumeThreshold && r == Derived(Prepared(RegionOf(t)))
    {
      RegionTableMember(g, r);
    }
    forall t | t in g && Activity(t) > VolumeThreshold
      ensures Derived(Prepared(RegionOf(t))) in table
    {
      RegionTableHas(g, t);
    }
    forall r | r in table
      ensures forall c :: Holds(c, r)
      ensures NormaliseState(r.state) == r.state && '?' !in r.district
    {
      RegionTableMember(g, r);
      var t :| t in g && r == Derived(Prepared(RegionOf(t)));
      FinishedRow(RegionOf(t));
    }
  }

  lemma RegionTableMember(g: seq<Tally>, r: Region)
    requires r in Derive(KeepBusy(Prepare(RegionsOf(g)), VolumeThreshold))
    ensures exists t :: t in g && Activity(t) > VolumeThreshold && r == Derived(Prepared(RegionOf(t)))
  {
    var busy := KeepBusy(Prepare(RegionsOf(g)), VolumeThreshold);
    var x := DeriveMember(busy, r);
    var y := PrepareMember(RegionsOf(g), x);
    var t := RegionsOfMember(g, y);
    PreparedActivity(t);
  }

  lemma DeriveMember(rows: seq<Region>, r: Region) returns (x: Region)
    requires r in Derive(rows)
    ensures x in rows && r == Derived(x)
  {
    var i :| 0 <= i < |Derive(rows)| && Derive(rows)[i] == r;
    x := rows[i];
  }

  lemma PrepareMember(rows: seq<Region>, r: Region) returns (x: Region)
    requires r in Prepare(rows)
    ensures x in rows && r == Prepared(x)
  {
    var i :| 0 <= i < |Prepare(rows)| && Prepare(rows)[i] == r;
    x := rows[i];
  }

  lemma RegionsOfMember(g: seq<Tally>, r: Region) returns (t: Tally)
    requires r in RegionsOf(g)
    ensures t in g && r == RegionOf(t)
  {
    var i :| 0 <= i < |RegionsOf(g)| && RegionsOf(g)[i] == r;
    t := g[i];
  }

  /** The first step's total is the tally's activity; relabelling keeps it. */
  lemma PreparedActivity(t: Tally)
    ensures Prepared(RegionOf(t)).totalActivity == Activity(t)
  {
  }

  lemma RegionTableHas(g: seq<Tally>, t: Tally)
    requires t in g && Activity(t) > VolumeThreshold
    ensures Derived(Prepared(RegionOf(t))) in Derive(KeepBusy(Prepare(RegionsOf(g)), VolumeThreshold))
  {
    var prepared := Prepare(RegionsOf(g));
    var busy := KeepBusy(prepared, VolumeThreshold);
    var k :| 0 <= k < |g| && g[k] == t;
    assert prepared[k] in prepared;
    var i :| 0 <= i < |busy| && busy[i] == prepared[k];
    assert Derive(busy)[i] == Derived(busy[i]);
  }

  /** A row through all the steps holds every column definition, and its
      labels are clean. */
  lemma FinishedRow(x: Region)
    ensures forall c :: Holds(c, Derived(Prepared(x)))
    ensures NormaliseState(Derived(Prepared(x)).state) == Derived(Prepared(x)).state
    ensures '?' !in Derived(Prepared(x)).district
  {
    NormaliseStateIdempotent(x.state);
  }

  /** The notebook's steps in its order, from pincode rows to the finished
      district table. */
  method BuildRegionTable(ps: seq<PincodeRecord>) returns (f: RegionFrame)
    ensures f.Valid()
    ensures f.columns == {TotalActivity, TotalUpdates, UpdateRatio, BioRatio, DemoRatio, MaintenanceRatio}
    ensures f.rows == RegionTable(ps)
  {
    f := new RegionFrame(ps);
    PrepareRegions(f);
    AddPressureColumns(f);
  }

  /** Total activity, clean labels and the volume filter. */
  method PrepareRegions(f: RegionFrame)
    requires f.Valid() && f.columns == {}
    modifies f
    ensures f.Valid() && f.columns == {TotalActivity}
    ensures f.rows == KeepBusy(Prepare(old(f.rows)), VolumeThreshold)
  {
    ghost var r0 := f.rows;
    f.AddTotalActivity();
    ghost var r1 := f.rows;
    f.NormaliseStates();
    ghost var r2 := f.rows;
    f.NormaliseDistricts();
    assert f.rows == Prepare(r0) by {
      forall i | 0 <= i < |r0| ensures f.rows[i] == Prepared(r0[i]) {
        assert r1[i] == WithTotalActivity(r0[i]);
        assert r2[i] == WithStateLabel(r1[i]);
      }
    }
    f.ApplyVolumeFilter();
  }

  /** The update and maintenance ratios. */
  method AddPressureColumns(f: RegionFrame)
    requires f.Valid() && f.columns == {TotalActivity}
    modifies f
    ensures f.Valid()
    ensures f.columns == {TotalActivity, TotalUpdates, UpdateRatio, BioRatio, DemoRatio, MaintenanceRatio}
    ensures f.rows == Derive(old(f.rows))
  {
    ghost var r0 := f.rows;
    f.AddTotalUpdates();
    ghost var r1 := f.rows;
    f.AddUpdateRatio();
    ghost var r2 := f.rows;
    f.AddBioRatio();
    ghost var r3 := f.rows;
    f.AddDemoRatio();
    ghost var r4 := f.rows;
    f.AddMaintenanceRatio();
    assert f.rows == Derive(r0) by {
      forall i | 0 <= i < |r0| ensures f.rows[i] == Derived(r0[i]) {
        assert r1[i] == WithTotalUpdates(r0[i]);
        assert r2[i] == WithUpdateRatio(r1[i]);
        assert r3[i] == WithBioRatio(r2[i]);
        assert r4[i] == WithDemoRatio(r3[i]);
      }
    }
  }

  // ---------------------------------------------------------------------
  // Meaning of the derived columns
  // ---------------------------------------------------------------------

  /** The update ratio is undefined exactly when the district has no
      enrolments, and is otherwise the updates per enrolment. */
  lemma UpdateRatioMeaning(r: Region)
    requires Holds(TotalUpdates, r) && Holds(UpdateRatio, r)
    ensures r.updateRatio.None? <==> r.totalEnrolments == 0
    ensures r.updateRatio.Some? ==>
      r.updateRatio.value * r.totalEnrolments as real == (r.demoActivity + r.bioActivity) as real
  {
  }

  /** The bio, demo and maintenance ratios are undefined under the same
      condition, and a defined maintenance ratio equals the update ratio. */
  lemma MaintenanceIsUpdateRatio(r: Region)
    requires forall c: Column :: Holds(c, r)
    ensures r.bioRatio.None? <==> r.totalEnrolments == 0
    ensures r.demoRatio.None? <==> r.totalEnrolments == 0
    ensures r.maintenanceRatio.None? <==> r.totalEnrolments == 0
    ensures r.maintenanceRatio == r.updateRatio
  {
    assert Holds(BioRatio, r) && Holds(DemoRatio, r) && Holds(MaintenanceRatio, r);
    assert Holds(TotalUpdates, r) && Holds(UpdateRatio, r);
    DivAdds(r.bioActivity, r.demoActivity, r.totalEnrolments);
  }

  // ---------------------------------------------------------------------
  // Outliers and the normal range
  // ---------------------------------------------------------------------

  /** Ratios above this are shown as outliers, off the chart. */
  const OutlierCutoff: real := 150.0

  function UpdateRatioKey(r: Region): Option<real>
  {
    r.updateRatio
  }

  predicate IsOutlier(r: Region)
  {
    Exceeds(r.updateRatio, OutlierCutoff)
  }

  predicate IsNormal(r: Region)
  {
    AtMost(r.updateRatio, OutlierCutoff)
  }

  /** `plot_data[ratio > 150].sort_values(ratio, ascending=False)`. */
  function Outliers(rows: seq<Region>): (out: seq<Region>)
    ensures forall r :: r in out <==> r in rows && IsOutlier(r)
    ensures multiset(out) == multiset(Filter(rows, IsOutlier))
    ensures SortedBy(out, UpdateRatioKey, Descending)
  {
    var kept := Filter(rows, IsOutlier);
    var out := SortBy(kept, UpdateRatioKey, Descending);
    SameMembers(out, kept);
    out
  }

  lemma SameMembers<T>(a: seq<T>, b: seq<T>)
    requires multiset(a) == multiset(b)
    ensures forall x :: x in a <==> x in b
  {
    forall x ensures x in a <==> x in b {
      assert x in a <==> x in multiset(a);
      assert x in b <==> x in multiset(b);
    }
  }

  /** `plot_data[ratio <= 150]`, in table order. */
  function NormalRows(rows: seq<Region>): (normal: seq<Region>)
    ensures forall r :: r in normal <==> r in rows && IsNormal(r)
    ensures SubsequenceOf(normal, rows)
    ensures forall x :: multiset(normal)[x] == if IsNormal(x) then multiset(rows)[x] else 0
  {
    FilterKeepsOrder(rows, IsNormal);
    Filter(rows, IsNormal)
  }

  /** The outliers have defined ratios above the cutoff, in non-increasing order. */
  lemma OutliersDescending(rows: seq<Region>)
    ensures forall r :: r in Outliers(rows) ==> r.updateRatio.Some? && r.updateRatio.value > OutlierCutoff
    ensures forall i, j :: 0 <= i < j < |Outliers(rows)| ==>
      Outliers(rows)[i].updateRatio.Some? && Outliers(rows)[j].updateRatio.Some? &&
      Outliers(rows)[i].updateRatio.value >= Outliers(rows)[j].updateRatio.value
  {
    var out := Outliers(rows);
    forall i, j | 0 <= i < j < |out|
      ensures out[i].updateRatio.Some? && out[j].updateRatio.Some?
      ensures out[i].updateRatio.value >= out[j].updateRatio.value
    {
      assert out[i] in out && out[j] in out;
      assert Precedes(UpdateRatioKey(out[i]), UpdateRatioKey(out[j]), Descending);
    }
  }

  /** No district is both an outlier and normal, a district with an
      undefined ratio is neither, and every other district is one of them. */
  lemma OutlierSplit(rows: seq<Region>)
    ensures forall r :: !(r in Outliers(rows) && r in NormalRows(rows))
    ensures forall r :: r in rows && r.updateRatio.None? ==> r !in Outliers(rows) && r !in NormalRows(rows)
    ensures forall r :: r in rows && r.updateRatio.Some? ==> r in Outliers(rows) || r in NormalRows(rows)
  {
  }

  // ---------------------------------------------------------------------
  // Top states by peak ratio
  // ---------------------------------------------------------------------

  /** How many states the chart keeps. */
  const TopStateCount: nat := 20

  /** A state and the largest defined ratio among its districts. */
  datatype StatePeak = StatePeak(state: string, peak: Option<real>)

  function PeakKey(p: StatePeak): Option<real>
  {
    p.peak
  }

  function MaxOf(a: Option<real>, b: Option<real>): (m: Option<real>)
    ensures m.None? <==> a.None? && b.None?
    ensures m.Some? ==> m == a || m == b
    ensures a.Some? ==> m.Some? && m.value >= a.value
    ensures b.Some? ==> m.Some? && m.value >= b.value
  {
    if a.None? then b
    else if b.None? then a
    else if a.value >= b.value then a else b
  }

  /** `groupby('state')[ratio].max()` for one state: the largest defined
      ratio of the state's rows, NaN when it has none. */
  function PeakOf(rows: seq<Region>, state: string): (m: Option<real>)
    ensures forall r :: r in rows && r.state == state && r.updateRatio.Some? ==>
      m.Some? && r.updateRatio.value <= m.value
    ensures m.Some? ==> exists r :: r in rows && r.state == state && r.updateRatio == m
    decreases |rows|
  {
    if rows == [] then None
    else
      assert rows == [rows[0]] + rows[1..];
      MaxOf(if rows[0].state == state then rows[0].updateRatio else None, PeakOf(rows[1..], state))
  }

  /** The distinct states of a table, each once; a state appearing several
      times is listed at its last appearance. */
  function States(rows: seq<Region>): (ss: seq<string>)
    ensures forall s :: s in ss <==> exists r :: r in rows && r.state == s
    ensures Distinct(ss)
    decreases |rows|
  {
    if rows == [] then []
    else
      var rest := States(rows[1..]);
      assert rows == [rows[0]] + rows[1..];
      if rows[0].state in rest then rest
      else
        assert forall i :: 0 < i < |[rows[0].state] + rest| ==> ([rows[0].state] + rest)[i] == rest[i - 1];
        [rows[0].state] + rest
  }

  /** One entry per distinct state with its peak ratio. */
  function StateMaxima(rows: seq<Region>): (ps: seq<StatePeak>)
    ensures |ps| == |States(rows)|
    ensures forall i :: 0 <= i < |ps| ==> ps[i] == StatePeak(States(rows)[i], PeakOf(rows, States(rows)[i]))
  {
    var ss := States(rows);
    seq(|ss|, (i: int) requires 0 <= i < |ss| => StatePeak(ss[i], PeakOf(rows, ss[i])))
  }

  /** `...max().sort_values(ascending=False).head(20)`: the chosen states
      with their peaks. */
  function TopPeaks(normal: seq<Region>): (best: seq<StatePeak>)
    ensures |best| == Min(TopStateCount, |StateMaxima(normal)|)
    ensures multiset(best) <= multiset(StateMaxima(normal))
    ensures SortedBy(best, PeakKey, Descending)
    ensures forall x, y :: x in best && y in multiset(StateMaxima(normal)) - multiset(best) ==>
      Precedes(x.peak, y.peak, Descending)
  {
    TopBy(StateMaxima(normal), TopStateCount, PeakKey, Descending)
  }

  /** `.index` of the above: the chosen state names. */
  function TopStates(normal: seq<Region>): (top: seq<string>)
    ensures |top| == |TopPeaks(normal)| == Min(TopStateCount, |States(normal)|)
    ensures forall i :: 0 <= i < |top| ==> top[i] == TopPeaks(normal)[i].state
  {
    var best := TopPeaks(normal);
    seq(|best|, (i: int) requires 0 <= i < |best| => best[i].state)
  }

  /** Every entry of the state table names a state of the table and carries
      that state's peak; no two entries share a state. */
  lemma StateMaximaEntries(normal: seq<Region>)
    ensures forall p :: p in StateMaxima(normal) ==>
      p.state in States(normal) && p.peak == PeakOf(normal, p.state)
    ensures Distinct(StateMaxima(normal))
    ensures forall p, q :: p in StateMaxima(normal) && q in StateMaxima(normal) && p.state == q.state ==> p == q
  {
    var all := StateMaxima(normal);
    var ss := States(normal);
    forall p | p in all ensures p.state in ss && p.peak == PeakOf(normal, p.state) {
      var i :| 0 <= i < |all| && all[i] == p;
    }
    forall i, j | 0 <= i < j < |all| ensures all[i] != all[j] {
      assert ss[i] != ss[j];
    }
  }

  lemma TopPeaksFromTable(normal: seq<Region>)
    ensures forall p :: p in TopPeaks(normal) ==> p in StateMaxima(normal)
  {
    var best := TopPeaks(normal);
    forall p | p in best ensures p in StateMaxima(normal) {
      assert p in multiset(best);
    }
  }

  /** The top states are at most 20 distinct states of the table. */
  lemma TopStatesDistinct(normal: seq<Region>)
    ensures Distinct(TopStates(normal))
    ensures forall s :: s in TopStates(normal) ==> s in States(normal)
  {
    var all := StateMaxima(normal);
    var best := TopPeaks(normal);
    var top := TopStates(normal);
    StateMaximaEntries(normal);
    TopPeaksFromTable(normal);
    DistinctSubmultiset(all, best);
    forall i, j | 0 <= i < j < |top| ensures top[i] != top[j] {
      assert best[i] in best && best[j] in best;
    }
    forall s | s in top ensures s in States(normal) {
      var i :| 0 <= i < |top| && top[i] == s;
      assert best[i] in best;
    }
  }

  /** The top states are listed by non-increasing peak ratio. */
  lemma TopStatesOrdered(normal: seq<Region>)
    ensures forall i, j :: 0 <= i < j < |TopStates(normal)| ==>
      Precedes(PeakOf(normal, TopStates(normal)[i]), PeakOf(normal, TopStates(normal)[j]), Descending)
  {
    var best := TopPeaks(normal);
    var top := TopStates(normal);
    StateMaximaEntries(normal);
    TopPeaksFromTable(normal);
    forall i, j | 0 <= i < j < |top|
      ensures Precedes(PeakOf(normal, top[i]), PeakOf(normal, top[j]), Descending)
    {
      assert best[i] in best && best[j] in best;
      assert Precedes(PeakKey(best[i]), PeakKey(best[j]), Descending);
    }
  }

  /** No state left out has a higher peak than a state chosen. */
  lemma TopStatesBeatTheRest(normal: seq<Region>)
    ensures forall s, t :: s in TopStates(normal) && t in States(normal) && t !in TopStates(normal) ==>
      Precedes(PeakOf(normal, s), PeakOf(normal, t), Descending)
  {
    forall s, t | s in TopStates(normal) && t in States(normal) && t !in TopStates(normal)
      ensures Precedes(PeakOf(normal, s), PeakOf(normal, t), Descending)
    {
      ChosenBeatsLeftOut(normal, s, t);
    }
  }

  lemma ChosenBeatsLeftOut(normal: seq<Region>, s: string, t: string)
    requires s in TopStates(normal) && t in States(normal) && t !in TopStates(normal)
    ensures Precedes(PeakOf(normal, s), PeakOf(normal, t), Descending)
  {
    var all := StateMaxima(normal);
    var best := TopPeaks(normal);
    var top := TopStates(normal);
    var ss := States(normal);
    var i :| 0 <= i < |top| && top[i] == s;
    var k :| 0 <= k < |ss| && ss[k] == t;
    var q := all[k];
    NotChosen(best, top, q);
    var p := best[i];
    assert p in best;
    assert q in multiset(all) - multiset(best);
    assert Precedes(p.peak, q.peak, Descending);
    TopPeaksFromTable(normal);
    var m :| 0 <= m < |all| && all[m] == p;
    StateMaximaAt(normal, m);
    StateMaximaAt(normal, k);
  }

  lemma StateMaximaAt(normal: seq<Region>, j: nat)
    requires j < |StateMaxima(normal)|
    ensures j < |States(normal)|
    ensures StateMaxima(normal)[j].state == States(normal)[j]
    ensures StateMaxima(normal)[j].peak == PeakOf(normal, States(normal)[j])
  {
  }

  /** A peak whose state is not among the chosen names is not chosen. */
  lemma NotChosen(best: seq<StatePeak>, top: seq<string>, q: StatePeak)
    requires |top| == |best|
    requires forall j :: 0 <= j < |best| ==> top[j] == best[j].state
    requires q.state !in top
    ensures q !in multiset(best)
  {
    forall j | 0 <= j < |best| ensures best[j] != q {
      assert top[j] in top;
    }
  }

  /** `normal_data[normal_data['state'].isin(top_states_list)]`. */
  function FilteredData(normal: seq<Region>, top: seq<string>): (shown: seq<Region>)
    ensures forall r :: r in shown <==> r in normal && r.state in top
    ensures SubsequenceOf(shown, normal)
    ensures forall x :: multiset(shown)[x] == if x.state in top then multiset(normal)[x] else 0
  {
    FilterKeepsOrder(normal, (r: Region) => r.state in top);
    Filter(normal, (r: Region) => r.state in top)
  }

  // ---------------------------------------------------------------------
  // Maintenance-heavy districts
  // ---------------------------------------------------------------------

  const HeavyQuantile: real := 0.90
  const HeavyCount: nat := 10

  function MaintenanceKey(r: Region): Option<real>
  {
    r.maintenanceRatio
  }

  function MaintenanceColumn(rows: seq<Region>): (col: seq<Option<real>>)
    ensures |col| == |rows|
    ensures forall i :: 0 <= i < |rows| ==> col[i] == rows[i].maintenanceRatio
  {
    seq(|rows|, (i: int) requires 0 <= i < |rows| => rows[i].maintenanceRatio)
  }

  /** `total_maintenance_ratio.quantile(0.90)` with NaN skipped: NaN when no
      ratio is defined, otherwise between the smallest and the largest
      defined ratio. */
  function MaintenanceThreshold(rows: seq<Region>): (t: Option<real>)
    ensures t.None? <==> forall r :: r in rows ==> r.maintenanceRatio.None?
    ensures t.Some? ==> exists r :: r in rows && AtMost(r.maintenanceRatio, t.value)
    ensures t.Some? ==> exists r :: r in rows && AtLeast(r.maintenanceRatio, t.value)
  {
    var col := MaintenanceColumn(rows);
    var t := Quantile(Defined(col), HeavyQuantile);
    ThresholdWitnesses(rows, t);
    t
  }

  lemma ThresholdWitnesses(rows: seq<Region>, t: Option<real>)
    requires t == Quantile(Defined(MaintenanceColumn(rows)), HeavyQuantile)
    ensures t.None? <==> forall r :: r in rows ==> r.maintenanceRatio.None?
    ensures t.Some? ==> exists r :: r in rows && AtMost(r.maintenanceRatio, t.value)
    ensures t.Some? ==> exists r :: r in rows && AtLeast(r.maintenanceRatio, t.value)
  {
    var col := MaintenanceColumn(rows);
    var xs := Defined(col);
    if t.Some? {
      var lo :| lo in xs && lo <= t.value;
      var hi :| hi in xs && hi >= t.value;
      var i := DefinedAt(col, lo);
      var j := DefinedAt(col, hi);
      var a := ColumnRow(rows, i, lo);
      var b := ColumnRow(rows, j, hi);
      assert AtMost(a.maintenanceRatio, t.value);
      assert AtLeast(b.maintenanceRatio, t.value);
    } else {
      forall r | r in rows ensures r.maintenanceRatio.None? {
        var i :| 0 <= i < |rows| && rows[i] == r;
        DefinedNone(col, i);
      }
    }
  }

  /** The row behind a defined entry of the maintenance column. */
  lemma ColumnRow(rows: seq<Region>, i: nat, x: real) returns (r: Region)
    requires i < |rows| && MaintenanceColumn(rows)[i] == Some(x)
    ensures r in rows && r.maintenanceRatio == Some(x)
  {
    r := rows[i];
  }

  predicate IsHeavy(r: Region, threshold: Option<real>)
  {
    threshold.Some? && AtLeast(r.maintenanceRatio, threshold.value)
  }

  /** `region_df[ratio >= threshold].sort_values(ratio, ascending=False)`:
      exactly the districts at or above the threshold, by non-increasing
      ratio. */
  function MaintenanceHeavy(rows: seq<Region>): (heavy: seq<Region>)
    ensures forall r :: r in heavy <==> r in rows && IsHeavy(r, MaintenanceThreshold(rows))
    ensures multiset(heavy) == multiset(Filter(rows, (r: Region) => IsHeavy(r, MaintenanceThreshold(rows))))
    ensures SortedBy(heavy, MaintenanceKey, Descending)
  {
    var t := MaintenanceThreshold(rows);
    var kept := Filter(rows, (r: Region) => IsHeavy(r, t));
    var heavy := SortBy(kept, MaintenanceKey, Descending);
    SameMembers(heavy, kept);
    heavy
  }

  /** Some district is maintenance-heavy whenever some maintenance ratio is
      defined. */
  lemma MaintenanceHeavyNonEmpty(rows: seq<Region>)
    requires exists r :: r in rows && r.maintenanceRatio.Some?
    ensures MaintenanceHeavy(rows) != []
  {
    var t := MaintenanceThreshold(rows);
    var r :| r in rows && AtLeast(r.maintenanceRatio, t.value);
    assert r in MaintenanceHeavy(rows);
  }

  /** `maintenance_heavy.head(10)`. */
  function TopMaintenance(rows: seq<Region>): (top: seq<Region>)
    ensures |top| == Min(HeavyCount, |MaintenanceHeavy(rows)|)
    ensures top == MaintenanceHeavy(rows)[..|top|]
    ensures SortedBy(top, MaintenanceKey, Descending)
  {
    Head(MaintenanceHeavy(rows), HeavyCount)
  }

  // ---------------------------------------------------------------------
  // Dominant need
  // ---------------------------------------------------------------------

  datatype Need = BioHeavy | DemoHeavy

  function NeedLabel(n: Need): (tag: string)
    ensures (n == BioHeavy) == (tag == "Bio-Heavy (Scanners Needed)")
    ensures (n == DemoHeavy) == (tag == "Demo-Heavy (Data Entry Needed)")
  {
    match n
    case BioHeavy => "Bio-Heavy (Scanners Needed)"
    case DemoHeavy => "Demo-Heavy (Data Entry Needed)"
  }

  /** `get_dominant_need`: Bio-Heavy when the bio ratio is the larger; a
      tie, or a NaN on either side, gives Demo-Heavy. */
  function DominantNeed(r: Region): (n: Need)
    ensures n == BioHeavy <==> r.bioRatio.Some? && r.demoRatio.Some? && r.bioRatio.value > r.demoRatio.value
  {
    if r.bioRatio.Some? && r.demoRatio.Some? && r.bioRatio.value > r.demoRatio.value then BioHeavy
    else DemoHeavy
  }

  /** `top10_maintenance.apply(get_dominant_need, axis=1)`: the dominant
      need of each listed district (at most ten), in their order. */
  function TopMaintenanceNeeds(rows: seq<Region>): (needs: seq<Need>)
    ensures |needs| == |TopMaintenance(rows)|
    ensures forall i :: 0 <= i < |needs| ==> needs[i] == DominantNeed(TopMaintenance(rows)[i])
  {
    var top := TopMaintenance(rows);
    seq(|top|, (i: int) requires 0 <= i < |top| => DominantNeed(top[i]))
  }

  /** With the ratio columns assigned on the table, a listed district is
      Bio-Heavy exactly when it has enrolments and more biometric than
      demographic updates. */
  lemma TopMaintenanceNeedsByCounts(rows: seq<Region>)
    requires forall r :: r in rows ==> Holds(BioRatio, r) && Holds(DemoRatio, r)
    ensures forall i :: 0 <= i < |TopMaintenanceNeeds(rows)| ==>
      (TopMaintenanceNeeds(rows)[i] == BioHeavy <==>
        TopMaintenance(rows)[i].totalEnrolments > 0 &&
        TopMaintenance(rows)[i].bioActivity > TopMaintenance(rows)[i].demoActivity)
  {
    var top := TopMaintenance(rows);
    var heavy := MaintenanceHeavy(rows);
    forall i | 0 <= i < |top|
      ensures DominantNeed(top[i]) == BioHeavy <==>
        top[i].totalEnrolments > 0 && top[i].bioActivity > top[i].demoActivity
    {
      assert top[i] == heavy[i];
      assert heavy[i] in heavy;
      DominantNeedByCounts(top[i]);
    }
  }

  /** With the ratio columns assigned, the classification compares the raw
      counters: Bio-Heavy exactly when the district has enrolments and more
      biometric than demographic updates; equal counts give Demo-Heavy. */
  lemma DominantNeedByCounts(r: Region)
    requires Holds(BioRatio, r) && Holds(DemoRatio, r)
    ensures DominantNeed(r) == BioHeavy <==> r.totalEnrolments > 0 && r.bioActivity > r.demoActivity
  {
    if r.totalEnrolments > 0 {
      var e := r.totalEnrolments as real;
      RatioOrder(r.bioRatio.value, r.demoRatio.value, e, r.bioActivity as real, r.demoActivity as real);
    }
  }

  /** Two quotients by the same positive denominator compare as their
      numerators do. */
  lemma RatioOrder(a: real, b: real, e: real, x: real, y: real)
    requires e > 0.0 && a * e == x && b * e == y
    ensures a > b <==> x > y
  {
    if a > b {
      assert (a - b) * e > 0.0;
    } else {
      assert (b - a) * e >= 0.0;
    }
  }

  // ---------------------------------------------------------------------
  // Worked scenarios
  // ---------------------------------------------------------------------

  /** Three pincodes of one district sum to a single district row. */
  lemma ScenarioTotals(s: string, d: string, ps: seq<PincodeRecord>)
    requires ps == [PincodeRecord(s, d, 500, 0, 0), PincodeRecord(s, d, 0, 800, 900), PincodeRecord(s, d, 10, 5, 5)]
    ensures DistrictTotals(ps) == [Tally(Key(s, d), [510, 805, 905])]
  {
    var ts := Tallies(ps);
    var k := Key(s, d);
    assert ts == [Tally(k, [500, 0, 0]), Tally(k, [0, 800, 900]), Tally(k, [10, 5, 5])];
    assert ts[2..] == [Tally(k, [10, 5, 5])];
    assert GroupSum(ts[2..]) == [Tally(k, [10, 5, 5])] by {
      assert ts[2..][1..] == [];
    }
    AddCounts3([0, 800, 900], [10, 5, 5], [10, 805, 905]);
    assert ts[1..][1..] == ts[2..];
    assert GroupSum(ts[1..]) == [Tally(k, [10, 805, 905])];
    AddCounts3([500, 0, 0], [10, 805, 905], [510, 805, 905]);
  }

  lemma AddCounts3(a: seq<nat>, b: seq<nat>, c: seq<nat>)
    requires |a| == |b| == |c| == 3
    requires forall j :: 0 <= j < 3 ==> c[j] == a[j] + b[j]
    ensures AddCounts(a, b) == c && AddCounts(b, a) == c
  {
    assert forall j :: 0 <= j < 3 ==> AddCounts(a, b)[j] == At(AddCounts(a, b), j);
    assert forall j :: 0 <= j < 3 ==> AddCounts(b, a)[j] == At(AddCounts(b, a), j);
  }

  /** The worked district: state "westbengal " and district
      "Medchal?malkajgiri" become "West Bengal" and "Medchal-malkajgiri",
      the district's 2220 actions pass the volume filter, and its update
      ratio is 1710 / 510. */
  lemma UpdatePressureScenario(s: string, d: string, ps: seq<PincodeRecord>)
    requires s == "westbengal " && d == "Medchal?malkajgiri"
    requires ps == [PincodeRecord(s, d, 500, 0, 0), PincodeRecord(s, d, 0, 800, 900), PincodeRecord(s, d, 10, 5, 5)]
    ensures |DistrictTotals(ps)| == 1
    ensures var r := WithUpdateRatio(WithTotalUpdates(WithDistrictLabel(WithStateLabel(
                       WithTotalActivity(RegionOf(DistrictTotals(ps)[0]))))));
      && r.state == "West Bengal" && r.district == "Medchal-malkajgiri"
      && r.totalActivity == 2220 && IsBusy(r, VolumeThreshold)
      && r.updateRatio == Some(1710.0 / 510.0)
  {
    ScenarioTotals(s, d, ps);
    NormaliseStateAliasExample(s);
    NormaliseDistrictExample(d);
  }

  /** Labels are corrected after grouping, so two raw spellings of one
      state stay two district rows, which then carry the same state label. */
  lemma RelabelKeepsDuplicates(s1: string, s2: string, d: string, ps: seq<PincodeRecord>)
    requires s1 != s2
    requires ps == [PincodeRecord(s1, d, 1, 0, 0), PincodeRecord(s2, d, 1, 0, 0)]
    ensures |DistrictTotals(ps)| == 2
    ensures NormaliseState(s1) == NormaliseState(s2) ==>
      WithStateLabel(RegionOf(DistrictTotals(ps)[0])).state == WithStateLabel(RegionOf(DistrictTotals(ps)[1])).state
  {
    var ts := Tallies(ps);
    var k1, k2 := Key(s1, d), Key(s2, d);
    assert ts == [Tally(k1, [1, 0, 0]), Tally(k2, [1, 0, 0])];
    assert ts[1..][1..] == [];
    assert GroupSum(ts[1..]) == [Tally(k2, [1, 0, 0])];
    var g := DistrictTotals(ps);
    KeyLessTotal(k1, k2);
    if KeyLess(k1, k2) {
      assert g == [Tally(k1, [1, 0, 0]), Tally(k2, [1, 0, 0])];
    } else {
      var g1 := [Tally(k2, [1, 0, 0])];
      assert g1[1..] == [];
      assert g == [g1[0]] + InsertTally(Tally(k1, [1, 0, 0]), []);
    }
  }

  /** A district with no enrolments has no update ratio, so it is neither an
      outlier nor in the normal range, and it appears in no chart of the
      normal range, however large its update count. */
  lemma NoEnrolmentsExcluded(r: Region, rows: seq<Region>, top: seq<string>)
    requires Holds(TotalUpdates, r) && Holds(UpdateRatio, r) && r.totalEnrolments == 0
    ensures r.updateRatio.None?
    ensures r !in Outliers(rows) && r !in NormalRows(rows)
    ensures r !in FilteredData(NormalRows(rows), top)
  {
  }
}
