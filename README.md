# Region metrics of the UIDAI enrolment and update notebooks, in Dafny

This project models the table transformations at the heart of two analysis
notebooks over Aadhaar enrolment and update counts:

* **Update pressure** (`books/book2.py`). Pincode rows are summed to districts.
  Each district gets a total activity, and its state and district labels are
  corrected. Districts with 1000 actions or fewer are dropped. The update
  ratio (updates per enrolment) splits districts into outliers (above 150)
  and a normal range. The 20 states with the highest peak ratio are chosen.
  Separate biometric, demographic and maintenance ratios give the
  districts at or above the 0.90 quantile of the maintenance ratio. The
  first ten of those (`TopMaintenance`) are each classified as Bio-Heavy or
  Demo-Heavy.
* **Age-driven pressure** (`books/book3.py`). Demographic and biometric update
  rows are summed to districts separately and inner-merged. Each district
  gets its child (5-17) and adult (17+) activity, their total and the adult
  share. The districts whose total activity is at or above the 0.75
  quantile of the totals (linear interpolation) are kept; with two districts
  that is one of them, and ties at the threshold keep more. From those the
  ten most adult-heavy and the ten most child-heavy districts are chosen.
  The median share serves as reference.

The model works with exact numbers. Counters are `nat`, ratios are exact
`real`s, and pandas' NaN is `Option<real>`, where `None` means undefined. A
zero denominator gives `None`, and a comparison with `None` is false. Sorting
places `None` last in both directions. The pandas operations the notebooks
use are stated once each, as functions with contracts:

* `groupby(...).sum()`, with keys in code-point order as `sort=True` gives
  them (`Grouping`);
* `merge` with the default inner join (`Grouping`);
* a boolean mask, `sort_values`, `head`, and `sort_values(...).head(n)`
  (`Selection`);
* `quantile` with linear interpolation and `median`, both skipping NaN
  (`Stats`);
* `str.title`, `str.strip`, `Series.replace` with a dictionary, and
  `str.replace` (`Labels`).

Each notebook assigns columns to its district table one after another. That
table is a class. In book2 it is `UpdatePressure.RegionFrame`; in book3 it is
`AgePressure.AgeFrame`. Each column step is a method with a loop over the
rows. Its contract states the new row contents, and it keeps an invariant,
`Valid()`: every assigned column holds its defining formula on every row.

Modules, in dependency order: `Ratios` (`ratios.dfy`), `Selection`
(`selection.dfy`), `Stats` (`stats.dfy`), `Labels` (`labels.dfy`), `Grouping`
(`grouping.dfy`), `UpdatePressure` (`update_pressure.dfy`, book2) and
`AgePressure` (`age_pressure.dfy`, book3).

Three behaviours of the code are easy to expect otherwise, and the model
follows the code in each:

* District labels are not title-cased. Only `?` is replaced by `-`, so
  `Medchal?malkajgiri` becomes `Medchal-malkajgiri`.
* A district whose update ratio is undefined (no enrolments) is in neither
  the outlier set nor the normal set. The two sets together do not cover the
  table.
* book3 joins the demographic and biometric sums with an inner merge.
  Districts present in only one of the two tables are dropped rather than
  zero-filled.

## Model

| member | source | states |
|---|---|---|
| Ratios.Div | books/book2.py:72-75 | `n / d.replace(0, nan)` is undefined exactly when `d = 0`; otherwise the quotient times `d` is `n` and is non-negative |
| Ratios.Plus | books/book2.py:194 | NaN-propagating sum: defined exactly when both operands are, and then their sum |
| Ratios.DivAdds | books/book2.py:185-194 | dividing two counters by one denominator and adding gives the quotient of their sum, undefined under the same condition |
| Ratios.DivPartOfWhole | books/book3.py:69-72 | a part over a whole that contains it is undefined or lies in [0, 1] |
| Selection.Filter | books/book2.py:57 | boolean-mask selection: at most as long as the table; a row is kept exactly when it satisfies the mask; each row keeps its number of occurrences |
| Selection.FilterKeepsOrder | books/book2.py:57 | a masked table is a subsequence of the table (order preserved) |
| Selection.FilterNarrower | books/book2.py:56-57 | masking with a stronger condition after a weaker one equals masking with the stronger one alone |
| Selection.PrecedesTotal | books/book2.py:95 | the NaN-last sort order compares every pair of values |
| Selection.PrecedesTransitive | books/book2.py:95 | the NaN-last sort order is transitive |
| Selection.Insert | books/book2.py:95 | inserting into a sorted table keeps it sorted and adds exactly that row |
| Selection.SortBy | books/book2.py:95 | `sort_values`: a permutation of the table (same length and multiset) in the requested direction, NaN last |
| Selection.Head | books/book2.py:221 | `head(n)`: the first `min(n, len)` rows |
| Selection.TopBy | books/book2.py:99 | `sort_values(...).head(n)`: `min(n, len)` rows drawn from the table, sorted, and no row left out ranks ahead of a chosen one |
| Selection.HeadRanksFirst | books/book2.py:99 | the head of a sorted table outranks every row after it |
| Selection.DistinctSubmultiset | books/book2.py:99 | taking rows from a table with distinct entries keeps them distinct |
| Stats.Defined | books/book2.py:205 | NaN skipping: exactly the defined values of a column, each as many times as the column holds it, so quantiles and medians use every defined value |
| Stats.Sorted | books/book2.py:205 | the values in non-decreasing order, as a permutation |
| Stats.Quantile | books/book2.py:205 | linear-interpolation quantile for q in [0, 1]: NaN exactly for no values; otherwise some value is at most it and some value is at least it |
| Stats.Interpolate | books/book2.py:205 | interpolating at a fractional position lies between the two order statistics around it |
| Stats.QuantileExtremes | books/book2.py:205 | the 0 quantile is the minimum and the 1 quantile the maximum |
| Stats.Median | books/book3.py:90 | `median()`: NaN exactly for no values |
| Stats.MedianIsHalfQuantile | books/book3.py:90 | the median (middle value, or the mean of the two middle values) equals the 0.5 linear-interpolation quantile |
| Labels.TitleAt | books/book2.py:44 | `str.title()` on ASCII, per character: a letter at the start of a word is upper-cased, a letter after a letter is lower-cased, and any other character is kept; the length is kept |
| Labels.TitleIdempotent | books/book2.py:44 | title-casing twice equals title-casing once |
| Labels.StripCharacterised | books/book2.py:44 | `strip()` returns the contiguous slice left after removing leading and trailing whitespace; a non-empty result starts and ends with a non-space |
| Labels.StripIdempotent | books/book2.py:44 | stripping twice equals stripping once |
| Labels.StripTitleCommute | books/book2.py:44 | stripping after title-casing equals title-casing after stripping |
| Labels.StripTitleSettles | books/book2.py:44 | title-case-then-strip is idempotent |
| Labels.CanonicalLabel | books/book2.py:44 | a title-cased label without surrounding whitespace is left unchanged by title-casing and stripping |
| Labels.AliasTargetsAreCanonical | books/book2.py:45-50 | none of the four replacement labels is itself a key of the table; each is title-cased and has no surrounding whitespace |
| Labels.Title | books/book2.py:44 | title-casing keeps the length; the per-character rule is TitleAt |
| Labels.Strip | books/book2.py:44 | the result is a prefix of the input with its leading whitespace removed; the exact slice is StripCharacterised |
| Labels.ReplaceAlias | books/book2.py:45-50 | a label that is not one of the four listed names is unchanged; a listed name becomes its replacement; the result is never a listed name, so the table is applied once |
| Labels.NormaliseState | books/book2.py:44-50 | a normalised state is the title-cased, stripped label or one of the four replacements, and never a listed name |
| Labels.NormaliseStateShape | books/book2.py:44-50 | a normalised state is the title-cased, stripped input whenever that is not one of the four listed names, and otherwise exactly that name's replacement; it is never a listed name; title-casing and stripping leave it unchanged |
| Labels.NormaliseStateIdempotent | books/book2.py:44-50 | normalising a state label twice equals normalising it once |
| Labels.ReplaceAliasSettles | books/book2.py:45-50 | the replacement applied to a title-cased, stripped label gives a label that normalisation leaves unchanged |
| Labels.NormaliseStateAliasExample | books/book2.py:44-50 | `"westbengal "` normalises to `"West Bengal"` through the alias table |
| Labels.NormaliseStatePlainExample | books/book2.py:44 | `" gOA "` normalises to `"Goa"`, which is not an alias |
| Labels.CollidingStateLabels | books/book2.py:44-50 | two different raw labels, `" gOA "` and `"Goa"`, normalise to the same state |
| Labels.NormaliseDistrict | books/book2.py:53 | every `?` becomes `-`, every other character and the length are kept, and the result contains no `?` |
| Labels.NormaliseDistrictIdempotent | books/book2.py:53 | district correction is idempotent |
| Labels.NormaliseDistrictExample | books/book2.py:52-53 | `"Medchal?malkajgiri"` becomes `"Medchal-malkajgiri"` |
| Grouping.StrLessTotal | books/book2.py:32 | the code-point order of labels is total; with StrLessIrreflexive and StrLessTransitive it is a strict order |
| Grouping.KeyLessTotal | books/book2.py:32 | the (state, district) key order is total; with KeyLessIrreflexive and KeyLessTransitive it is a strict order |
| Grouping.AddCounts | books/book2.py:32-34 | adding two counter rows adds them column by column |
| Grouping.InsertTally | books/book2.py:32-34 | adding one row to a grouped table keeps the keys strictly ascending and adds its key |
| Grouping.GroupSum | books/book2.py:32-34 | `groupby(key).sum()`: keys strictly ascending (one row per key) and exactly the keys of the input |
| Grouping.GroupSumCounts | books/book2.py:32-34 | each grouped row's counter is the sum of that counter over the input rows with its key |
| Grouping.GroupSumKeySums | books/book2.py:32-34 | grouping preserves the per-key sum of every counter |
| Grouping.GroupSumConservesColumns | books/book2.py:32-34 | grouping preserves the column total of every counter |
| Grouping.GroupSumTable | books/book2.py:32-34 | with w counters per input row, every grouped row has w counters, each the per-key sum of that counter |
| Grouping.GroupSumWidth | books/book2.py:32-34 | grouping keeps the number of counter columns |
| Grouping.InnerJoin | books/book3.py:45-47 | inner merge: a row for exactly the pairs of a left and a right row with equal keys, carrying both rows' counters |
| Grouping.InnerJoinKeys | books/book3.py:45-47 | the merged keys are exactly the keys present in both tables |
| Grouping.MatchesOfIncreasing | books/book3.py:45-47 | against a table with one row per key, a left row has at most one partner |
| Grouping.InnerJoinOfGrouped | books/book3.py:45-47 | merging two grouped tables gives one row per common key, in ascending key order, and no more rows than the left table |
| UpdatePressure.Tallies | books/book2.py:32-34 | one counter row per pincode with its raw key and its three counters |
| UpdatePressure.DistrictTotals | books/book2.py:32-34 | the district sums: keys strictly ascending, so one row per key, and exactly the keys of the pincode rows |
| UpdatePressure.DistrictTotalsKeys | books/book2.py:32-34 | the district table has exactly one row per distinct raw (state, district) pair of the pincodes |
| UpdatePressure.DistrictTotalsCounts | books/book2.py:32-34 | each district row's three counters are the sums over the pincodes with its key |
| UpdatePressure.DistrictTotalsConserve | books/book2.py:32-34 | aggregation conserves the national total of each counter |
| UpdatePressure.RegionFrame.constructor | books/book2.py:32-34 | the table starts as the district sums with no column assigned |
| UpdatePressure.RegionFrame.MapRows | books/book2.py:37-41 | a column assignment replaces every row by its image, row by row, in place |
| UpdatePressure.RegionFrame.AddTotalActivity | books/book2.py:37-41 | `total_activity = total_enrolments + demo_activity + bio_activity` on every row; the invariant is kept |
| UpdatePressure.RegionFrame.NormaliseStates | books/book2.py:44-50 | every state label is normalised; every assigned column still holds |
| UpdatePressure.RegionFrame.NormaliseDistricts | books/book2.py:53 | every district label has `?` replaced; every assigned column still holds |
| UpdatePressure.RegionFrame.ApplyVolumeFilter | books/book2.py:56-57 | the table is rebound to the rows with `total_activity > 1000` |
| UpdatePressure.RegionFrame.AddTotalUpdates | books/book2.py:67-70 | `total_updates = demo_activity + bio_activity` on every row |
| UpdatePressure.RegionFrame.AddUpdateRatio | books/book2.py:72-75 | `update_to_enrolment_ratio = total_updates / total_enrolments`, NaN for no enrolments |
| UpdatePressure.RegionFrame.AddBioRatio | books/book2.py:185-187 | `bio_to_enrol_ratio` on every row |
| UpdatePressure.RegionFrame.AddDemoRatio | books/book2.py:189-191 | `demo_to_enrol_ratio` on every row |
| UpdatePressure.RegionFrame.AddMaintenanceRatio | books/book2.py:194 | `total_maintenance_ratio = bio ratio + demo ratio` on every row |
| UpdatePressure.PrepareRegions | books/book2.py:37-57 | total activity, state labels, district labels and the volume filter in that order: the rows become the busy rows of the prepared table, and the invariant is kept |
| UpdatePressure.AddPressureColumns | books/book2.py:67-194 | the five ratio columns in the notebook's order: every row becomes its image under all five steps, and all six derived columns hold |
| UpdatePressure.BuildRegionTable | books/book2.py:32-194 | the steps in the notebook's order: the table's rows are exactly `RegionTable(ps)` and all six derived columns hold |
| UpdatePressure.RegionTableRows | books/book2.py:32-194 | the finished table holds exactly the district sums with more than 1000 actions, each through every step; every derived column holds on every row; state labels are normalised and no district label contains `?` |
| UpdatePressure.RelabelKeepsDuplicates | books/book2.py:32-50 | labels are corrected after grouping, so two raw spellings of one state stay two rows that then carry the same state label |
| UpdatePressure.KeepBusy | books/book2.py:56-57 | exactly the rows with `total_activity > 1000` (strict), each with its input multiplicity; their order is stated by KeepBusyInOrder |
| UpdatePressure.KeepBusyInOrder | books/book2.py:56-57 | the kept rows are a subsequence of the input, in the input's order |
| UpdatePressure.KeepBusyMonotone | books/book2.py:56-57 | a higher threshold keeps a subsequence of what a lower one keeps |
| UpdatePressure.UpdateRatioMeaning | books/book2.py:67-75 | the update ratio is undefined exactly when there are no enrolments, and otherwise it is (demo + bio) / enrolments |
| UpdatePressure.MaintenanceIsUpdateRatio | books/book2.py:185-194 | the bio, demo and maintenance ratios are undefined exactly when there are no enrolments; the maintenance ratio equals the update ratio |
| UpdatePressure.Outliers | books/book2.py:95 | rows with a defined ratio above 150, the same rows as the mask with the same multiplicities, sorted non-increasing |
| UpdatePressure.NormalRows | books/book2.py:96 | exactly the rows with a defined ratio at most 150, in input order, each with its input multiplicity |
| UpdatePressure.OutliersDescending | books/book2.py:95 | every outlier ratio is defined and above 150, in non-increasing order |
| UpdatePressure.OutlierSplit | books/book2.py:95-96 | outliers and normal rows are disjoint; a row with undefined ratio is in neither; every other row is in one |
| UpdatePressure.MaxOf | books/book2.py:99 | NaN-skipping maximum of two values |
| UpdatePressure.PeakOf | books/book2.py:99 | a state's peak is at least every defined ratio of its districts and is attained by one of them |
| UpdatePressure.States | books/book2.py:99 | the distinct states of the table, each once |
| UpdatePressure.StateMaxima | books/book2.py:99 | one entry per state, carrying that state's peak |
| UpdatePressure.StateMaximaEntries | books/book2.py:99 | the per-state maxima have distinct states and carry each state's peak |
| UpdatePressure.TopPeaks | books/book2.py:99 | exactly min(20, number of states) entries of the per-state maxima, by non-increasing peak, and none left out ranks higher |
| UpdatePressure.TopStates | books/book2.py:99 | the chosen state names, in the order of their peaks; there are min(20, number of states) of them |
| UpdatePressure.TopStatesDistinct | books/book2.py:99 | the chosen states are distinct states of the table |
| UpdatePressure.TopStatesOrdered | books/book2.py:99 | the chosen states are listed by non-increasing peak ratio |
| UpdatePressure.TopStatesBeatTheRest | books/book2.py:99 | no state left out has a higher peak than a chosen state |
| UpdatePressure.FilteredData | books/book2.py:100 | exactly the normal rows whose state is chosen, in input order, each with its input multiplicity |
| UpdatePressure.NoEnrolmentsExcluded | books/book2.py:72-100 | a district without enrolments has no ratio, so it is neither an outlier nor normal and appears in no chosen-state chart |
| UpdatePressure.MaintenanceThreshold | books/book2.py:205 | the 0.90 quantile of the defined maintenance ratios: NaN exactly when none is defined, otherwise between the smallest and the largest of them |
| UpdatePressure.MaintenanceHeavy | books/book2.py:207-209 | exactly the rows with a defined maintenance ratio at or above the threshold, with their multiplicities, sorted non-increasing |
| UpdatePressure.MaintenanceColumn | books/book2.py:205 | the maintenance-ratio column, row by row |
| UpdatePressure.MaintenanceHeavyNonEmpty | books/book2.py:205-209 | some district is maintenance-heavy whenever any maintenance ratio is defined |
| UpdatePressure.TopMaintenance | books/book2.py:221 | the first `min(10, len)` maintenance-heavy rows, still sorted |
| UpdatePressure.NeedLabel | books/book2.py:229-233 | the two labels of the classifier, each the label of exactly one need |
| UpdatePressure.DominantNeed | books/book2.py:229-233 | Bio-Heavy exactly when both ratios are defined and the bio ratio is strictly larger; a tie or a NaN gives Demo-Heavy |
| UpdatePressure.DominantNeedByCounts | books/book2.py:229-233 | with the ratio columns assigned: Bio-Heavy exactly when the district has enrolments and strictly more biometric than demographic updates |
| UpdatePressure.TopMaintenanceNeeds | books/book2.py:235 | the dominant need of each district of `TopMaintenance` (the first min(10, len) heavy districts), in their order, one per district |
| UpdatePressure.TopMaintenanceNeedsByCounts | books/book2.py:229-235 | with the ratio columns assigned, a listed district is Bio-Heavy exactly when it has enrolments and strictly more biometric than demographic updates |
| UpdatePressure.ScenarioTotals | books/book2.py:32-34 | three pincodes of one district sum to a single row with counters 510, 805 and 905 |
| UpdatePressure.UpdatePressureScenario | books/book2.py:32-75 | that district becomes "West Bengal" / "Medchal-malkajgiri" with 2220 actions, passes the volume filter, and has update ratio 1710/510 |
| AgePressure.DemoTallies | books/book3.py:36-38 | one counter row per demographic row with its raw key and its two age counters |
| AgePressure.BioTallies | books/book3.py:41-43 | one counter row per biometric row with its raw key and its two age counters |
| AgePressure.DemoDist | books/book3.py:36-38 | `demo_dist`: keys strictly ascending and exactly the keys of the demographic rows |
| AgePressure.BioDist | books/book3.py:41-43 | `bio_dist`: keys strictly ascending and exactly the keys of the biometric rows |
| AgePressure.DemoDistCharacterised | books/book3.py:36-38 | `demo_dist` has one row per distinct raw (state, district) pair, and each age column is summed over that pair's rows |
| AgePressure.BioDistCharacterised | books/book3.py:41-43 | `bio_dist` has one row per distinct raw (state, district) pair, and each age column is summed over that pair's rows |
| AgePressure.Merged | books/book3.py:45-47 | `district_df`: a row for exactly each pair of a `demo_dist` row and a `bio_dist` row with equal keys; its keys are those present in both |
| AgePressure.MergedKeys | books/book3.py:45-47 | the merged table has a row for exactly the districts present in both inputs, one each, in ascending key order |
| AgePressure.MergedCounts | books/book3.py:45-47 | each merged row carries the district's demographic and biometric sums |
| AgePressure.AgeRegionOf | books/book3.py:50-57 | `activity_5_17` and `activity_17_plus` are the demographic plus the biometric counter of the band; only labels and these columns are kept |
| AgePressure.AgeBandsSummed | books/book3.py:36-57 | each district's activity per age band is the sum, over its input rows, of the demographic and the biometric counter |
| AgePressure.AgeFrame.constructor | books/book3.py:45-57 | the table is the merged rows with the two age-band columns computed row by row, in a loop |
| AgePressure.AgeFrame.MapRows | books/book3.py:63-66 | a column assignment replaces every row by its image, row by row, in place |
| AgePressure.AgeFrame.AddTotalUpdateActivity | books/book3.py:63-66 | `total_update_activity = activity_5_17 + activity_17_plus` on every row; the invariant is kept |
| AgePressure.AgeFrame.AddAdultShare | books/book3.py:69-72 | `age_17_plus_share = activity_17_plus / total_update_activity`, NaN for no activity |
| AgePressure.BuildDistrictTable | books/book3.py:36-72 | the steps in the notebook's order give one row per merged district, with both derived columns holding |
| AgePressure.AdultShareMeaning | books/book3.py:69-72 | the adult share is undefined exactly when the total is 0, otherwise lies in [0, 1] and times the total gives the adult activity |
| AgePressure.TotalColumn | books/book3.py:76 | the total-activity column, row by row |
| AgePressure.MinActivity | books/book3.py:76 | the 0.75 quantile of the totals: NaN exactly for an empty table, otherwise between the smallest and the largest total |
| AgePressure.Filtered | books/book3.py:77 | exactly the rows with total activity at or above `MIN_ACTIVITY`, never more rows than the table |
| AgePressure.FilteredCharacterised | books/book3.py:76-77 | the filtered table is a subsequence of the district table, non-empty whenever that table is non-empty |
| AgePressure.TopAdultHeavy | books/book3.py:84 | `min(10, len)` rows drawn from the filtered table, by share descending with NaN last, none left out ranking higher |
| AgePressure.TopChildHeavy | books/book3.py:87 | the same by share ascending with NaN last |
| AgePressure.TopAdultHeavyOrder | books/book3.py:84 | defined shares do not increase and undefined shares come last; a left-out district with a defined share has a share no higher than every listed one |
| AgePressure.TopChildHeavyOrder | books/book3.py:87 | defined shares do not decrease and undefined shares come last |
| AgePressure.ShareColumn | books/book3.py:90 | the share column, row by row |
| AgePressure.MedianShare | books/book3.py:90 | `median()` of the shares is the 0.5 quantile of the defined shares |
| AgePressure.MedianShareCharacterised | books/book3.py:90 | the median share is the 0.5 quantile of the defined shares; it is NaN exactly when no share is defined; with the share column assigned it lies in [0, 1] |
| AgePressure.ReferenceMedian | books/book3.py:163 | the chart's reference line, recomputed over the filtered districts only: the 0.5 quantile of their defined shares, NaN exactly when none of them has one |
| AgePressure.AgeScenario | books/book3.py:36-72 | a district with only demographic rows is dropped by the merge; the remaining district has 4 child and 12 adult actions, 16 in all, and adult share 0.75 |


## Left out

- Plotting, figure text, legends, label placement and axis limits in both notebooks: presentation only.
- `textwrap.fill` of long district names and the row formatting of the outlier box: display strings only.
- The loader behind `from book1 import ...` is not part of this model: the pincode, demographic and biometric tables are parameters.
- `describe()`, `head()` and `print` diagnostics: they change nothing.
- IEEE floating point, including summation order: ratios are exact rationals, and NaN is modelled only as undefined.
- `str.title()` and `strip()` are modelled on ASCII only. A letter is upper-cased when it starts a word and lower-cased after a letter, and the whitespace set is Python's ASCII whitespace. Full Unicode case mapping is not modelled.
- `astype(str)` on the district column: districts are already strings here.
- SortBy: the order among rows with equal keys is left open, because pandas' default sort is not stable; only sortedness and the permutation are stated.
- TopStates: the order of states whose peaks are equal is left open, as is the order of the grouped state-maximum table it starts from.
- Missing labels: `groupby` keeps pandas' default `dropna=True` (books/book2.py:32, books/book3.py:36 and 41), so pincode and update rows whose state or district is NaN are dropped before summing. Labels are strings here and always present, so DistrictTotals, DemoDist and BioDist see every row. DistrictTotalsConserve and GroupSumConservesColumns therefore describe pandas only for inputs in which every label is present.
- The five labelled dots of the adult-heavy chart (`head(5)`): they are a display choice.
