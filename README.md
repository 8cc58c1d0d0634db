# paddock_etl core, modelled in Dafny

paddock_etl moves a farm's paddock attribute records, which are filed year by year under paddock ids that change, onto one stable set of reference paddock ids. It then merges the records that land on the same reference paddock. This project models the two pieces of logic that do that work and proves what they promise.

- **Paddock identity resolution** (`SpatialMatcher`, spatial_matching.py). The reference year is the latest year of the farm's rows. Its paddocks, one per paddock id taken from the id's first row, form the reference set, in ascending id order. Every distinct paddock id of the other years goes to the reference paddock that covers the largest share of its area. An id stays itself when there is no match, the match id is empty, or the share is below the threshold. Every reference id then maps to itself. The mapping is kept across calls.
- **Aggregation and normalisation** (`DataProcessor`, data_processing.py).
  - Row paddock ids are rewritten through the mapping.
  - Rows without a mapping entry are dropped.
  - The rest are grouped by (reference paddock, year, namespace).
  - Each group's `data` dicts are merged key by key under a per-namespace rule table. The rules are "sum", "mean", "divide_by_paddock_count", "first" and "majority". An unknown rule, and any exception, falls back to the first non-None value.
  - The groups are pivoted to one row per (reference paddock, year), with one column per namespace.

Files:

- `farm_records.dfy` (`FarmRecords`): the joined row, of type `Record`, and the attribute values.
  - `Value` has Python's run-time types: None, int, float, bool, str, and a nested list or dict (`Compound`).
  - `Payload` is the `data` cell: SQL NULL or JSON null, a dict, or any other JSON value (an array, a string, a number or a boolean). Each one carries its Python truthiness.
- `aggregation.dfy` (`Aggregation`): `_apply_aggregation_rule` as the function `ApplyRule`, with reference definitions and lemmas.
- `data_processing.dfy` (`DataProcessing`): `combine_namespace_data` as a method with the source's loops, proved against `Combined`; `normalize_farm_data` as a method over the groups, proved against `GroupCell`; and the default rule table of config.py:33-45 as `DefaultRules`.
- `string_order.dfy` (`StringOrder`): Python's ordering of `str`, by which pandas sorts the reference ids. The lemmas show it is a strict total order.
- `spatial_matching.dfy` (`SpatialMatching`): the class `SpatialMatcher` with the source's three state fields, the specification functions its methods are proved against, and the lemmas about them.

## Behaviour of the source that is easy to miss

- **"sum" with no numeric entries.** It returns Python's int `0`, the start value of `sum()`, not the float `0.0`. `SumRuleAddsNumbers` states `Int(0)`. "divide_by_paddock_count" with a positive count returns the float `0.0` in that case.
- **Exception paths.** Two are real and both fall back to the first non-None value.
  - `float()` of an int with magnitude at least 2^1024 - 2^970 raises OverflowError under the three numeric rules.
  - `Counter` raises TypeError on a nested list or dict under "majority".
- **Python equality in "majority".** `Counter` groups values by Python `==`, so `1`, `1.0` and `True` are one value. The value returned is the first occurrence of the winning class.
- **Non-dict payloads.** A one-row group passes its `data` through unchanged, whatever JSON value it holds. It is serialised whenever it is truthy, so a cell can hold an array, a string, a number or a boolean. In a group of several rows, non-dict payloads contribute no keys.
- **pivot_table drops None.** A None cell is dropped, and so is a (paddock, year) row whose every cell is None. The table therefore never holds a None cell or an empty row.
- **Sorted reference set.** `groupby('data_paddock_id').first()` iterates the reference paddocks in ascending id order, not in input order. That order decides which candidate wins a tie in find_best_spatial_match.
- **Missing or NaN reference year.** The reference year can be `None`, either before `determine_reference_year` runs or as NaN for an empty frame. No row then satisfies `year == reference_year`, and every row satisfies `year != reference_year`.

The geometry library enters as a `GeometryOps` value: the area of a boundary, and the outcome of intersecting two boundaries (empty, an exception, or a non-empty overlap with its area). The rows, the mapping, the threshold and the rule table are parameters. No input or output is modelled.

## Model

| member | source | states |
|---|---|---|
| FarmRecords.ValueTruthy | data_processing.py:122 | no contract; Python truthiness of a value: None, 0, 0.0, False, "" and an empty list or dict are false |
| FarmRecords.PayloadTruthy | data_processing.py:122 | no contract; truthiness of a `data` cell: None is false, a dict is true when not empty, any other JSON value by ValueTruthy |
| Aggregation.Clean | data_processing.py:55 | no contract; the None filter; CleanKeepsNonNull says what it keeps |
| Aggregation.PyEq | data_processing.py:82 | no contract; Python `==` as Counter uses it: numbers compare by value (1 == 1.0 == True), other values structurally; see CountLikeRespectsEq |
| Aggregation.CountLike | data_processing.py:82 | no contract; Counter's count of a value under Python `==`; see CountLikeRespectsEq and MajorityRulePicksMostCommon |
| Aggregation.MostCommonFrom | data_processing.py:82 | the scan of most_common(1) returns an index inside the list; MostCommonFromIsEarliestMaximum says which one |
| Aggregation.MostCommonIndex | data_processing.py:82 | most_common(1)[0][0] as an index inside the cleaned list; see MajorityRulePicksMostCommon |
| Aggregation.ApplyRule | data_processing.py:50-90 | no contract of its own; it models _apply_aggregation_rule, and its meaning is given by NullResult, SumRuleAddsNumbers, MeanRuleAverages, DivideRuleNormalises, FirstRuleTakesFirst, OverflowFallsBackToFirst, UnhashableMajorityFallsBack and MajorityRulePicksMostCommon |
| Aggregation.CleanKeepsNonNull | data_processing.py:55 | dropping None leaves exactly the non-None values; the list becomes empty iff every value was None; its head is the first non-None value |
| Aggregation.FirstNonNullIsEarliest | data_processing.py:55-58 | the reference "first non-None value" is None iff every value is None; otherwise it sits at an index with only None before it |
| Aggregation.FloatsOfClean | data_processing.py:63-72 | the floats the numeric rules add are the int, float and bool entries: their sum is the numeric total of the raw list and their count the numeric count |
| Aggregation.NumericTotalAppend | data_processing.py:63 | the numeric total and count of two concatenated lists are the sums of their parts |
| Aggregation.NullResult | data_processing.py:54-68 | for every rule, the result is None iff all values are None (or there are none), or the rule is "mean" and no entry is numeric |
| Aggregation.SumRuleAddsNumbers | data_processing.py:61-63 | "sum" is the exact sum of the int/float/bool entries, other entries ignored; with no numeric entry it is the int 0 |
| Aggregation.MeanRuleAverages | data_processing.py:65-68 | "mean" is the numeric total divided by the number of numeric entries, None when there are none |
| Aggregation.DivideRuleNormalises | data_processing.py:70-73 | "divide_by_paddock_count" is the numeric total divided by a positive paddock count, and exactly the "sum" result when the count is 0 or less |
| Aggregation.FirstRuleTakesFirst | data_processing.py:75-86 | "first" and every unknown rule name give the first non-None value in input order |
| Aggregation.OverflowFallsBackToFirst | data_processing.py:60-90 | a numeric rule that meets an int too large for float() is caught and gives the first non-None value |
| Aggregation.UnhashableMajorityFallsBack | data_processing.py:79-90 | "majority" over a nested list or dict is caught and gives the first non-None value |
| Aggregation.MostCommonFromIsEarliestMaximum | data_processing.py:82 | the most_common(1) scan ends at the earliest index of highest count |
| Aggregation.CountLikeRespectsEq | data_processing.py:82 | values equal under Python == have the same Counter count |
| Aggregation.MajorityRulePicksMostCommon | data_processing.py:79-82 | "majority" returns a value of maximal count under Python ==; every earlier value has a strictly smaller count (ties go to the earliest first occurrence); and it is the first occurrence of its class |
| DataProcessing.RuleFor | data_processing.py:24-45 | a key's rule is the namespace table's entry when both exist, and "first" when the namespace or the key is missing |
| DataProcessing.AllKeys | data_processing.py:29-32 | no contract; the key union, characterised by AllKeysAreRowKeys |
| DataProcessing.ValuesFor | data_processing.py:34-38 | no contract; a key's collected values, characterised by ValuesForAppend and ValuesForOneRow |
| DataProcessing.Reduced | data_processing.py:45-46 | no contract; one key's values under its rule, i.e. ApplyRule of ValuesFor under RuleFor |
| DataProcessing.ReducedFields | data_processing.py:26-47 | no contract; every key of the union mapped to its reduced value |
| DataProcessing.Combined | data_processing.py:14-48 | no contract; the specification CombineNamespaceData is proved equal to |
| DataProcessing.CollectKeys | data_processing.py:29-32 | the first loop yields the union of the keys of the dict-valued rows |
| DataProcessing.CollectValues | data_processing.py:35-38 | the inner loop yields the values of the key in row order, from the dict-valued rows that have the key |
| DataProcessing.AllKeysAreRowKeys | data_processing.py:29-32 | a key is in the key union iff some row's dict has it |
| DataProcessing.ValuesForAppend | data_processing.py:34-38 | the values collected over consecutive runs of rows are concatenated in row order |
| DataProcessing.ValuesForOneRow | data_processing.py:37-38 | one row contributes its value for the key (None included) when its dict has the key, and nothing otherwise |
| DataProcessing.KeyedValuesNonEmpty | data_processing.py:40-42 | every key of the union has at least one collected value, so the `not values` branch is never taken |
| DataProcessing.CombineNamespaceData | data_processing.py:14-48 | a one-row group returns that row's data unchanged; otherwise the result is a dict whose keys are exactly the union of the rows' keys, each mapped to its collected values under `rules.get(key, "first")` |
| DataProcessing.LivestockPairValues | config.py:33-45 | each key of the two-record livestock example collects both records' values in order |
| DataProcessing.DefaultRulesSumAnimalCount | config.py:33-45 | under the default table, livestock animal counts 10 and 15 merge to the float 25 ("sum") |
| DataProcessing.DefaultRulesAverageStockingRate | config.py:33-45 | under the default table, stocking rates 2.0 and 3.0 merge to 2.5 ("mean") |
| DataProcessing.DefaultRulesKeepFirstAnimalType | config.py:33-45 | under the default table, animal types "cattle" then "sheep" merge to "cattle" ("first") |
| DataProcessing.GroupKeys | data_processing.py:109-113 | no contract; the keys of the mapped rows; see GroupRowsAreThoseWithKey |
| DataProcessing.GroupRows | data_processing.py:109-111 | no contract; a group's rows in input order, characterised by GroupRowsAreThoseWithKey and GroupRowsAppend |
| DataProcessing.GroupRowsAppend | data_processing.py:109-111 | grouping keeps input order and duplicates: the group of two runs of rows is the first run's group followed by the second's |
| DataProcessing.OriginalPaddockCount | data_processing.py:115 | no contract; the number of distinct original ids of a group; see GroupPaddockCount |
| DataProcessing.CellOf | data_processing.py:122 | a cell is serialised exactly when the combined payload is truthy, and then holds that payload unchanged |
| DataProcessing.ExpectedGroupRow | data_processing.py:115-124 | no contract; the result entry of one group: key, serialised combined data and paddock count |
| DataProcessing.SingleRowGroupCell | data_processing.py:115-122 | a one-row group's cell is that row's data, whatever JSON value it is, when truthy, and None otherwise; its paddock count is 1 |
| DataProcessing.GroupRowsAreThoseWithKey | data_processing.py:99-113 | a group holds exactly the rows whose id has a mapping entry and whose (mapped id, year, namespace) is the group's key; unmapped rows are in no group |
| DataProcessing.GroupsAreNonEmpty | data_processing.py:109-115 | every group has a row and an original paddock count of at least one |
| DataProcessing.GroupPaddockCount | data_processing.py:115 | original_paddock_count is the number of distinct original ids among the rows mapped onto the group |
| DataProcessing.AggregateGroups | data_processing.py:107-124 | one result entry per group, no key twice; each holds the group's key, its combined data serialised as None when falsy, and its paddock count |
| DataProcessing.Place | data_processing.py:133-138 | no contract; one entry's step of the pivot: a None cell is dropped and the first cell of a namespace wins; see PlaceCell and PivotLookup |
| DataProcessing.Pivot | data_processing.py:133-138 | no contract; the pivot over all entries, characterised by PivotLookup |
| DataProcessing.PivotLookup | data_processing.py:133-138 | each pivoted cell is the first non-None cell of its (paddock, year, namespace) key; a row exists only while it has a cell |
| DataProcessing.CellInDistinct | data_processing.py:133-138 | with one entry per key, the pivoted cell of a key is that entry's cell, and None without an entry |
| DataProcessing.NormalizeFarmData | data_processing.py:92-144 | the table's cell for (paddock, year, namespace) is that group's combined dict, None when the group is absent or its dict is falsy; there is at most one row per (paddock, year) and no empty row; no groups give an empty table |
| StringOrder.Less | spatial_matching.py:32-35 | no contract; Python's code-point lexicographic order on `str`, by which groupby sorts ids; see the four lemmas below |
| StringOrder.LessIrreflexive | spatial_matching.py:32-35 | no id sorts before itself |
| StringOrder.LessTransitive | spatial_matching.py:32-35 | the id order is transitive |
| StringOrder.LessTotal | spatial_matching.py:32-35 | any two distinct ids are ordered one way or the other |
| StringOrder.LessAsymmetric | spatial_matching.py:32-35 | two ids are never ordered both ways |
| SpatialMatching.MaxYear | spatial_matching.py:21 | the reference year is None exactly for no rows; otherwise it is a year of some row and no row has a later year |
| SpatialMatching.InReferenceYear | spatial_matching.py:29 | no contract; `year == reference_year`, false for every row when the year is None |
| SpatialMatching.FirstPerId | spatial_matching.py:32-35 | no contract; the selected rows with each id kept at its first row, in input order; characterised by the four lemmas below |
| SpatialMatching.FirstPerIdIds | spatial_matching.py:29-35 | keeping the first row per id keeps exactly the ids of the selected rows |
| SpatialMatching.FirstPerIdDistinct | spatial_matching.py:32-35 | the kept rows have pairwise distinct ids |
| SpatialMatching.FirstRowsAreKept | spatial_matching.py:32-35 | every selected row with no earlier selected row of its id is kept |
| SpatialMatching.KeptRowsAreFirst | spatial_matching.py:32-35 | every kept row is a selected row with no earlier selected row of its id |
| SpatialMatching.Insert | spatial_matching.py:32-35 | insertion into the id-sorted set adds exactly the one entry (as a multiset) |
| SpatialMatching.InsertKeepsSorted | spatial_matching.py:32-35 | inserting an entry with a new id into an id-sorted reference set keeps it sorted |
| SpatialMatching.SortById | spatial_matching.py:32-35 | sorting by id keeps exactly the entries it is given (as a multiset) |
| SpatialMatching.ReferenceSet | spatial_matching.py:29-35 | no contract; the reference-year rows grouped by id, first row per id, in id order; see ReferenceSetSortedIds and ReferenceSetIsFirstRowPerId |
| SpatialMatching.UniqueHistorical | spatial_matching.py:90-91 | no contract; the rows outside the reference year with each id kept at its first row (drop_duplicates); see FirstPerIdIds, FirstPerIdDistinct |
| SpatialMatching.SortByIdSorts | spatial_matching.py:32-35 | sorting entries with distinct ids gives strictly ascending ids |
| SpatialMatching.ReferenceSetSortedIds | spatial_matching.py:29-35 | the reference set is in strictly ascending id order, so one entry per id, and holds exactly the ids of the reference-year rows |
| SpatialMatching.ReferenceSetIsFirstRowPerId | spatial_matching.py:29-35 | an entry is in the reference set iff it carries the id and geometry of the first reference-year row of its id |
| SpatialMatching.CandidateRatio | spatial_matching.py:58-71 | no contract; one candidate's overlap ratio, or None when it is skipped (empty intersection, an exception, zero historical area) |
| SpatialMatching.BestMatch | spatial_matching.py:52-81 | no contract; the scan from (None, 0) replacing only on a strictly larger ratio; characterised by BestMatchIsFirstMaximum |
| SpatialMatching.BestMatchIsFirstMaximum | spatial_matching.py:52-81 | with no candidate offering a ratio above 0 the result is (None, 0); otherwise the ratio is the largest a non-skipped candidate offers, and the id is that of the first candidate offering it |
| SpatialMatching.BestMatchIsReference | spatial_matching.py:75 | the id found is a reference paddock's id |
| SpatialMatching.BestMatchTieGoesToSmallestId | spatial_matching.py:55-75 | over the id-sorted reference set, a tie is won by the smallest id that reaches the best ratio |
| SpatialMatching.Truthy | spatial_matching.py:100 | no contract; truthiness of best_match: not None and not the empty string |
| SpatialMatching.Resolve | spatial_matching.py:100-106 | no contract; the id one historical paddock maps to; characterised by ResolveIsBestOverlap |
| SpatialMatching.ResolveIsBestOverlap | spatial_matching.py:100-106 | a historical id maps to its best match exactly when that match is truthy and its ratio reaches the threshold (inclusive), and to itself otherwise; a remapped id targets a reference paddock offering the largest overlap ratio, at least the threshold and above 0 |
| SpatialMatching.WriteHistorical | spatial_matching.py:93-106 | no contract; the first loop's writes in order; characterised by WriteHistoricalEffect |
| SpatialMatching.WriteReferences | spatial_matching.py:109-110 | no contract; the second loop's writes in order; characterised by WriteReferencesEffect |
| SpatialMatching.UpdatedMapping | spatial_matching.py:89-110 | no contract; both loops applied to the old mapping; characterised by UpdatedMappingEffect and EveryInputIdIsMapped |
| SpatialMatching.WriteHistoricalEffect | spatial_matching.py:93-106 | the first loop adds one key per distinct historical id, mapped to its resolution, and keeps every other entry |
| SpatialMatching.WriteReferencesEffect | spatial_matching.py:109-110 | the second loop maps every reference id to itself and keeps every other entry |
| SpatialMatching.UpdatedMappingEffect | spatial_matching.py:89-110 | afterwards the keys are the old keys plus every historical and reference id; a reference id maps to itself even if it was just remapped as a historical id; any other historical id maps to its resolution; each written value is the key itself or a reference id; old unwritten entries survive |
| SpatialMatching.EveryInputIdIsMapped | spatial_matching.py:89-110 | with the reference set built from the same rows, every paddock id of the input is a key of the mapping |
| SpatialMatching.MappingSplits | spatial_matching.py:119-121 | identity entries plus other entries count the whole mapping |
| SpatialMatching.SpatialMatcher.constructor | spatial_matching.py:11-15 | a new matcher has no reference year, no reference set and an empty mapping |
| SpatialMatching.SpatialMatcher.DetermineReferenceYear | spatial_matching.py:17-23 | stores and returns the latest year of the rows |
| SpatialMatching.SpatialMatcher.CreateReferencePaddocks | spatial_matching.py:25-43 | stores and returns the reference set of the stored reference year |
| SpatialMatching.SpatialMatcher.FindBestSpatialMatch | spatial_matching.py:45-81 | the loop's (best_match, max_overlap) is the first-maximum scan over the stored reference set |
| SpatialMatching.SpatialMatcher.CreatePaddockMapping | spatial_matching.py:83-113 | the new mapping is the old one updated by both loops, over the distinct historical ids and then the reference ids; the returned dict is the stored mapping |
| SpatialMatching.SpatialMatcher.MapHistoricalPaddocks | spatial_matching.py:93-106 | the first loop of create_paddock_mapping: the new mapping is WriteHistorical of the old one over the distinct historical paddocks |
| SpatialMatching.SpatialMatcher.MapReferencePaddocks | spatial_matching.py:109-110 | the second loop: the new mapping is WriteReferences of the old one over the stored reference set |
| SpatialMatching.SpatialMatcher.GetMappingStats | spatial_matching.py:115-128 | total is the mapping size; self_mapped counts the identity entries; self_mapped + remapped == total, and remapped counts the other entries; the reference count is 0 before a reference set exists |

## Left out

- database.py is not part of this model: its SQL reads are I/O. The rows arrive as a sequence in the order the query delivers them, and "first row" means first in that sequence.
- utils.py, main.py and config.py are not part of this model, except the default rule table, because they are logging, CSV output, orchestration and the connection string. The threshold and the rule table are parameters. One matcher serving several farms is captured by the mapping carrying over between calls of `CreatePaddockMapping`.
- Logging has no effect on results and is left out. This includes the warning for unmapped rows and the unknown-rule warning.
- Geometry is not computed: areas and intersections come from a `GeometryOps` value.
- ValueTruthy: a nested list or dict is judged empty by its JSON text being `[]` or `{}`, the compact text json.dumps writes; other spellings of an empty container are not modelled.
- Floating point is modelled as exact reals. So is every Python float, and so is the area quotient. Rounding, the overflow of a float sum to infinity, and NaN or infinite values inside `data` are not modelled.
- json.dumps is not modelled: a cell is the structured dict, not its JSON text.
- The frame layout of the pivot is not modelled: the column index, the column and row order, and `reset_index`. The table is a map from (paddock, year) to namespace to dict.
- NormalizeFarmData: it does not model adding the `normalized_paddock_id` column to the caller's frame in place, because the model's rows are values. Its loop takes the groups in an unspecified order rather than sorted. The result is the same either way, because each group has its own keyed cell (`CellInDistinct`).
- The `pd.isna(norm_paddock_id)` test is modelled by leaving out rows whose id has no mapping entry. A mapping here holds only strings, so no mapped id is NaN.
- CreateReferencePaddocks: it takes each id's whole first reference-year row. `groupby().first()` takes the first non-null value column by column, but only the id and the geometry reach the model, and a missing geometry is outside it.
- FindBestSpatialMatch: it returns the real 0 where the source returns the int 0 for "no candidate". The value is only compared and formatted. The `historical_paddock_id` argument only feeds a log message.
- CreatePaddockMapping: the dict it returns is a map value, so the aliasing between the returned dict and the matcher's field is not modelled.
- FindBestSpatialMatch and CreatePaddockMapping: they require a reference set. In the source, when there is none, the loop over `None` raises before any entry is written. `reference_year` is modelled as an optional int, with NaN as None.
