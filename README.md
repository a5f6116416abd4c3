# Connectivity and community impact: a Dafny model of the table logic

The two ArcPy scripts `roads.py` and `trails.py` score potential bicycle
infrastructure in four Pennsylvania counties. This project models the
table logic of their steps in Dafny and proves properties of it. The
geometry and raster tools they call are inputs, not part of the model.

- **roads.py.** The model covers the selection of the top-30% LTS3 road
  segments. It also covers the overlap-resolution loop of
  `compute_CII_scores_per_lts3_NOT`. ZonalStatisticsAsTable gives a CII mean
  only to zones that do not overlap another zone of the same run. So the
  loop re-runs it on the segments left without a mean, one numbered table
  per pass, until every segment has one. The loop is a class
  (`Roads.OverlapResolution`). Its invariant `Valid` says three things:
  - the pass tables are numbered 1 to i-1;
  - every EDGE key of the buffered layer is either still unprocessed or
    resolved in exactly one table;
  - the working set holds rows of the buffered layer, and num_of_rows is
    its count.

  The contract of one pass adds that the working set only loses rows.
  The loop records the working set of each pass and proves that each table
  is the zonal output on that working set.
- **trails.py.** The model covers the island/trail pipeline:
  - preparing the LTS1-2 islands (dissolve on STRONG, the `STRONG > 0` and
    `Shape_Length >= 1000` filters, `Orig_Length`);
  - the key join with the zonal CII table;
  - the field mappings and their merge rules;
  - the one-to-one spatial join with Sum/Count/Mean;
  - the `Num_of_Islands >= 1` filter;
  - `get_max`;
  - the score `((L/Lmax + N/Nmax + C/Cmax)/3)*100`.

  The steps are methods of a `Trails.Workspace` class whose fields are the
  feature classes the script writes. Each method is tied to a pure function,
  and the properties are proved about those functions.
  `compute_trail_scores` is modelled as written, with `get_max` skipping
  the first row and Python 2 division. The corrected computation is a
  separate step, `ComputeTrailScoresCorrected` (see "## Findings").

Both scripts filter a layer with SelectLayerByAttribute `NEW_SELECTION`
and then CopyFeatures. A selection that matches no row leaves the layer
without a selection, and CopyFeatures then copies every row
(`Tables.CopySelection`). The model states each filter both ways: as the
tools behave (the `...AsWritten` members) and as the scripts mean it,
an empty result (`Tables.Select`). The rest of the model, the loop of
roads.py included, uses the intended selection. As written, the loop of
roads.py never ends: its last pass selects no row and copies the whole
working set back (see "## Findings").

Values follow Python 2, which runs both the scripts and their `PYTHON_9.3`
field calculations (`Values`):
- a field is None, an int or a float;
- None sorts below every number;
- `max()` keeps the first of equal items;
- `/` between two ints is floor division.

Geodatabase field names match case-insensitively, so `"Orig_length"` finds
the field map of `Orig_Length`.

Files: `tables.dfy` (results, attribute selection), `values.dfy`,
`roads.dfy`, `islands.dfy`, `field_mappings.dfy`, `trail_join.dfy`,
`trail_scores.dfy`, `trails_workspace.dfy`.

## Model

| member | source | states |
|---|---|---|
| Values.MaxOf | trails.py:181-183 | Python's `max` over the cursor rows: the result is one of them, and no row is greater than it (None below numbers) |
| Values.FloorDiv | trails.py:198-201 | Python 2 int `/`: the quotient q satisfies q <= x/y < q+1 for either sign of the divisor |
| Values.PyDiv | trails.py:198-201 | Python 2 `/`: succeeds iff both operands are present and the divisor is non-zero; it is never above the true quotient and equals it unless both operands are ints; on two ints it is the int q with q <= a/b < q+1 |
| Values.TrueDiv | trails.py:198-201 | true division: succeeds under the same conditions and is the exact float quotient |
| Values.PyAdd | trails.py:198-201 | `+` on field values: fails on None, otherwise the sum of the magnitudes |
| Values.PyMul | trails.py:198-201 | `*` on field values (the `*100`): fails on None, otherwise the product of the magnitudes |
| Tables.CopySelection | trails.py:75-78 | NEW_SELECTION then CopyFeatures as the tools behave: the selected rows when the where clause matches some row, every row of the layer when it matches none |
| Tables.CopySelectionOfNoMatch | trails.py:75-78 | on a non-empty layer where nothing matches, the copy is the whole layer and the selection is empty, so the two differ |
| Roads.SelectTop30pctLts3 | roads.py:71-73 | the intended selection: lts3_top30pct holds exactly the source segments whose Top30perce is 1, unchanged; nulls never match |
| Roads.SelectTop30pctLts3InOrder | roads.py:71-73 | the selection keeps source order: selecting a concatenation concatenates the selections |
| Roads.SelectTop30pctLts3AsWritten | roads.py:71-73 | the two tools as they behave: the intended selection when some segment has Top30perce = 1, the whole source layer when none has |
| Roads.UnflaggedLayerCopiedWhole | roads.py:71-73 | a layer whose only segment has Top30perce = 0 is copied whole, where the intended selection is empty |
| Roads.KeepAllJoin | roads.py:114-115 | the KEEP_ALL join keeps every working-set row in order; MEAN is null exactly when the EDGE is not in pass table i, otherwise it is that table's mean |
| Roads.NextUnprocessedIsUnresolved | roads.py:114-135 | with the intended carry-forward, the next lts3_unprocessed holds exactly the current segments with no mean in table i, attributes unchanged, and is no larger |
| Roads.NextUnprocessedIds | roads.py:114-125 | its EDGE set is the current EDGE set minus the keys of table i |
| Roads.NextUnprocessedShrinks | roads.py:105-146 | a pass that resolves at least one current EDGE strictly lowers num_of_rows |
| Roads.FullyResolvedPassEmpties | roads.py:114-126 | with the intended carry-forward, a pass whose table resolves every EDGE of the working set leaves lts3_unprocessed empty, so the loop can end |
| Roads.NextUnprocessedAsWritten | roads.py:114-126 | the carry-forward as the tools behave: the intended next working set while some EDGE has no mean in table i, and the whole working set again when the table resolves every EDGE |
| Roads.AsWrittenPassNeverEmpties | roads.py:114-146 | as written, a pass never empties a non-empty working set, so num_of_rows stays above 0 |
| Roads.AsWrittenLoopNeverEnds | roads.py:105-147 | as written, for any zonal tables, the working set of a non-empty buffered layer is non-empty after every number of passes: `while num_of_rows > 0` never exits |
| Roads.PassKeepsPartition | roads.py:105-125 | one pass keeps the partition: tables numbered 1..i, every original EDGE either unprocessed or resolved in exactly the one table that holds it |
| Roads.OverlapResolution.constructor | roads.py:90-101 | before the loop: lts3_unprocessed is the buffered layer, num_of_rows its count, i = 1, no tables, invariant established |
| Roads.OverlapResolution.Pass | roads.py:106-147 | one loop body: table i is the zonal output on the working set; the working set becomes the unresolved rows, losing exactly table i's EDGE keys; i goes up by exactly 1; every key of table i is recorded as resolved in pass i and earlier assignments are kept; the invariant holds, and a non-empty table lowers num_of_rows |
| Roads.OverlapResolution.ResolveOverlaps | roads.py:105-149 | with the intended carry-forward, the while loop ends with num_of_rows = 0; every EDGE of the buffered layer is resolved in exactly one table; earlier tables are untouched and each new table is non-empty; the first pass runs on the incoming lts3_unprocessed, table k is the zonal output on the working set of pass k, and pass k+1 runs on the rows table k left without a mean |
| Roads.HistoryExtends | roads.py:105-147 | one more pass, whose table is the zonal output on its working set and whose successor set is the rows left without a mean, extends the recorded history by one pass |
| Roads.ProgressExtends | roads.py:105-147 | a pass that resolves something keeps the earlier tables, adds one non-empty table and extends the history |
| Islands.DistinctKeys | trails.py:72-73 | the STRONG values, each once: same membership, no repeats |
| Islands.Dissolve | trails.py:72-73 | one record per STRONG value of the layer, with STRONG a unique key and the dissolved length as Shape_Length |
| Islands.IslandsGt0 | trails.py:75-78 | the intended selection: exactly the dissolved islands with STRONG > 0 remain, and there are no more of them than dissolved islands |
| Islands.IslandsGt0InOrder | trails.py:75-78 | the selection goes record by record: one record is kept once iff STRONG > 0, and selecting a concatenation concatenates the selections (source order, multiplicity) |
| Islands.IslandsGt0AsWritten | trails.py:75-78 | as the tools behave: the intended selection when some dissolved island has STRONG > 0, the whole dissolved layer when none has |
| Islands.CatchAllLayerCopiedWhole | trails.py:75-78 | a layer holding only the catch-all STRONG 0 is copied whole, where the intended selection is empty |
| Islands.IslandsGte1000m | trails.py:81-84 | the intended selection: exactly those of islands_gt_0 with Shape_Length >= 1000 remain, no more of them than its input |
| Islands.IslandsGte1000mInOrder | trails.py:81-84 | one record is kept once iff Shape_Length >= 1000, and the selection of a concatenation is the concatenation of the selections |
| Islands.IslandsGte1000mAsWritten | trails.py:81-84 | as the tools behave: the intended selection when some island is at least 1000 m long, the whole of islands_gt_0 when none is |
| Islands.ShortIslandsCopiedWhole | trails.py:81-84 | a layer whose only island is 400 m long is copied whole, where the intended selection is empty |
| Islands.WithinCounties | trails.py:87-89 | the KEEP_COMMON join keeps exactly the islands that meet the counties |
| Islands.WithOrigLength | trails.py:91-93 | every island gets Orig_Length = Shape_Length; ids and lengths are unchanged |
| Islands.PrepIslandsExact | trails.py:62-93 | the islands feature class holds one record per positive STRONG value of the layer whose dissolved line is at least 1000 m and meets the counties, with Orig_Length = Shape_Length, and STRONG is unique |
| Islands.ComputeCiiPerIsland | trails.py:102-111 | with the intended selection, islands_with_score is exactly the islands whose STRONG has a mean in the zonal table, each carrying that mean as CII_Score_Overall, and it has no more rows than islands |
| Islands.ComputeCiiPerIslandInOrder | trails.py:107-111 | the join and selection go island by island: one island gives one scored record iff its STRONG has a mean, none otherwise, and a concatenation of islands gives the concatenation of the results (order, multiplicity) |
| Islands.ComputeCiiPerIslandUnique | trails.py:107-111 | the join keeps STRONG a unique key |
| Islands.KeepAllCiiJoin | trails.py:107 | the KEEP_ALL join keeps every island in order; CII_Score_Overall is the mean of its id, or null when the table has none |
| Islands.SelectedJoinIsScored | trails.py:107-111 | selecting the joined records with a mean gives ComputeCiiPerIsland, record for record |
| Islands.SomeJoinedScored | trails.py:107-109 | some joined record has a mean iff some island's id has one |
| Islands.ComputeCiiPerIslandAsWritten | trails.py:107-111 | as the tools behave: the scored islands when some id has a mean, and every island with a null CII_Score_Overall when none has |
| Islands.UnscoredIslandCopied | trails.py:107-111 | an island whose id has no mean is copied with a null score, where the intended result is empty |
| FieldMapping.FindFieldMapIndex | trails.py:136 | the index of the first field map with that name, case-insensitively, or -1 iff there is none |
| FieldMapping.AddedFieldMaps | trails.py:148-149 | addTable keeps the existing field maps as a prefix and gives every new one the default rule First |
| FieldMapping.AddedFieldMapsNew | trails.py:148-149 | every field map addTable appends is named after a field of the table that no earlier field map has, and no two appended maps share a name, case-insensitively |
| FieldMapping.AddedFieldMapsFind | trails.py:148-149 | after addTable every field of the table has a field map |
| FieldMapping.WithMergeRule | trails.py:134-141 | set_up_merge_rules succeeds iff some field map has the name; then only that map's rule changes, and every name and every other map is kept |
| FieldMapping.FieldMappings.constructor | trails.py:146 | a new FieldMappings holds no field maps |
| FieldMapping.FieldMappings.AddTable | trails.py:148-149 | the object's field maps become the addTable result |
| FieldMapping.FieldMappings.GetFieldMap | trails.py:137 | getFieldMap succeeds iff the index is in range, and returns that field map |
| FieldMapping.FieldMappings.ReplaceFieldMap | trails.py:141 | replaceFieldMap changes the field map at the index and nothing else |
| FieldMapping.SetUpMergeRules | trails.py:134-141 | the in-place update of the object equals WithMergeRule; a missing name fails and leaves the object as it was |
| TrailJoin.PrepTrail | trails.py:125-131 | Trail_ID = OID, the eight listed fields deleted, every other field unchanged |
| TrailJoin.PrepTrails | trails.py:125-131 | prep_trails applies this to every trail, in order |
| TrailJoin.WithMergeRuleEffect | trails.py:134-141 | a set-up moves no lookup; it gives the found field map the new rule and leaves every other map's rule |
| TrailJoin.IslandFieldsMapped | trails.py:148-156 | after both addTable calls, Orig_length, STRONG and CII_Score_Overall each have their own field map |
| TrailJoin.TrailFieldMappingsRules | trails.py:146-156 | for any trail fields, the three set-ups succeed and leave Orig_length Sum, STRONG Count and CII_Score_Overall Mean |
| TrailJoin.TrailMergeRulesOn | trails.py:152-156 | on field maps where the three fields have three different maps, the three set-ups succeed and each rule stays in place |
| TrailJoin.AsWrittenIslandFieldsDiffer | trails.py:119-122 | none of the islands' fields, as the case-sensitive alias loop leaves them, matches "Orig_length", even ignoring case |
| TrailJoin.AsWrittenOrigLengthUnmapped | trails.py:119-152 | with those field names, and trails without an Orig_length field, the first set_up_merge_rules finds no field map and the field mappings fail with that name |
| TrailJoin.MatchedIslands | trails.py:159-160 | the islands matched to a trail are exactly the scored islands within its search radius, and there are no more of them than islands |
| TrailJoin.MatchedIslandsInOrder | trails.py:159-160 | the join looks at the islands one by one: a matching island record is taken once, a non-matching one not at all, and matching a concatenation concatenates the matches (order, multiplicity for Sum and Count) |
| TrailJoin.SpatialJoin | trails.py:159-160 | JOIN_ONE_TO_ONE with KEEP_ALL: one row per trail, in order |
| TrailJoin.ColumnsOfMatched | trails.py:152-156 | with Orig_Length present, the merged columns count every matched island and add up the islands' own values |
| TrailJoin.JoinTrailAggregates | trails.py:151-164 | Length_of_All_Islands is the sum of Orig_Length, Num_of_Islands the number and Trail_CII_Score the mean CII of the matched islands; an unmatched trail keeps its row with all three null |
| TrailJoin.FilterTwoOrMoreIslands | trails.py:169-175 | the intended filter: trails_intersecting_gte_2 holds exactly the rows with `Num_of_Islands >= 1` (not 2), and no more rows than trails_intersecting |
| TrailJoin.FilterTwoOrMoreIslandsInOrder | trails.py:169-175 | the filter goes row by row: a row is kept once iff `Num_of_Islands >= 1`, and filtering a concatenation concatenates the results |
| TrailJoin.FilterTwoOrMoreIslandsAsWritten | trails.py:172-175 | as the tools behave: the intended filter when some row has `Num_of_Islands >= 1`, the whole of trails_intersecting when none has |
| TrailJoin.UnmatchedTrailCopied | trails.py:172-175 | a trails_intersecting holding one trail that no island matches is copied whole, where the intended filter is empty |
| TrailJoin.FilterKeepsMatchedTrails | trails.py:159-175 | after the join, the filter keeps exactly the trails some island matches |
| TrailScores.GetMaxAsWritten | trails.py:179-184 | get_max as written: the maximum of rows 2..n; TypeError on no rows, ValueError on one |
| TrailScores.GetMax | trails.py:179-184 | the cursor loop (first row fetched, `max` over the rest) computes exactly GetMaxAsWritten |
| TrailScores.ColumnMax | trails.py:178-184 | the intended maximum over all rows: one of them and at least every other; ValueError on none |
| TrailScores.GetMaxSkipsFirstRow | trails.py:179-184 | for [5000.0, 2000.0] get_max gives 2000.0 where the maximum is 5000.0 |
| TrailScores.ScoreSucceedsExactly | trails.py:198-204 | the expression succeeds iff all three fields and maxima are present and no maximum is zero; with the maxima valid, a null field raises TypeError |
| TrailScores.ScoreValue | trails.py:198-201 | with true division the score is ((L/Lmax + N/Nmax + C/Cmax)/3)*100, a float |
| TrailScores.ScoreAtMaxima | trails.py:198-201 | a trail at all three maxima scores exactly 100 |
| TrailScores.ScoreInRange | trails.py:198-201 | fields in [0, max] with non-zero maxima score in [0, 100] |
| TrailScores.AsWrittenAtMostScore | trails.py:198-201 | with positive maxima, the Python 2 score is never above the true-division score |
| TrailScores.IntegerDivisionDropsRatio | trails.py:198-201 | N=1 and Nmax=2 as ints: the as-written score is 200/3 where 250/3 is meant |
| TrailScores.MaximaAsWritten | trails.py:192-194 | the three get_max calls as written: they succeed iff trails_intersecting has at least two rows, fail with TypeError on none and ValueError on one, and each maximum is get_max of its column |
| TrailScores.ColumnMaxima | trails.py:192-194 | the corrected maxima (the source's need two rows): they exist iff trails_intersecting has a row, otherwise ValueError; each is the ColumnMax of its field, and no row holds a larger value of that field |
| TrailScores.ScoreRows | trails.py:203-204 | the field calculation fails iff some row's expression fails; otherwise each row keeps its fields and gets its score |
| TrailScores.ComputeTrailScoresAsWritten | trails.py:187-204 | compute_trail_scores as written: a failing get_max is its error; otherwise it succeeds iff every filtered row's Python 2 expression, with the get_max maxima, evaluates, and each row gets exactly that score and keeps its other fields |
| TrailScores.ComputeTrailScores | trails.py:187-204 | the corrected compute_trail_scores: ValueError on no rows; otherwise it succeeds iff every filtered row's true-division expression, with the maxima over all rows, evaluates, and each row gets exactly that score |
| TrailScores.ComputeTrailScoresInRange | trails.py:187-204 | with the corrected computation, when the filtered rows come from trails_intersecting with positive fields, every score is computed and lies in [0, 100], and nothing else in a row changes |
| TrailScores.BelowAsWrittenMax | trails.py:179-184 | when a column's first value is not above the maximum of the rest, get_max as written bounds every positive value of the column and is positive |
| TrailScores.PyDivNotNegative | trails.py:198-201 | Python 2 `/` of a non-negative number by a positive one succeeds and is not negative |
| TrailScores.AsWrittenNotNegative | trails.py:198-201 | with non-negative fields and positive maxima the Python 2 score evaluates and is not negative |
| TrailScores.AsWrittenScoresInRange | trails.py:179-204 | compute_trail_scores as written, when no column has its maximum only in the first row of trails_intersecting and the filtered rows come from it with positive fields: it succeeds, every score lies in [0, 100], and nothing else in a row changes |
| TrailScores.AsWrittenScoresAbove100 | trails.py:179-204 | a two-row example: when the first row (4000, 2, 60) holds every maximum, the as-written computation scores it 200 and the second 100, where the corrected one gives 100 and 50 |
| Trails.Workspace.PrepIslands | trails.py:62-96 | islands becomes PrepIslands of the layer: STRONG unique, positive, at least 1000 m, Orig_Length = Shape_Length; no other feature class changes |
| Trails.Workspace.ComputeCiiPerIsland | trails.py:99-113 | islands_with_score holds exactly the islands with a zonal mean, each with its mean; no other feature class changes |
| Trails.Workspace.PrepTrails | trails.py:125-131 | the trails layer is prepped in place; every Trail_ID equals its OID |
| Trails.SetUpTrailFieldMappings | trails.py:146-156 | the built field mappings are the three set-ups applied to both tables' field maps, and every set-up succeeds |
| Trails.TrailMergeRules | trails.py:146-156 | the rules the join reads back from the built field mappings are Sum for Orig_length, Count for STRONG and Mean for CII_Score_Overall |
| Trails.Workspace.FindTrailIslandIntersections | trails.py:144-167 | with the islands' fields under their intended names, the step succeeds, and trails_intersecting is the spatial join with Sum, Count and Mean; nothing else changes |
| Trails.Workspace.FilterTwoOrMoreIslands | trails.py:169-175 | trails_intersecting_gte_2 is the filter of trails_intersecting: exactly its rows with `Num_of_Islands >= 1` |
| Trails.Workspace.ComputeTrailScores | trails.py:187-204 | the step as written, with the GetMax cursor loop on the three columns and Python 2 division: trails_intersecting_gte_2 becomes ComputeTrailScoresAsWritten when that succeeds; otherwise the step fails with its error and the table is left as it was; nothing else changes |
| Trails.Workspace.ComputeTrailScoresCorrected | trails.py:187-204 | the corrected step: the same, with ComputeTrailScores (maxima over every row, true division) |
| Trails.FilteredTrailsScorable | trails.py:151-175 | every trail the filter keeps has positive length, count and CII mean when the islands have positive means |
| Trails.PipelineScoresInRange | trails.py:102-204 | from the prepared islands on, with positive zonal means and at least one trail with islands, every trail score of the corrected computation lies in [0, 100] |

## Left out

- The geometric and raster tools are inputs:
  - Project and the Dissolve geometry;
  - Buffer (100 m and 1609.34 m);
  - the county intersection;
  - the 50 m trail/island search;
  - ZonalStatisticsAsTable.

  They are foreign calls, so each is a function parameter: a length per STRONG, a predicate per id, a match relation, and a zonal map whose keys are among the ids it is given.
- Doubles are modelled as exact reals. Python 2's `str()` of a float maximum keeps 12 significant digits before it is spliced into the expression; the model uses the exact value.
- Output order of Dissolve: the model lists the STRONG values in order of first appearance, and the tool's own ordering is not modelled.
- The alias-driven field renames (roads.py:93-97 and 138-143; trails.py:119-122, 162-164) are left out, as are the deletions of joined bookkeeping fields (roads.py:128-135; trails.py:114-117, 165-167). Record fields carry the names the renames are meant to give, and values are unchanged. One rename does not happen as written: the alias test is case-sensitive, so `"Orig_length"` misses the field aliased `Orig_Length` (trails.py:121), which keeps its qualified name. `TrailJoin.IslandFieldNamesAsWritten` lists the names the loop leaves, and "## Findings" gives the consequence.
- trails.py:102 passes `CII_Score_Overall`, while the variable defined at trails.py:28 is `CII_score_overall`. The zonal table is an input, so this mismatch is not modelled.
- The main blocks are left out: roads.py:163 calls an undefined `compute_CII_scores_per_lts3`, and trails.py:211 calls an undefined `prep_islands2`. The steps are modelled one by one.
- Clearing a selection, Delete and CheckOutExtension are storage plumbing. The model writes the resulting feature class directly. A NEW_SELECTION followed by CopyFeatures is `Tables.CopySelection`, which copies every row when nothing matches; the rest of the model uses the intended selection `Tables.Select` (see "## Findings").
- The field names addTable reads from the trails layer (`Trails.Workspace.trailFieldNames`) are an input of the workspace. The model does not derive them from the attribute maps of its trails.
- Environment set-up, `prep_gdb`, `print_time_stamp` and printing, `remove_intermediary_layers`, symbolization.py, community_impact_index.py and utilities.py hold no table logic of the scoring core.
- The code never merges the pass tables. They stay separate numbered tables (`Roads.OverlapResolution.tables`).
- Roads.OverlapResolution.ResolveOverlaps: requires that the zonal primitive give a mean to at least one zone of every non-empty working set. The script has no pass limit and would loop forever otherwise.
- TrailJoin.SpatialJoin: an unmatched trail's merged fields are null, as the KEEP_ALL join leaves them. Join_Count and TARGET_FID are not modelled.
- Roads.SelectTop30pctLts3: states the intended selection, whose result is empty when nothing matches. As written, an empty selection copies the whole input layer (`Roads.SelectTop30pctLts3AsWritten`).
- Roads.SelectTop30pctLts3InOrder: is about the intended selection. The as-written copy of a layer with no flagged segment is the whole layer, so it does not split over a concatenation.
- Roads.NextUnprocessedIsUnresolved: states the intended carry-forward. As written, a pass that resolves every EDGE copies all of lts3_temp back (`Roads.NextUnprocessedAsWritten`).
- Roads.NextUnprocessedIds: states the intended carry-forward; as written, the EDGE set is unchanged by a pass that resolves all of it.
- Roads.NextUnprocessedShrinks: states the intended carry-forward; as written, a pass that resolves every EDGE does not shrink the working set (`Roads.AsWrittenPassNeverEmpties`).
- Roads.PassKeepsPartition: states the intended carry-forward; as written, a fully resolved working set stays unprocessed, so its EDGE keys are in two places.
- Roads.OverlapResolution.Pass: runs the intended carry-forward. As written, the last pass copies the whole working set back.
- Roads.OverlapResolution.ResolveOverlaps: ends with num_of_rows = 0 only under the intended carry-forward. As written, the loop never ends (`Roads.AsWrittenLoopNeverEnds`).
- Islands.IslandsGt0: states the intended selection, whose result is empty when nothing matches. As written, an empty selection copies the whole input layer (`Islands.IslandsGt0AsWritten`).
- Islands.IslandsGt0InOrder: is about the intended selection. As written, a single island with STRONG 0 is kept (`Islands.CatchAllLayerCopiedWhole`).
- Islands.IslandsGte1000m: states the intended selection, whose result is empty when nothing matches. As written, an empty selection copies the whole input layer (`Islands.IslandsGte1000mAsWritten`).
- Islands.IslandsGte1000mInOrder: is about the intended selection. As written, a single island shorter than 1000 m is kept (`Islands.ShortIslandsCopiedWhole`).
- Islands.PrepIslandsExact: is about the two intended selections. As written, a layer with no positive STRONG, or no island of 1000 m, passes its filter whole.
- Islands.ComputeCiiPerIsland: states the intended selection. As written, when no island's id has a mean, every island is copied with a null score (`Islands.ComputeCiiPerIslandAsWritten`).
- Islands.ComputeCiiPerIslandInOrder: is about the intended selection. As written, a single island without a mean is copied with a null score (`Islands.UnscoredIslandCopied`).
- TrailJoin.FilterTwoOrMoreIslands: states the intended selection, whose result is empty when nothing matches. As written, an empty selection copies the whole input layer (`TrailJoin.FilterTwoOrMoreIslandsAsWritten`).
- TrailJoin.FilterTwoOrMoreIslandsInOrder: is about the intended filter. As written, a single row without islands is kept (`TrailJoin.UnmatchedTrailCopied`).
- TrailJoin.FilterKeepsMatchedTrails: is about the intended filter. As written, when no island matches any trail, every trail is kept.
- TrailJoin.IslandFieldsMapped: uses the islands' field names as the renames are meant to leave them. As written, Orig_length has no field map (`TrailJoin.AsWrittenOrigLengthUnmapped`).
- TrailJoin.TrailFieldMappingsRules: uses the intended field names. As written, the first set-up fails (`TrailJoin.AsWrittenOrigLengthUnmapped`).
- Trails.SetUpTrailFieldMappings: uses the intended field names. As written, the first set-up fails.
- Trails.TrailMergeRules: uses the intended field names. As written, no rule is read back, because the first set-up fails.
- Trails.Workspace.PrepIslands: uses the intended selections of `Islands.PrepIslands`. As written, an empty selection copies the whole layer.
- Trails.Workspace.ComputeCiiPerIsland: uses the intended selection. As written, it copies every island with a null score when no id has a mean.
- Trails.Workspace.FilterTwoOrMoreIslands: uses the intended filter. As written, it copies every row when no row has an island.
- Trails.FilteredTrailsScorable: is about the intended filter. As written, with no matched trail, the unmatched rows are kept and their fields are null.
- Trails.PipelineScoresInRange: is about the intended selections and field names. As written, the pipeline stops at the first set_up_merge_rules.
- Trails.Workspace.FindTrailIslandIntersections: uses the intended field names and so succeeds. As written, set_up_merge_rules("Orig_length") gets index -1 and getFieldMap fails (`TrailJoin.AsWrittenOrigLengthUnmapped`).
- Trails.Workspace.FindTrailIslandIntersections: islands_with_score contributes only its three named fields to the field mappings. The other merge rules (Last, Join, Min, Max and so on) do not occur.
- Trails.Workspace.ComputeTrailScores: Total_connectivity_score is null on every row until the calculation (the AddField at trails.py:190). A calculation that raises on any row fails the whole step.

## Findings

| source | as written | input that shows it | evidently intended | confidence | as-written member | corrected member |
|---|---|---|---|---|---|---|
| trails.py:179-184 | The `for` loop fetches row 1, then `max(cursor)` consumes and compares only rows 2..n. The result is the maximum of the other rows; no rows gives TypeError, one row gives ValueError. | Length_of_All_Islands column [5000.0, 2000.0] gives 2000.0. Trails (4000, 2, 60) and (2000, 1, 30) score 200 and 100. | the maximum over every row, so scores stay within 100 | high, not executed | TrailScores.GetMax, TrailScores.GetMaxSkipsFirstRow, TrailScores.AsWrittenScoresAbove100 | TrailScores.ColumnMax, TrailScores.ColumnMaxima, TrailScores.ComputeTrailScoresInRange |
| trails.py:198-201 | The PYTHON_9.3 calculation divides the Long field Num_of_Islands by the int literal `str(Nmax)`. Python 2 floors that, so the term is 0 for every trail below the maximum. | L = Lmax = 2000.0, N = 1, Nmax = 2, C = Cmax = 50.0 scores 200/3 (66.67) instead of 250/3 (83.33). | true division of each ratio | medium, not executed | TrailScores.ScoreAsWritten, TrailScores.IntegerDivisionDropsRatio | TrailScores.Score, TrailScores.ScoreValue |
| roads.py:122-126 | Once table i gives every EDGE left a mean, the `..._MEAN IS NULL` selection on lts3_temp matches no row. The layer then has no selection, and CopyFeatures copies all of lts3_temp back into lts3_unprocessed. num_of_rows stays above 0, so `while num_of_rows > 0` (roads.py:105) never exits. | a buffered layer whose zones do not overlap: pass 1 gives every EDGE a mean, and lts3_unprocessed comes back whole on every pass | an empty lts3_unprocessed once every EDGE has a mean, which ends the loop | medium, not executed | Roads.NextUnprocessedAsWritten, Roads.AsWrittenPassNeverEmpties, Roads.AsWrittenLoopNeverEnds | Roads.NextUnprocessedIsUnresolved, Roads.FullyResolvedPassEmpties, Roads.OverlapResolution.ResolveOverlaps |
| roads.py:71-73 | When no segment has Top30perce = 1, the selection is empty and CopyFeatures copies the whole source layer. | a layer whose only segment has Top30perce = 0 | an empty lts3_top30pct | medium, not executed | Roads.SelectTop30pctLts3AsWritten, Roads.UnflaggedLayerCopiedWhole | Roads.SelectTop30pctLts3, Roads.SelectTop30pctLts3InOrder |
| trails.py:75-78 | When no dissolved island has STRONG > 0, the selection is empty and CopyFeatures copies the whole dissolved layer, catch-all 0 included. | a layer holding only STRONG 0 | an empty islands_gt_0 | medium, not executed | Islands.IslandsGt0AsWritten, Islands.CatchAllLayerCopiedWhole | Islands.IslandsGt0, Islands.IslandsGt0InOrder |
| trails.py:81-84 | When every island is shorter than 1000 m, the selection is empty and CopyFeatures copies all of islands_gt_0. | a layer whose only island is 400 m long | an empty islands_gte_1000m | medium, not executed | Islands.IslandsGte1000mAsWritten, Islands.ShortIslandsCopiedWhole | Islands.IslandsGte1000m, Islands.IslandsGte1000mInOrder |
| trails.py:107-111 | When no island's STRONG has a zonal mean, `CII_Score_Overall IS NOT NULL` selects nothing and CopyFeatures copies every joined island, with a null score. | one island, STRONG 4, and an empty zonal table | an empty islands_with_score | medium, not executed | Islands.ComputeCiiPerIslandAsWritten, Islands.UnscoredIslandCopied | Islands.ComputeCiiPerIsland, Islands.ComputeCiiPerIslandInOrder |
| trails.py:172-175 | When no trail has an island, `Num_of_Islands >=1` selects nothing and CopyFeatures copies all of trails_intersecting. | trails_intersecting holding one trail that no island matches | an empty trails_intersecting_gte_2 | medium, not executed | TrailJoin.FilterTwoOrMoreIslandsAsWritten, TrailJoin.UnmatchedTrailCopied | TrailJoin.FilterTwoOrMoreIslands, TrailJoin.FilterTwoOrMoreIslandsInOrder |
| trails.py:119-122 | The copy of the joined layer qualifies every field with its table's name. The loop renames a field only when its alias is in `["STRONG", "Orig_length", "CII_Score_Overall"]`, a case-sensitive test. The field aliased `Orig_Length` is not renamed. So `set_up_merge_rules("Orig_length", ...)` (trails.py:152) finds no field map, and getFieldMap(-1) fails. | any trails layer without an Orig_length field | the field renamed to Orig_Length, found by the set-up and summed | medium, not executed | TrailJoin.AsWrittenIslandFieldsDiffer, TrailJoin.AsWrittenOrigLengthUnmapped | TrailJoin.IslandFieldsMapped, TrailJoin.TrailFieldMappingsRules |
