/**
 * trails.py as a sequence of steps over one output geodatabase: each step
 * reads the feature classes earlier steps wrote and overwrites its own.
 * The geometric tools (Dissolve's merged lengths, the county intersection,
 * the zonal statistics over the 100 m buffers, the 50 m trail/island
 * search) are inputs to the steps that use them.
 */
module Trails {
  import opened Tables
  import opened Values
  import opened Islands
  import opened FieldMapping
  import opened TrailJoin
  import opened TrailScores

  /** The STRONG ids of a feature class of islands. */
  function IslandIds(islands: seq<Island>): set<int>
  {
    set isl | isl in islands :: isl.strong
  }

  /** The feature classes trails.py writes, and the trails layer it edits. */
  class Workspace {
    /** The names of the fields of the trails layer after prep_trails, the
        ones addTable(trails) reads.  They are given when the workspace is
        made and are not derived from the attribute maps of `trails`. */
    const trailFieldNames: seq<string>
    var islands: seq<Island>
    var islandsWithScore: seq<ScoredIsland>
    var trails: seq<Trail>
    var trailsIntersecting: seq<TrailRow>
    var trailsIntersectingGte2: seq<TrailRow>

    constructor (trailsLayer: seq<Trail>, fieldNames: seq<string>)
      ensures trails == trailsLayer && trailFieldNames == fieldNames
      ensures islands == [] && islandsWithScore == [] && trailsIntersecting == [] && trailsIntersectingGte2 == []
    {
      trails := trailsLayer;
      trailFieldNames := fieldNames;
      islands := [];
      islandsWithScore := [];
      trailsIntersecting := [];
      trailsIntersectingGte2 := [];
    }

    /** prep_islands: `strongValues` are the STRONG values of the islands
        layer, `dissolvedLength` the length of each dissolved polyline and
        `intersectsCounties` the spatial join with the four counties. */
    method PrepIslands(strongValues: seq<int>, dissolvedLength: int -> real, intersectsCounties: int -> bool)
      modifies this
      ensures islands == Islands.PrepIslands(strongValues, dissolvedLength, intersectsCounties)
      ensures UniqueBy(islands, StrongOf)
      ensures forall isl :: isl in islands ==> isl.strong > 0 && isl.shapeLength >= 1000.0
                                               && isl.origLength == Float(isl.shapeLength)
      ensures islandsWithScore == old(islandsWithScore) && trails == old(trails)
      ensures trailsIntersecting == old(trailsIntersecting) && trailsIntersectingGte2 == old(trailsIntersectingGte2)
    {
      islands := Islands.PrepIslands(strongValues, dissolvedLength, intersectsCounties);
      PrepIslandsExact(strongValues, dissolvedLength, intersectsCounties);
    }

    /** compute_CII_per_island: `zonal` gives the CII mean per STRONG zone of
        the buffered islands, for the zones that hold raster data. */
    method ComputeCiiPerIsland(zonal: set<int> -> map<int, real>)
      requires forall ids :: zonal(ids).Keys <= ids
      modifies this
      ensures islandsWithScore == Islands.ComputeCiiPerIsland(islands, zonal(IslandIds(islands)))
      ensures forall s :: s in islandsWithScore <==>
                Unscored(s) in islands && s.strong in zonal(IslandIds(islands))
                && s.ciiScoreOverall == zonal(IslandIds(islands))[s.strong]
      ensures islands == old(islands) && trails == old(trails)
      ensures trailsIntersecting == old(trailsIntersecting) && trailsIntersectingGte2 == old(trailsIntersectingGte2)
    {
      var ciiTable := zonal(IslandIds(islands));
      islandsWithScore := Islands.ComputeCiiPerIsland(islands, ciiTable);
      forall s | Unscored(s) in islands && s.strong in ciiTable && s.ciiScoreOverall == ciiTable[s.strong]
        ensures s in islandsWithScore
      {
        assert WithScore(Unscored(s), ciiTable[s.strong]) == s;
      }
    }

    /** prep_trails. */
    method PrepTrails()
      modifies this
      ensures trails == TrailJoin.PrepTrails(old(trails))
      ensures forall k :: 0 <= k < |trails| ==> trails[k].trailId == Int(trails[k].oid)
      ensures islands == old(islands) && islandsWithScore == old(islandsWithScore)
      ensures trailsIntersecting == old(trailsIntersecting) && trailsIntersectingGte2 == old(trailsIntersectingGte2)
    {
      trails := TrailJoin.PrepTrails(trails);
    }

    /** find_trail_island_intersections: `matches` tells which islands lie
        within 50 m of which trail.  With the islands' fields under the
        names the alias loop is meant to give them, the three merge rules
        always take, so the join sums Orig_Length, counts STRONG and
        averages CII_Score_Overall (TrailJoin.AsWrittenOrigLengthUnmapped
        is the step with the names the loop leaves). */
    method FindTrailIslandIntersections(matches: (int, int) -> bool) returns (outcome: Result<()>)
      modifies this
      ensures outcome.Success?
      ensures trailsIntersecting == SpatialJoin(trails, islandsWithScore, matches, Sum, Count, Mean)
      ensures islands == old(islands) && islandsWithScore == old(islandsWithScore) && trails == old(trails)
      ensures trailsIntersectingGte2 == old(trailsIntersectingGte2)
    {
      var lengthRule, strongRule, ciiRule := TrailMergeRules(trailFieldNames);
      trailsIntersecting := SpatialJoin(trails, islandsWithScore, matches, lengthRule, strongRule, ciiRule);
      return Success(());
    }

    /** filter_2_or_more_islands. */
    method FilterTwoOrMoreIslands()
      modifies this
      ensures trailsIntersectingGte2 == TrailJoin.FilterTwoOrMoreIslands(trailsIntersecting)
      ensures forall row :: row in trailsIntersectingGte2 <==> row in trailsIntersecting && HasIslands(row)
      ensures islands == old(islands) && islandsWithScore == old(islandsWithScore) && trails == old(trails)
      ensures trailsIntersecting == old(trailsIntersecting)
    {
      trailsIntersectingGte2 := TrailJoin.FilterTwoOrMoreIslands(trailsIntersecting);
    }

    /** compute_trail_scores: AddField, the three get_max cursors over
        trails_intersecting, then the field calculation on
        trails_intersecting_gte_2 under Python 2 division.  A failing
        get_max or field calculation leaves trails_intersecting_gte_2 as it
        was. */
    method ComputeTrailScores() returns (outcome: Result<()>)
      modifies this
      ensures var scored := ComputeTrailScoresAsWritten(trailsIntersecting, old(trailsIntersectingGte2));
              && (scored.Success? ==> outcome.Success? && trailsIntersectingGte2 == scored.value)
              && (scored.Failure? ==> outcome == Failure(scored.error) && trailsIntersectingGte2 == old(trailsIntersectingGte2))
      ensures islands == old(islands) && islandsWithScore == old(islandsWithScore) && trails == old(trails)
      ensures trailsIntersecting == old(trailsIntersecting)
    {
      var lmax := GetMax(Column(trailsIntersecting, LengthOfAllIslands));
      if lmax.Failure? {
        return Failure(lmax.error);
      }
      var nmax := GetMax(Column(trailsIntersecting, NumOfIslands));
      var cmax := GetMax(Column(trailsIntersecting, TrailCiiScore));
      var scored := ScoreRows(trailsIntersectingGte2, Maxima(lmax.value, nmax.value, cmax.value), Python2Division);
      if scored.Failure? {
        return Failure(scored.error);
      }
      trailsIntersectingGte2 := scored.value;
      return Success(());
    }

    /** compute_trail_scores as intended: the maxima over every row of
        trails_intersecting and true division. */
    method ComputeTrailScoresCorrected() returns (outcome: Result<()>)
      modifies this
      ensures var scored := TrailScores.ComputeTrailScores(trailsIntersecting, old(trailsIntersectingGte2));
              && (scored.Success? ==> outcome.Success? && trailsIntersectingGte2 == scored.value)
              && (scored.Failure? ==> outcome == Failure(scored.error) && trailsIntersectingGte2 == old(trailsIntersectingGte2))
      ensures islands == old(islands) && islandsWithScore == old(islandsWithScore) && trails == old(trails)
      ensures trailsIntersecting == old(trailsIntersecting)
    {
      var scored := TrailScores.ComputeTrailScores(trailsIntersecting, trailsIntersectingGte2);
      if scored.Failure? {
        return Failure(scored.error);
      }
      trailsIntersectingGte2 := scored.value;
      return Success(());
    }
  }

  /** The field mappings of find_trail_island_intersections: those of the
      trails and of islands_with_score, then the three merge rules. */
  method SetUpTrailFieldMappings(trailFieldNames: seq<string>) returns (fieldMappings: FieldMappings)
    ensures fresh(fieldMappings)
    ensures TrailFieldMappings(trailFieldNames).Success?
    ensures fieldMappings.fieldMaps == TrailFieldMappings(trailFieldNames).value
  {
    fieldMappings := new FieldMappings();
    fieldMappings.AddTable(trailFieldNames);
    fieldMappings.AddTable(IslandFieldNames);
    TrailFieldMappingsRules(trailFieldNames);
    ghost var withSum := WithMergeRule(fieldMappings.fieldMaps, "Orig_length", Sum);
    var lengthSet := SetUpMergeRules("Orig_length", Sum, fieldMappings);
    assert lengthSet.Success?;
    ghost var withCount := WithMergeRule(withSum.value, "STRONG", Count);
    var strongSet := SetUpMergeRules("STRONG", Count, fieldMappings);
    assert strongSet.Success?;
    var ciiSet := SetUpMergeRules("CII_Score_Overall", Mean, fieldMappings);
    assert ciiSet.Success?;
  }

  /** The rules the join reads back from the field mappings: Orig_length
      summed, STRONG counted, CII_Score_Overall averaged. */
  method TrailMergeRules(trailFieldNames: seq<string>) returns (lengthRule: MergeRule, strongRule: MergeRule, ciiRule: MergeRule)
    ensures lengthRule == Sum && strongRule == Count && ciiRule == Mean
  {
    var fieldMappings := SetUpTrailFieldMappings(trailFieldNames);
    TrailFieldMappingsRules(trailFieldNames);
    lengthRule := RuleOf(fieldMappings.fieldMaps, "Orig_length").value;
    strongRule := RuleOf(fieldMappings.fieldMaps, "STRONG").value;
    ciiRule := RuleOf(fieldMappings.fieldMaps, "CII_Score_Overall").value;
  }

  /** Positive lengths add up to a positive total. */
  lemma {:induction false} TotalOrigLengthPositive(m: seq<ScoredIsland>)
    requires m != []
    requires forall isl :: isl in m ==> !isl.origLength.Null? && AsReal(isl.origLength) > 0.0
    ensures TotalOrigLength(m) > 0.0
  {
    if |m| > 1 {
      assert m[1] in m[1..];
      TotalOrigLengthPositive(m[1..]);
    }
  }

  /** Positive CII means add up to a positive total. */
  lemma {:induction false} TotalCiiPositive(m: seq<ScoredIsland>)
    requires m != []
    requires forall isl :: isl in m ==> isl.ciiScoreOverall > 0.0
    ensures TotalCii(m) > 0.0
  {
    if |m| > 1 {
      assert m[1] in m[1..];
      TotalCiiPositive(m[1..]);
    }
  }

  /** Scored islands keep positive lengths and carry positive means. */
  predicate PositiveIsland(isl: ScoredIsland)
  {
    !isl.origLength.Null? && AsReal(isl.origLength) > 0.0 && isl.ciiScoreOverall > 0.0
  }

  lemma ScoredIslandsPositive(islands: seq<Island>, ciiTable: map<int, real>)
    requires forall isl :: isl in islands ==> isl.shapeLength >= 1000.0 && isl.origLength == Float(isl.shapeLength)
    requires forall id :: id in ciiTable ==> ciiTable[id] > 0.0
    ensures forall isl :: isl in Islands.ComputeCiiPerIsland(islands, ciiTable) ==> PositiveIsland(isl)
  {
    forall isl | isl in Islands.ComputeCiiPerIsland(islands, ciiTable) ensures PositiveIsland(isl) {
      assert Unscored(isl) in islands;
    }
  }

  /** A trail that meets islands of positive length and positive mean gets
      three positive fields from the join. */
  lemma JoinedTrailScorable(t: Trail, islandsWithScore: seq<ScoredIsland>, matches: (int, int) -> bool)
    requires forall isl :: isl in islandsWithScore ==> PositiveIsland(isl)
    requires MatchedIslands(t, islandsWithScore, matches) != []
    ensures Scorable(JoinTrail(t, islandsWithScore, matches, Sum, Count, Mean))
  {
    var m := MatchedIslands(t, islandsWithScore, matches);
    JoinTrailAggregates(t, islandsWithScore, matches);
    TotalOrigLengthPositive(m);
    TotalCiiPositive(m);
    assert TotalCii(m) / |m| as real > 0.0;
  }

  /** Every trail the filter keeps has islands of positive length and
      positive mean, so its three fields are positive. */
  lemma FilteredTrailsScorable(trails: seq<Trail>, islandsWithScore: seq<ScoredIsland>, matches: (int, int) -> bool)
    requires forall isl :: isl in islandsWithScore ==> PositiveIsland(isl)
    ensures var trailsIntersecting := SpatialJoin(trails, islandsWithScore, matches, Sum, Count, Mean);
            forall row :: row in TrailJoin.FilterTwoOrMoreIslands(trailsIntersecting) ==>
              row in trailsIntersecting && Scorable(row)
  {
    var trailsIntersecting := SpatialJoin(trails, islandsWithScore, matches, Sum, Count, Mean);
    FilterKeepsMatchedTrails(trails, islandsWithScore, matches);
    forall row | row in TrailJoin.FilterTwoOrMoreIslands(trailsIntersecting)
      ensures row in trailsIntersecting && Scorable(row)
    {
      var k :| 0 <= k < |trailsIntersecting| && trailsIntersecting[k] == row;
      assert row == JoinTrail(trails[k], islandsWithScore, matches, Sum, Count, Mean);
      JoinedTrailScorable(trails[k], islandsWithScore, matches);
    }
  }

  /** From the prepared islands to the trail scores: when every zonal CII
      mean is positive and some trail meets an island, the scores are
      computed, one per trail with islands, each between 0 and 100. */
  lemma PipelineScoresInRange(islands: seq<Island>, ciiTable: map<int, real>,
                              trails: seq<Trail>, matches: (int, int) -> bool)
    requires forall isl :: isl in islands ==> isl.shapeLength >= 1000.0 && isl.origLength == Float(isl.shapeLength)
    requires forall id :: id in ciiTable ==> ciiTable[id] > 0.0
    ensures var islandsWithScore := Islands.ComputeCiiPerIsland(islands, ciiTable);
            var trailsIntersecting := SpatialJoin(trails, islandsWithScore, matches, Sum, Count, Mean);
            var gte2 := TrailJoin.FilterTwoOrMoreIslands(trailsIntersecting);
            gte2 != [] ==>
              && TrailScores.ComputeTrailScores(trailsIntersecting, gte2).Success?
              && forall row :: row in TrailScores.ComputeTrailScores(trailsIntersecting, gte2).value ==>
                   row.totalConnectivityScore.Float? && 0.0 <= row.totalConnectivityScore.f <= 100.0
  {
    var islandsWithScore := Islands.ComputeCiiPerIsland(islands, ciiTable);
    var trailsIntersecting := SpatialJoin(trails, islandsWithScore, matches, Sum, Count, Mean);
    var gte2 := TrailJoin.FilterTwoOrMoreIslands(trailsIntersecting);
    ScoredIslandsPositive(islands, ciiTable);
    FilteredTrailsScorable(trails, islandsWithScore, matches);
    if gte2 != [] {
      ComputeTrailScoresInRange(trailsIntersecting, gte2);
      var scored := TrailScores.ComputeTrailScores(trailsIntersecting, gte2).value;
      forall row | row in scored
        ensures row.totalConnectivityScore.Float? && 0.0 <= row.totalConnectivityScore.f <= 100.0
      {
        var k :| 0 <= k < |scored| && scored[k] == row;
      }
    }
  }
}
