/**
 * trails.py, the non-circuit trails and their islands: prep_trails,
 * find_trail_island_intersections (a one-to-one, KEEP_ALL spatial join of
 * the scored islands onto the trails, with the merge rules Sum, Count and
 * Mean) and filter_2_or_more_islands.
 *
 * Which islands lie within the 50 m search radius of a trail is geometry:
 * it is the input relation `matches` on (trail OID, island STRONG).
 */
module TrailJoin {
  import opened Tables
  import opened Values
  import opened Islands
  import opened FieldMapping

  /** A record of the trails layer: its OID, the Trail_ID field (null until
      prep_trails adds it) and the other attributes. */
  datatype Trail = Trail(oid: int, trailId: Value, attributes: map<string, Value>)

  /** The fields prep_trails deletes. */
  const DroppedTrailFields: set<string> :=
    {"FolderPath", "SymbolID", "AltMode", "Base", "Clamped", "Extruded", "Snippet", "PopupInfo"}

  /** prep_trails on one record: Trail_ID = !OID!, the listed fields gone. */
  function PrepTrail(t: Trail): (r: Trail)
    ensures r.oid == t.oid && r.trailId == Int(t.oid)
    ensures r.attributes.Keys == t.attributes.Keys - DroppedTrailFields
    ensures forall name :: name in r.attributes ==> r.attributes[name] == t.attributes[name]
  {
    t.(trailId := Int(t.oid), attributes := t.attributes - DroppedTrailFields)
  }

  function PrepTrails(trails: seq<Trail>): (r: seq<Trail>)
    ensures |r| == |trails|
    ensures forall k :: 0 <= k < |trails| ==> r[k] == PrepTrail(trails[k])
  {
    seq(|trails|, k requires 0 <= k < |trails| => PrepTrail(trails[k]))
  }

  /** The fields of islands_with_score after the renames its alias loop is
      meant to make: each joined field back under its own name. */
  const IslandFieldNames: seq<string> := ["STRONG", "Orig_Length", "CII_Score_Overall"]

  /** The same fields as the alias loop leaves them.  The copy of the joined
      layer qualifies every field with its table's name; the loop renames a
      field whose alias is in its list, and that test is case-sensitive, so
      the field with alias "Orig_Length" keeps its qualified name. */
  const IslandFieldNamesAsWritten: seq<string> := ["STRONG", "islands_Orig_Length", "CII_Score_Overall"]

  /** The field mappings find_trail_island_intersections builds: those of
      the trails, then those of the islands, then the three merge rules. */
  function TrailFieldMappings(trailFieldNames: seq<string>): Result<seq<FieldMap>>
  {
    WithTrailMergeRules(AddedFieldMaps(AddedFieldMaps([], trailFieldNames), IslandFieldNames))
  }

  /** The field mappings as written, with the islands' fields as the
      alias loop leaves them. */
  function TrailFieldMappingsAsWritten(trailFieldNames: seq<string>): Result<seq<FieldMap>>
  {
    WithTrailMergeRules(AddedFieldMaps(AddedFieldMaps([], trailFieldNames), IslandFieldNamesAsWritten))
  }

  /** As written, no field map answers to "Orig_length": the first
      set_up_merge_rules call gets index -1, getFieldMap fails and
      find_trail_island_intersections stops there, for any trails without
      a field of that name. */
  lemma AsWrittenOrigLengthUnmapped(trailFieldNames: seq<string>)
    requires forall name :: name in trailFieldNames ==> !SameFieldName(name, "Orig_length")
    ensures TrailFieldMappingsAsWritten(trailFieldNames) == Failure(FieldNotFound("Orig_length"))
  {
    var withTrails := AddedFieldMaps([], trailFieldNames);
    var added := AddedFieldMaps(withTrails, IslandFieldNamesAsWritten);
    AddedFieldMapsNew([], trailFieldNames);
    AddedFieldMapsNew(withTrails, IslandFieldNamesAsWritten);
    forall k | 0 <= k < |added| ensures !SameFieldName(added[k].outputName, "Orig_length") {
      if k < |withTrails| {
        assert added[k] == withTrails[k];
        assert withTrails[k].outputName in trailFieldNames;
      } else {
        AsWrittenIslandFieldsDiffer(added[k].outputName);
      }
    }
    assert FindFieldMapIndex(added, "Orig_length") == -1;
  }

  /** None of the fields as the alias loop leaves them is "Orig_length":
      their lengths differ. */
  lemma AsWrittenIslandFieldsDiffer(name: string)
    requires name in IslandFieldNamesAsWritten
    ensures !SameFieldName(name, "Orig_length")
  {
    assert |name| != |"Orig_length"|;
    assert |Lowered(name)| != |Lowered("Orig_length")|;
  }

  /** The three set_up_merge_rules calls, in order. */
  function WithTrailMergeRules(added: seq<FieldMap>): Result<seq<FieldMap>>
  {
    var withSum :- WithMergeRule(added, "Orig_length", Sum);
    var withCount :- WithMergeRule(withSum, "STRONG", Count);
    WithMergeRule(withCount, "CII_Score_Overall", Mean)
  }

  /** A set-up keeps every lookup where it was; it gives the field map it
      finds the new rule and leaves the rule of every other one. */
  lemma WithMergeRuleEffect(fieldMaps: seq<FieldMap>, fieldName: string, mergeRule: MergeRule, other: string)
    requires WithMergeRule(fieldMaps, fieldName, mergeRule).Success?
    ensures var updated := WithMergeRule(fieldMaps, fieldName, mergeRule).value;
            && FindFieldMapIndex(updated, other) == FindFieldMapIndex(fieldMaps, other)
            && (other == fieldName ==> RuleOf(updated, other) == Success(mergeRule))
            && (FindFieldMapIndex(fieldMaps, other) != FindFieldMapIndex(fieldMaps, fieldName) ==>
                  RuleOf(updated, other) == RuleOf(fieldMaps, other))
  {
    var updated := WithMergeRule(fieldMaps, fieldName, mergeRule).value;
    FindBySameNames(fieldMaps, updated, other);
  }

  /** The field maps a lookup finds depend on their names only. */
  lemma FindBySameNames(a: seq<FieldMap>, b: seq<FieldMap>, name: string)
    requires |a| == |b| && forall k :: 0 <= k < |a| ==> a[k].outputName == b[k].outputName
    ensures FindFieldMapIndex(a, name) == FindFieldMapIndex(b, name)
  {
  }

  /** Field names that match each other find the same field map. */
  lemma FoundUnderSameName(fieldMaps: seq<FieldMap>, a: string, b: string)
    requires FindFieldMapIndex(fieldMaps, a) >= 0 && SameFieldName(a, b)
    ensures FindFieldMapIndex(fieldMaps, b) >= 0
  {
    var k := FindFieldMapIndex(fieldMaps, a);
    assert SameFieldName(fieldMaps[k].outputName, b);
  }

  /** "Orig_length" names the field added as "Orig_Length". */
  lemma OrigLengthSpellings()
    ensures SameFieldName("Orig_Length", "Orig_length")
  {
    assert Lowered("Orig_Length") == Lowered("Orig_length") by {
      assert LowerAscii('L') == 'l';
    }
  }

  /** Names of different lengths never find the same field map. */
  lemma DifferentFieldMaps(fieldMaps: seq<FieldMap>, a: string, b: string)
    requires FindFieldMapIndex(fieldMaps, a) >= 0 && FindFieldMapIndex(fieldMaps, b) >= 0
    requires |a| != |b|
    ensures FindFieldMapIndex(fieldMaps, a) != FindFieldMapIndex(fieldMaps, b)
  {
    var i := FindFieldMapIndex(fieldMaps, a);
    assert |Lowered(fieldMaps[i].outputName)| == |a|;
  }

  /** After both addTable calls, the three rule fields have three different
      field maps. */
  lemma IslandFieldsMapped(trailFieldNames: seq<string>)
    ensures var added := AddedFieldMaps(AddedFieldMaps([], trailFieldNames), IslandFieldNames);
            var i1 := FindFieldMapIndex(added, "Orig_length");
            var i2 := FindFieldMapIndex(added, "STRONG");
            var i3 := FindFieldMapIndex(added, "CII_Score_Overall");
            0 <= i1 && 0 <= i2 && 0 <= i3 && i1 != i2 && i1 != i3 && i2 != i3
  {
    var withTrails := AddedFieldMaps([], trailFieldNames);
    var added := AddedFieldMaps(withTrails, IslandFieldNames);
    AddedFieldMapsFind(withTrails, IslandFieldNames, IslandFieldNames[0]);
    AddedFieldMapsFind(withTrails, IslandFieldNames, IslandFieldNames[1]);
    AddedFieldMapsFind(withTrails, IslandFieldNames, IslandFieldNames[2]);
    OrigLengthSpellings();
    FoundUnderSameName(added, IslandFieldNames[1], "Orig_length");
    DifferentFieldMaps(added, "Orig_length", "STRONG");
    DifferentFieldMaps(added, "Orig_length", "CII_Score_Overall");
    DifferentFieldMaps(added, "STRONG", "CII_Score_Overall");
  }

  /** Three set-ups on three different field maps all succeed, and each
      leaves its own rule in place. */
  lemma ThreeMergeRules(fieldMaps: seq<FieldMap>, a: string, ruleA: MergeRule, b: string, ruleB: MergeRule,
                        c: string, ruleC: MergeRule)
    requires FindFieldMapIndex(fieldMaps, a) >= 0 && FindFieldMapIndex(fieldMaps, b) >= 0
    requires FindFieldMapIndex(fieldMaps, c) >= 0
    requires FindFieldMapIndex(fieldMaps, a) != FindFieldMapIndex(fieldMaps, b)
    requires FindFieldMapIndex(fieldMaps, a) != FindFieldMapIndex(fieldMaps, c)
    requires FindFieldMapIndex(fieldMaps, b) != FindFieldMapIndex(fieldMaps, c)
    ensures WithMergeRule(fieldMaps, a, ruleA).Success?
    ensures var withA := WithMergeRule(fieldMaps, a, ruleA).value;
            && WithMergeRule(withA, b, ruleB).Success?
            && var withB := WithMergeRule(withA, b, ruleB).value;
               && WithMergeRule(withB, c, ruleC).Success?
               && var withC := WithMergeRule(withB, c, ruleC).value;
                  RuleOf(withC, a) == Success(ruleA) && RuleOf(withC, b) == Success(ruleB)
                  && RuleOf(withC, c) == Success(ruleC)
  {
    assert SameFieldName(fieldMaps[FindFieldMapIndex(fieldMaps, a)].outputName, a);
    var withA := WithMergeRule(fieldMaps, a, ruleA).value;
    WithMergeRuleEffect(fieldMaps, a, ruleA, a);
    WithMergeRuleEffect(fieldMaps, a, ruleA, b);
    WithMergeRuleEffect(fieldMaps, a, ruleA, c);
    assert SameFieldName(withA[FindFieldMapIndex(withA, b)].outputName, b);
    var withB := WithMergeRule(withA, b, ruleB).value;
    WithMergeRuleEffect(withA, b, ruleB, a);
    WithMergeRuleEffect(withA, b, ruleB, b);
    WithMergeRuleEffect(withA, b, ruleB, c);
    assert SameFieldName(withB[FindFieldMapIndex(withB, c)].outputName, c);
    WithMergeRuleEffect(withB, c, ruleC, a);
    WithMergeRuleEffect(withB, c, ruleC, b);
    WithMergeRuleEffect(withB, c, ruleC, c);
  }

  /** Whatever fields the trails have, the three set-ups succeed and leave
      Orig_length summed, STRONG counted and CII_Score_Overall averaged:
      the three rules sit on three different field maps, so none undoes
      another. */
  lemma TrailFieldMappingsRules(trailFieldNames: seq<string>)
    ensures TrailFieldMappings(trailFieldNames).Success?
    ensures RuleOf(TrailFieldMappings(trailFieldNames).value, "Orig_length") == Success(Sum)
    ensures RuleOf(TrailFieldMappings(trailFieldNames).value, "STRONG") == Success(Count)
    ensures RuleOf(TrailFieldMappings(trailFieldNames).value, "CII_Score_Overall") == Success(Mean)
  {
    var added := AddedFieldMaps(AddedFieldMaps([], trailFieldNames), IslandFieldNames);
    IslandFieldsMapped(trailFieldNames);
    TrailMergeRulesOn(added);
  }

  /** The three set-ups on field maps where the three rule fields have three
      different field maps. */
  lemma TrailMergeRulesOn(added: seq<FieldMap>)
    requires var i1 := FindFieldMapIndex(added, "Orig_length");
             var i2 := FindFieldMapIndex(added, "STRONG");
             var i3 := FindFieldMapIndex(added, "CII_Score_Overall");
             0 <= i1 && 0 <= i2 && 0 <= i3 && i1 != i2 && i1 != i3 && i2 != i3
    ensures WithTrailMergeRules(added).Success?
    ensures RuleOf(WithTrailMergeRules(added).value, "Orig_length") == Success(Sum)
    ensures RuleOf(WithTrailMergeRules(added).value, "STRONG") == Success(Count)
    ensures RuleOf(WithTrailMergeRules(added).value, "CII_Score_Overall") == Success(Mean)
  {
    ThreeMergeRules(added, "Orig_length", Sum, "STRONG", Count, "CII_Score_Overall", Mean);
  }

  /** The number of non-null values. */
  function CountOf(values: seq<Value>): (n: nat)
    ensures n <= |values|
  {
    if values == [] then 0 else (if values[0].Null? then 0 else 1) + CountOf(values[1..])
  }

  /** The sum of the non-null values. */
  function SumOf(values: seq<Value>): real
  {
    if values == [] then 0.0 else (if values[0].Null? then 0.0 else AsReal(values[0])) + SumOf(values[1..])
  }

  /** A field map's output value for one target feature, from the values of
      the field in its matched join features; null when none has a value. */
  function Merge(rule: MergeRule, values: seq<Value>): Value
  {
    if CountOf(values) == 0 then Null
    else match rule
      case First => values[0]
      case Sum => Float(SumOf(values))
      case Mean => Float(SumOf(values) / CountOf(values) as real)
      case Count => Int(CountOf(values))
  }

  /** The scored islands within the search radius of trail `t`, in order. */
  function MatchedIslands(t: Trail, islands: seq<ScoredIsland>, matches: (int, int) -> bool): (m: seq<ScoredIsland>)
    ensures |m| <= |islands|
    ensures forall isl :: isl in m <==> isl in islands && matches(t.oid, isl.strong)
  {
    Select(islands, (isl: ScoredIsland) => matches(t.oid, isl.strong))
  }

  /** The join looks at the islands one by one: a matching island record is
      taken once, so Count and Sum see it once, and the matched records keep
      the order of the islands layer. */
  lemma MatchedIslandsInOrder(t: Trail, isl: ScoredIsland, a: seq<ScoredIsland>, b: seq<ScoredIsland>,
                              matches: (int, int) -> bool)
    ensures MatchedIslands(t, [isl], matches) == if matches(t.oid, isl.strong) then [isl] else []
    ensures MatchedIslands(t, a + b, matches) == MatchedIslands(t, a, matches) + MatchedIslands(t, b, matches)
  {
    SelectConcat(a, b, (s: ScoredIsland) => matches(t.oid, s.strong));
  }

  /** The columns of the matched islands the three field maps read. */
  function OrigLengths(m: seq<ScoredIsland>): seq<Value>
  {
    seq(|m|, k requires 0 <= k < |m| => m[k].origLength)
  }

  function Strongs(m: seq<ScoredIsland>): seq<Value>
  {
    seq(|m|, k requires 0 <= k < |m| => Int(m[k].strong))
  }

  function CiiScores(m: seq<ScoredIsland>): seq<Value>
  {
    seq(|m|, k requires 0 <= k < |m| => Float(m[k].ciiScoreOverall))
  }

  /** The total Orig_Length of some islands. */
  function TotalOrigLength(m: seq<ScoredIsland>): real
    requires forall isl :: isl in m ==> !isl.origLength.Null?
  {
    if m == [] then 0.0 else AsReal(m[0].origLength) + TotalOrigLength(m[1..])
  }

  /** The total CII mean of some islands. */
  function TotalCii(m: seq<ScoredIsland>): real
  {
    if m == [] then 0.0 else m[0].ciiScoreOverall + TotalCii(m[1..])
  }

  /** A row of trails_intersecting, its fields already renamed:
      Orig_length to Length_of_All_Islands, STRONG to Num_of_Islands,
      CII_Score_Overall to Trail_CII_Score; Total_connectivity_score is
      null until compute_trail_scores fills it in. */
  datatype TrailRow = TrailRow(trail: Trail, lengthOfAllIslands: Value, numOfIslands: Value,
                               trailCiiScore: Value, totalConnectivityScore: Value)

  /** The output row of the spatial join for one trail. */
  function JoinTrail(t: Trail, islands: seq<ScoredIsland>, matches: (int, int) -> bool,
                     lengthRule: MergeRule, strongRule: MergeRule, ciiRule: MergeRule): TrailRow
  {
    var m := MatchedIslands(t, islands, matches);
    TrailRow(t, Merge(lengthRule, OrigLengths(m)), Merge(strongRule, Strongs(m)), Merge(ciiRule, CiiScores(m)), Null)
  }

  /** SpatialJoin JOIN_ONE_TO_ONE, KEEP_ALL: one row per trail, in order,
      whether or not any island matches it. */
  function SpatialJoin(trails: seq<Trail>, islands: seq<ScoredIsland>, matches: (int, int) -> bool,
                       lengthRule: MergeRule, strongRule: MergeRule, ciiRule: MergeRule): (rows: seq<TrailRow>)
    ensures |rows| == |trails|
    ensures forall k :: 0 <= k < |trails| ==> rows[k].trail == trails[k]
  {
    seq(|trails|, k requires 0 <= k < |trails| => JoinTrail(trails[k], islands, matches, lengthRule, strongRule, ciiRule))
  }

  /** The three columns of islands that all have Orig_Length count every
      island and add up the islands' own values. */
  lemma {:induction false} ColumnsOfMatched(m: seq<ScoredIsland>)
    requires forall isl :: isl in m ==> !isl.origLength.Null?
    ensures CountOf(OrigLengths(m)) == |m| && SumOf(OrigLengths(m)) == TotalOrigLength(m)
    ensures CountOf(Strongs(m)) == |m|
    ensures CountOf(CiiScores(m)) == |m| && SumOf(CiiScores(m)) == TotalCii(m)
  {
    if m != [] {
      assert OrigLengths(m)[1..] == OrigLengths(m[1..]);
      assert Strongs(m)[1..] == Strongs(m[1..]);
      assert CiiScores(m)[1..] == CiiScores(m[1..]);
      ColumnsOfMatched(m[1..]);
    }
  }

  /** With the rules Sum, Count and Mean, a trail's row carries the total
      Orig_Length of its matched islands, their number and their mean CII
      score; a trail no island matches keeps its row with the three fields
      null. */
  lemma JoinTrailAggregates(t: Trail, islands: seq<ScoredIsland>, matches: (int, int) -> bool)
    requires forall isl :: isl in islands ==> !isl.origLength.Null?
    ensures var row := JoinTrail(t, islands, matches, Sum, Count, Mean);
            var m := MatchedIslands(t, islands, matches);
            && (m == [] ==> row.lengthOfAllIslands.Null? && row.numOfIslands.Null? && row.trailCiiScore.Null?)
            && (m != [] ==> && row.lengthOfAllIslands == Float(TotalOrigLength(m))
                            && row.numOfIslands == Int(|m|)
                            && row.trailCiiScore == Float(TotalCii(m) / |m| as real))
  {
    ColumnsOfMatched(MatchedIslands(t, islands, matches));
  }

  /** The where clause "Num_of_Islands >=1"; a null never matches. */
  predicate HasIslands(row: TrailRow)
  {
    !row.numOfIslands.Null? && AsReal(row.numOfIslands) >= 1.0
  }

  /** filter_2_or_more_islands: trails_intersecting_gte_2 holds the rows of
      trails_intersecting with at least one island, despite the name. */
  function FilterTwoOrMoreIslands(trailsIntersecting: seq<TrailRow>): (gte2: seq<TrailRow>)
    ensures |gte2| <= |trailsIntersecting|
    ensures forall row :: row in gte2 <==> row in trailsIntersecting && HasIslands(row)
  {
    Select(trailsIntersecting, HasIslands)
  }

  /** filter_2_or_more_islands as the two tools behave: when no row has an
      island, the empty selection copies the whole of trails_intersecting. */
  function FilterTwoOrMoreIslandsAsWritten(trailsIntersecting: seq<TrailRow>): (gte2: seq<TrailRow>)
    ensures (exists row :: row in trailsIntersecting && HasIslands(row)) ==>
              gte2 == FilterTwoOrMoreIslands(trailsIntersecting)
    ensures (forall row :: row in trailsIntersecting ==> !HasIslands(row)) ==> gte2 == trailsIntersecting
  {
    CopySelection(trailsIntersecting, HasIslands)
  }

  /** A trail no island matches, alone in trails_intersecting, is copied,
      where the filter means no row at all. */
  lemma UnmatchedTrailCopied()
    ensures var rows := [TrailRow(Trail(1, Int(1), map[]), Null, Null, Null, Null)];
            FilterTwoOrMoreIslandsAsWritten(rows) == rows && FilterTwoOrMoreIslands(rows) == []
  {
    CopySelectionOfNoMatch([TrailRow(Trail(1, Int(1), map[]), Null, Null, Null, Null)], HasIslands);
  }

  /** The filter goes row by row: a row with an island is kept once, and
      the kept rows stay in the order of trails_intersecting. */
  lemma FilterTwoOrMoreIslandsInOrder(row: TrailRow, a: seq<TrailRow>, b: seq<TrailRow>)
    ensures FilterTwoOrMoreIslands([row]) == if HasIslands(row) then [row] else []
    ensures FilterTwoOrMoreIslands(a + b) == FilterTwoOrMoreIslands(a) + FilterTwoOrMoreIslands(b)
  {
    SelectConcat(a, b, HasIslands);
  }

  /** After the join, the filter keeps exactly the trails that some island
      matches. */
  lemma FilterKeepsMatchedTrails(trails: seq<Trail>, islands: seq<ScoredIsland>, matches: (int, int) -> bool)
    requires forall isl :: isl in islands ==> !isl.origLength.Null?
    ensures var rows := SpatialJoin(trails, islands, matches, Sum, Count, Mean);
            forall row :: row in FilterTwoOrMoreIslands(rows) <==>
                          row in rows && MatchedIslands(row.trail, islands, matches) != []
  {
    var rows := SpatialJoin(trails, islands, matches, Sum, Count, Mean);
    forall row | row in rows
      ensures HasIslands(row) <==> MatchedIslands(row.trail, islands, matches) != []
    {
      var k :| 0 <= k < |rows| && rows[k] == row;
      JoinTrailAggregates(trails[k], islands, matches);
    }
  }
}
