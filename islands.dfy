/**
 * trails.py, the LTS1-2 islands: prep_islands turns the islands layer into
 * one record per island id (STRONG) with its length kept in Orig_Length,
 * and compute_CII_per_island attaches the CII mean of each island's
 * 100-metre buffer.
 *
 * The geometric steps are inputs: the length of each island's dissolved
 * polyline, whether it intersects the four counties, and the zonal table.
 */
module Islands {
  import opened Tables
  import opened Values

  /** A record of the islands layer after Dissolve on STRONG: the island id,
      the length of its merged polyline and Orig_Length, null until
      prep_islands fills it in. */
  datatype Island = Island(strong: int, shapeLength: real, origLength: Value)

  function StrongOf(isl: Island): int
  {
    isl.strong
  }

  /** The values of `keys`, each once, in the order they first appear. */
  function DistinctKeys(keys: seq<int>): (distinct: seq<int>)
    ensures forall k :: k in distinct <==> k in keys
    ensures forall a, b :: 0 <= a < b < |distinct| ==> distinct[a] != distinct[b]
  {
    if keys == [] then []
    else
      var init := keys[..|keys| - 1];
      var last := keys[|keys| - 1];
      assert keys == init + [last];
      var seen := DistinctKeys(init);
      if last in seen then seen else seen + [last]
  }

  /** Dissolve on STRONG: one record per STRONG value of the layer, whose
      length is that of the merged polyline. */
  function Dissolve(strongValues: seq<int>, dissolvedLength: int -> real): (dissolved: seq<Island>)
    ensures UniqueBy(dissolved, StrongOf)
    ensures forall isl :: isl in dissolved <==>
              isl.strong in strongValues && isl.shapeLength == dissolvedLength(isl.strong) && isl.origLength.Null?
  {
    var keys := DistinctKeys(strongValues);
    var dissolved := seq(|keys|, k requires 0 <= k < |keys| => Island(keys[k], dissolvedLength(keys[k]), Null));
    assert forall isl: Island :: isl.strong in keys && isl.shapeLength == dissolvedLength(isl.strong) && isl.origLength.Null?
             ==> isl in dissolved by {
      forall isl: Island | isl.strong in keys && isl.shapeLength == dissolvedLength(isl.strong) && isl.origLength.Null?
        ensures isl in dissolved
      {
        var k :| 0 <= k < |keys| && keys[k] == isl.strong;
        assert dissolved[k] == isl;
      }
    }
    dissolved
  }

  /** The where clause "STRONG > 0": id 0 is a catch-all, not an island. */
  predicate StrongPositive(isl: Island)
  {
    isl.strong > 0
  }

  /** The where clause "Shape_Length >= 1000". */
  predicate AtLeast1000m(isl: Island)
  {
    isl.shapeLength >= 1000.0
  }

  /** islands_gt_0: the dissolved islands whose id is positive. */
  function IslandsGt0(dissolved: seq<Island>): (gt0: seq<Island>)
    ensures |gt0| <= |dissolved|
    ensures forall isl :: isl in gt0 <==> isl in dissolved && isl.strong > 0
  {
    Select(dissolved, StrongPositive)
  }

  /** The selection goes record by record: a record is kept once or dropped,
      and the kept records stay in the order of the layer. */
  lemma IslandsGt0InOrder(isl: Island, a: seq<Island>, b: seq<Island>)
    ensures IslandsGt0([isl]) == if isl.strong > 0 then [isl] else []
    ensures IslandsGt0(a + b) == IslandsGt0(a) + IslandsGt0(b)
  {
    SelectConcat(a, b, StrongPositive);
  }

  /** islands_gt_0 as the two tools behave: when no dissolved island has a
      positive id, the empty selection copies the whole dissolved layer. */
  function IslandsGt0AsWritten(dissolved: seq<Island>): (gt0: seq<Island>)
    ensures (exists isl :: isl in dissolved && isl.strong > 0) ==> gt0 == IslandsGt0(dissolved)
    ensures (forall isl :: isl in dissolved ==> isl.strong <= 0) ==> gt0 == dissolved
  {
    CopySelection(dissolved, StrongPositive)
  }

  /** A layer holding only the catch-all id 0 is copied whole. */
  lemma CatchAllLayerCopiedWhole()
    ensures var layer := [Island(0, 5000.0, Null)];
            IslandsGt0AsWritten(layer) == layer && IslandsGt0(layer) == []
  {
    CopySelectionOfNoMatch([Island(0, 5000.0, Null)], StrongPositive);
  }

  /** islands_gte_1000m: those of islands_gt_0 at least 1000 m long. */
  function IslandsGte1000m(gt0: seq<Island>): (gte1000m: seq<Island>)
    ensures |gte1000m| <= |gt0|
    ensures forall isl :: isl in gte1000m <==> isl in gt0 && isl.shapeLength >= 1000.0
  {
    Select(gt0, AtLeast1000m)
  }

  /** The same for the length selection. */
  lemma IslandsGte1000mInOrder(isl: Island, a: seq<Island>, b: seq<Island>)
    ensures IslandsGte1000m([isl]) == if isl.shapeLength >= 1000.0 then [isl] else []
    ensures IslandsGte1000m(a + b) == IslandsGte1000m(a) + IslandsGte1000m(b)
  {
    SelectConcat(a, b, AtLeast1000m);
  }

  /** islands_gte_1000m as the two tools behave: when every island is
      shorter than 1000 m, the whole of islands_gt_0 is copied. */
  function IslandsGte1000mAsWritten(gt0: seq<Island>): (gte1000m: seq<Island>)
    ensures (exists isl :: isl in gt0 && isl.shapeLength >= 1000.0) ==> gte1000m == IslandsGte1000m(gt0)
    ensures (forall isl :: isl in gt0 ==> isl.shapeLength < 1000.0) ==> gte1000m == gt0
  {
    CopySelection(gt0, AtLeast1000m)
  }

  /** A layer whose only island is 400 m long is copied whole. */
  lemma ShortIslandsCopiedWhole()
    ensures var layer := [Island(3, 400.0, Null)];
            IslandsGte1000mAsWritten(layer) == layer && IslandsGte1000m(layer) == []
  {
    CopySelectionOfNoMatch([Island(3, 400.0, Null)], AtLeast1000m);
  }

  /** The KEEP_COMMON spatial join with the four counties: the islands whose
      polyline intersects them, as `intersectsCounties` tells by id. */
  function WithinCounties(islands: seq<Island>, intersectsCounties: int -> bool): (within: seq<Island>)
    ensures forall isl :: isl in within <==> isl in islands && intersectsCounties(isl.strong)
  {
    Select(islands, MeetsCounties(intersectsCounties))
  }

  /** The selection test of the spatial join, on records. */
  function MeetsCounties(intersectsCounties: int -> bool): Island -> bool
  {
    (isl: Island) => intersectsCounties(isl.strong)
  }

  /** AddField and CalculateField "Orig_Length = !Shape_Length!". */
  function WithOrigLength(islands: seq<Island>): (r: seq<Island>)
    ensures |r| == |islands|
    ensures forall k :: 0 <= k < |r| ==>
              r[k].strong == islands[k].strong && r[k].shapeLength == islands[k].shapeLength
    ensures forall isl :: isl in r ==> isl.origLength == Float(isl.shapeLength)
  {
    seq(|islands|, k requires 0 <= k < |islands| => islands[k].(origLength := Float(islands[k].shapeLength)))
  }

  /** prep_islands, up to the islands feature class (the 100 m buffer keeps
      these records as they are). */
  function PrepIslands(strongValues: seq<int>, dissolvedLength: int -> real,
                       intersectsCounties: int -> bool): seq<Island>
  {
    WithOrigLength(WithinCounties(IslandsGte1000m(IslandsGt0(Dissolve(strongValues, dissolvedLength))),
                                  intersectsCounties))
  }

  /** A prepared island is a positive id of the layer whose dissolved
      polyline is at least 1000 m long and meets the counties, with
      Orig_Length equal to that length; there is one record for each such
      id, and no id has two. */
  lemma PrepIslandsExact(strongValues: seq<int>, dissolvedLength: int -> real, intersectsCounties: int -> bool)
    ensures var islands := PrepIslands(strongValues, dissolvedLength, intersectsCounties);
            && UniqueBy(islands, StrongOf)
            && forall isl :: isl in islands <==>
                 && isl.strong in strongValues && isl.strong > 0
                 && isl.shapeLength == dissolvedLength(isl.strong) && isl.shapeLength >= 1000.0
                 && intersectsCounties(isl.strong)
                 && isl.origLength == Float(isl.shapeLength)
  {
    var dissolved := Dissolve(strongValues, dissolvedLength);
    var gt0 := IslandsGt0(dissolved);
    var gte1000m := IslandsGte1000m(gt0);
    var within := WithinCounties(gte1000m, intersectsCounties);
    var islands := WithOrigLength(within);
    SelectKeepsUnique(dissolved, StrongPositive, StrongOf);
    SelectKeepsUnique(gt0, AtLeast1000m, StrongOf);
    SelectKeepsUnique(gte1000m, MeetsCounties(intersectsCounties), StrongOf);
    assert UniqueBy(islands, StrongOf) by {
      forall a, b | 0 <= a < b < |islands| ensures islands[a].strong != islands[b].strong {
        assert islands[a].strong == within[a].strong && islands[b].strong == within[b].strong;
      }
    }
    forall isl: Island ensures isl in islands <==>
                 && isl.strong in strongValues && isl.strong > 0
                 && isl.shapeLength == dissolvedLength(isl.strong) && isl.shapeLength >= 1000.0
                 && intersectsCounties(isl.strong)
                 && isl.origLength == Float(isl.shapeLength)
    {
      var blank := isl.(origLength := Null);
      if isl in islands {
        var k :| 0 <= k < |islands| && islands[k] == isl;
        assert within[k] == blank by {
          assert within[k] in within;
        }
        assert within[k] in within;
      }
    }
  }

  /** islands_with_score: an island with its CII mean as CII_Score_Overall. */
  datatype ScoredIsland = ScoredIsland(strong: int, shapeLength: real, origLength: Value, ciiScoreOverall: real)

  function WithScore(isl: Island, mean: real): ScoredIsland
  {
    ScoredIsland(isl.strong, isl.shapeLength, isl.origLength, mean)
  }

  function Unscored(s: ScoredIsland): Island
  {
    Island(s.strong, s.shapeLength, s.origLength)
  }

  /** compute_CII_per_island: the KEEP_ALL join of the zonal table on STRONG
      followed by the selection "CII_Score_Overall IS NOT NULL".  Exactly the
      islands whose id has a mean in the table remain, each carrying that
      mean, in order. */
  function ComputeCiiPerIsland(islands: seq<Island>, ciiTable: map<int, real>): (withScore: seq<ScoredIsland>)
    ensures |withScore| <= |islands|
    ensures forall s :: s in withScore ==>
              s.strong in ciiTable && s.ciiScoreOverall == ciiTable[s.strong] && Unscored(s) in islands
    ensures forall isl :: isl in islands && isl.strong in ciiTable ==>
              WithScore(isl, ciiTable[isl.strong]) in withScore
  {
    if islands == [] then []
    else
      var isl := islands[0];
      (if isl.strong in ciiTable then [WithScore(isl, ciiTable[isl.strong])] else [])
        + ComputeCiiPerIsland(islands[1..], ciiTable)
  }

  /** The join and selection go island by island: an island with a mean
      gives one scored record, one without gives none, and the records keep
      the order of the islands. */
  lemma {:induction false} ComputeCiiPerIslandInOrder(isl: Island, a: seq<Island>, b: seq<Island>,
                                                      ciiTable: map<int, real>)
    ensures ComputeCiiPerIsland([isl], ciiTable) ==
            if isl.strong in ciiTable then [WithScore(isl, ciiTable[isl.strong])] else []
    ensures ComputeCiiPerIsland(a + b, ciiTable) == ComputeCiiPerIsland(a, ciiTable) + ComputeCiiPerIsland(b, ciiTable)
  {
    assert [isl][1..] == [];
    if a == [] {
      assert a + b == b;
    } else {
      var first := if a[0].strong in ciiTable then [WithScore(a[0], ciiTable[a[0].strong])] else [];
      assert (a + b)[0] == a[0];
      assert (a + b)[1..] == a[1..] + b;
      assert ComputeCiiPerIsland(a + b, ciiTable) == first + ComputeCiiPerIsland(a[1..] + b, ciiTable);
      ComputeCiiPerIslandInOrder(isl, a[1..], b, ciiTable);
      assert ComputeCiiPerIsland(a, ciiTable) == first + ComputeCiiPerIsland(a[1..], ciiTable);
    }
  }

  /** A record of the islands layer joined KEEP_ALL with the zonal table:
      CII_Score_Overall is null where the id has no mean. */
  datatype JoinedIsland = JoinedIsland(island: Island, ciiScoreOverall: Value)

  /** AddJoin with KEEP_ALL on STRONG: every island, in order, with the
      mean of its id when the table has one. */
  function KeepAllCiiJoin(islands: seq<Island>, ciiTable: map<int, real>): (joined: seq<JoinedIsland>)
    ensures |joined| == |islands|
    ensures forall k :: 0 <= k < |islands| ==> joined[k].island == islands[k]
    ensures forall k :: 0 <= k < |islands| ==>
              joined[k].ciiScoreOverall ==
                if islands[k].strong in ciiTable then Float(ciiTable[islands[k].strong]) else Null
  {
    if islands == [] then []
    else
      var isl := islands[0];
      [JoinedIsland(isl, if isl.strong in ciiTable then Float(ciiTable[isl.strong]) else Null)]
        + KeepAllCiiJoin(islands[1..], ciiTable)
  }

  /** The where clause "CII_Score_Overall IS NOT NULL". */
  predicate HasCiiScore(j: JoinedIsland)
  {
    !j.ciiScoreOverall.Null?
  }

  /** Scored islands written as joined records. */
  function AsJoined(withScore: seq<ScoredIsland>): (joined: seq<JoinedIsland>)
    ensures |joined| == |withScore|
  {
    if withScore == [] then []
    else [JoinedIsland(Unscored(withScore[0]), Float(withScore[0].ciiScoreOverall))] + AsJoined(withScore[1..])
  }

  /** Selecting the joined records with a mean gives, record for record,
      the scored islands of ComputeCiiPerIsland. */
  lemma {:induction false} SelectedJoinIsScored(islands: seq<Island>, ciiTable: map<int, real>)
    ensures Select(KeepAllCiiJoin(islands, ciiTable), HasCiiScore) == AsJoined(ComputeCiiPerIsland(islands, ciiTable))
  {
    if islands != [] {
      var isl := islands[0];
      var joined := KeepAllCiiJoin(islands, ciiTable);
      var rest := KeepAllCiiJoin(islands[1..], ciiTable);
      var scoredRest := ComputeCiiPerIsland(islands[1..], ciiTable);
      assert joined[1..] == rest;
      SelectedJoinIsScored(islands[1..], ciiTable);
      assert Select(rest, HasCiiScore) == AsJoined(scoredRest);
      if isl.strong in ciiTable {
        var first := WithScore(isl, ciiTable[isl.strong]);
        assert Select(joined, HasCiiScore) == [joined[0]] + Select(rest, HasCiiScore);
        assert ComputeCiiPerIsland(islands, ciiTable) == [first] + scoredRest;
        assert ([first] + scoredRest)[1..] == scoredRest;
        assert AsJoined([first] + scoredRest) == [joined[0]] + AsJoined(scoredRest);
      } else {
        assert Select(joined, HasCiiScore) == Select(rest, HasCiiScore);
        assert ComputeCiiPerIsland(islands, ciiTable) == scoredRest;
      }
    }
  }

  /** compute_CII_per_island as the tools behave: when no island's id has
      a mean, the empty selection copies every joined island, its
      CII_Score_Overall null. */
  function ComputeCiiPerIslandAsWritten(islands: seq<Island>, ciiTable: map<int, real>): (r: seq<JoinedIsland>)
    ensures (exists isl :: isl in islands && isl.strong in ciiTable) ==>
              r == AsJoined(ComputeCiiPerIsland(islands, ciiTable))
    ensures (forall isl :: isl in islands ==> isl.strong !in ciiTable) ==>
              |r| == |islands| && forall k :: 0 <= k < |islands| ==> r[k] == JoinedIsland(islands[k], Null)
  {
    SelectedJoinIsScored(islands, ciiTable);
    SomeJoinedScored(islands, ciiTable);
    CopySelection(KeepAllCiiJoin(islands, ciiTable), HasCiiScore)
  }

  /** Some joined record has a mean iff some island's id has one. */
  lemma SomeJoinedScored(islands: seq<Island>, ciiTable: map<int, real>)
    ensures (exists isl :: isl in islands && isl.strong in ciiTable) <==>
            exists j :: j in KeepAllCiiJoin(islands, ciiTable) && HasCiiScore(j)
  {
    var joined := KeepAllCiiJoin(islands, ciiTable);
    if exists isl :: isl in islands && isl.strong in ciiTable {
      var isl :| isl in islands && isl.strong in ciiTable;
      var k :| 0 <= k < |islands| && islands[k] == isl;
      assert joined[k] in joined && HasCiiScore(joined[k]);
    }
    if exists j :: j in joined && HasCiiScore(j) {
      var j :| j in joined && HasCiiScore(j);
      var k :| 0 <= k < |joined| && joined[k] == j;
      assert islands[k] in islands;
    }
  }

  /** An island whose id has no zonal mean is copied with a null score,
      where the selection means no island at all. */
  lemma UnscoredIslandCopied()
    ensures var islands := [Island(4, 1500.0, Float(1500.0))];
            && ComputeCiiPerIslandAsWritten(islands, map[]) == [JoinedIsland(islands[0], Null)]
            && ComputeCiiPerIsland(islands, map[]) == []
  {
  }

  /** The join keeps the island id a unique key. */
  lemma {:induction false} ComputeCiiPerIslandUnique(islands: seq<Island>, ciiTable: map<int, real>)
    requires UniqueBy(islands, StrongOf)
    ensures forall a, b :: 0 <= a < b < |ComputeCiiPerIsland(islands, ciiTable)| ==>
              ComputeCiiPerIsland(islands, ciiTable)[a].strong != ComputeCiiPerIsland(islands, ciiTable)[b].strong
  {
    if islands != [] {
      var tail := islands[1..];
      assert UniqueBy(tail, StrongOf) by {
        forall a, b | 0 <= a < b < |tail| ensures tail[a].strong != tail[b].strong {
          assert tail[a] == islands[a + 1] && tail[b] == islands[b + 1];
        }
      }
      ComputeCiiPerIslandUnique(tail, ciiTable);
      var rest := ComputeCiiPerIsland(tail, ciiTable);
      forall s | s in rest ensures s.strong != islands[0].strong {
        var j :| 0 <= j < |tail| && tail[j] == Unscored(s);
        assert islands[j + 1] == Unscored(s);
      }
      if islands[0].strong in ciiTable {
        PrependKeepsUnique(WithScore(islands[0], ciiTable[islands[0].strong]), rest);
      }
    }
  }

  /** Prepending a record whose id the rest lacks keeps the ids distinct. */
  lemma PrependKeepsUnique(s: ScoredIsland, rest: seq<ScoredIsland>)
    requires forall a, b :: 0 <= a < b < |rest| ==> rest[a].strong != rest[b].strong
    requires forall t :: t in rest ==> t.strong != s.strong
    ensures forall a, b :: 0 <= a < b < |[s] + rest| ==> ([s] + rest)[a].strong != ([s] + rest)[b].strong
  {
    var r := [s] + rest;
    forall a, b | 0 <= a < b < |r| ensures r[a].strong != r[b].strong {
      if a == 0 {
        assert r[b] == rest[b - 1] && r[b] in rest;
      } else {
        assert r[a] == rest[a - 1] && r[b] == rest[b - 1];
      }
    }
  }
}
