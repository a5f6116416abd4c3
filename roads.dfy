/**
 * roads.py: the top-30% LTS3 road segments and the CII mean under each
 * segment's one-mile buffer.  ZonalStatisticsAsTable only gives a mean to
 * zones that do not overlap another zone of the same run, so
 * compute_CII_scores_per_lts3_NOT runs it again and again on the zones it
 * left without a mean, writing one numbered table per pass, until none is
 * left.
 *
 * The zonal primitive is a parameter: given the EDGE keys of the working
 * set it returns, for some of them, the CII mean of their zone.
 */
module Roads {
  import opened Tables
  import opened Values

  /** A record of the LTS3 segments layer, or of its buffered copy (Buffer
      keeps the attributes): the EDGE key, the Top30perce flag and every
      other attribute, which the script only carries along. */
  datatype Segment = Segment(edge: int, top30perce: Value, attributes: map<string, Value>)

  /** The where clause "Top30perce = 1"; a null never matches. */
  predicate IsTop30pct(s: Segment)
  {
    !s.top30perce.Null? && AsReal(s.top30perce) == 1.0
  }

  /** select_top30pct_lts3: lts3_top30pct holds the flagged segments of the
      source layer, as they are there. */
  function SelectTop30pctLts3(lts3Orig: seq<Segment>): (lts3Top30pct: seq<Segment>)
    ensures |lts3Top30pct| <= |lts3Orig|
    ensures forall s :: s in lts3Top30pct <==> s in lts3Orig && IsTop30pct(s)
  {
    Select(lts3Orig, IsTop30pct)
  }

  /** The copy keeps the layer's order: the selection of a layer is the
      selection of its first part followed by that of the rest. */
  lemma SelectTop30pctLts3InOrder(a: seq<Segment>, b: seq<Segment>)
    ensures SelectTop30pctLts3(a + b) == SelectTop30pctLts3(a) + SelectTop30pctLts3(b)
  {
    SelectConcat(a, b, IsTop30pct);
  }

  /** select_top30pct_lts3 as the two tools behave: when no segment is
      flagged, the empty selection leaves the layer without a selection and
      CopyFeatures copies the whole source layer. */
  function SelectTop30pctLts3AsWritten(lts3Orig: seq<Segment>): (lts3Top30pct: seq<Segment>)
    ensures (exists s :: s in lts3Orig && IsTop30pct(s)) ==> lts3Top30pct == SelectTop30pctLts3(lts3Orig)
    ensures (forall s :: s in lts3Orig ==> !IsTop30pct(s)) ==> lts3Top30pct == lts3Orig
  {
    CopySelection(lts3Orig, IsTop30pct)
  }

  /** A layer whose only segment has Top30perce = 0 is copied whole, where
      the selection means no segment at all. */
  lemma UnflaggedLayerCopiedWhole()
    ensures var layer := [Segment(7, Int(0), map[])];
            SelectTop30pctLts3AsWritten(layer) == layer && SelectTop30pctLts3(layer) == []
  {
    CopySelectionOfNoMatch([Segment(7, Int(0), map[])], IsTop30pct);
  }

  /** The EDGE keys of a feature class. */
  function Ids(rows: seq<Segment>): set<int>
  {
    set s | s in rows :: s.edge
  }

  /** A record of lts3_temp: a working-set segment with the MEAN field of
      the pass table joined on EDGE, null where the table has no row. */
  datatype JoinedSegment = JoinedSegment(segment: Segment, mean: Value)

  /** AddJoin with KEEP_ALL, copied to lts3_temp: every working-set row is
      kept, in order, and gets the mean its EDGE has in the table, if any. */
  function KeepAllJoin(rows: seq<Segment>, table: map<int, real>): (joined: seq<JoinedSegment>)
    ensures |joined| == |rows|
    ensures forall k :: 0 <= k < |rows| ==> joined[k].segment == rows[k]
    ensures forall k :: 0 <= k < |rows| ==> (joined[k].mean.Null? <==> rows[k].edge !in table)
    ensures forall k :: 0 <= k < |rows| && rows[k].edge in table ==>
              joined[k].mean == Float(table[rows[k].edge])
  {
    if rows == [] then []
    else
      var mean := if rows[0].edge in table then Float(table[rows[0].edge]) else Null;
      [JoinedSegment(rows[0], mean)] + KeepAllJoin(rows[1..], table)
  }

  /** The rows of lts3_temp selected by "..._MEAN IS NULL", with the fields
      that came from the pass table deleted again. */
  function CarryForward(temp: seq<JoinedSegment>): seq<Segment>
  {
    if temp == [] then []
    else (if temp[0].mean.Null? then [temp[0].segment] else []) + CarryForward(temp[1..])
  }

  /** The next lts3_unprocessed after a pass that wrote `table`. */
  function NextUnprocessed(rows: seq<Segment>, table: map<int, real>): seq<Segment>
  {
    CarryForward(KeepAllJoin(rows, table))
  }

  /** The next working set is exactly the current segments whose EDGE got no
      mean in the pass table, with their attributes as they were. */
  lemma {:induction false} NextUnprocessedIsUnresolved(rows: seq<Segment>, table: map<int, real>)
    ensures |NextUnprocessed(rows, table)| <= |rows|
    ensures forall s :: s in NextUnprocessed(rows, table) <==> s in rows && s.edge !in table
  {
    if rows != [] {
      var joined := KeepAllJoin(rows, table);
      assert joined[1..] == KeepAllJoin(rows[1..], table);
      NextUnprocessedIsUnresolved(rows[1..], table);
      assert NextUnprocessed(rows, table)
          == (if joined[0].mean.Null? then [rows[0]] else []) + NextUnprocessed(rows[1..], table);
    }
  }

  /** The pass only removes keys: the keys left are the old ones minus
      those the table resolved. */
  lemma NextUnprocessedIds(rows: seq<Segment>, table: map<int, real>)
    ensures Ids(NextUnprocessed(rows, table)) == Ids(rows) - table.Keys
  {
    var next := NextUnprocessed(rows, table);
    NextUnprocessedIsUnresolved(rows, table);
    forall e | e in Ids(rows) - table.Keys ensures e in Ids(next) {
      var s :| s in rows && s.edge == e;
      assert s in next;
    }
  }

  /** A pass that resolves a key of the working set shrinks it. */
  lemma {:induction false} NextUnprocessedShrinks(rows: seq<Segment>, table: map<int, real>, e: int)
    requires e in table && e in Ids(rows)
    ensures |NextUnprocessed(rows, table)| < |rows|
  {
    var joined := KeepAllJoin(rows, table);
    assert joined[1..] == KeepAllJoin(rows[1..], table);
    NextUnprocessedIsUnresolved(rows[1..], table);
    if rows[0].edge != e {
      var s :| s in rows && s.edge == e;
      assert s in rows[1..];
      NextUnprocessedShrinks(rows[1..], table, e);
    }
  }

  /** A pass whose table holds a key of the working set shrinks it. */
  lemma NonEmptyPassShrinks(rows: seq<Segment>, table: map<int, real>)
    requires table.Keys <= Ids(rows)
    ensures table != map[] ==> |NextUnprocessed(rows, table)| < |rows|
  {
    if table != map[] {
      var e :| e in table;
      NextUnprocessedShrinks(rows, table, e);
    }
  }

  /** A pass whose table resolves every EDGE of the working set leaves the
      loop nothing to do. */
  lemma {:induction false} FullyResolvedPassEmpties(rows: seq<Segment>, table: map<int, real>)
    requires Ids(rows) <= table.Keys
    ensures NextUnprocessed(rows, table) == []
  {
    if rows != [] {
      var joined := KeepAllJoin(rows, table);
      assert joined[1..] == KeepAllJoin(rows[1..], table);
      assert rows[0].edge in Ids(rows);
      assert Ids(rows[1..]) <= Ids(rows) by {
        forall e | e in Ids(rows[1..]) ensures e in Ids(rows) {
          var s :| s in rows[1..] && s.edge == e;
          assert s in rows;
        }
      }
      FullyResolvedPassEmpties(rows[1..], table);
    }
  }

  /** The segments of lts3_temp, the joined MEAN dropped. */
  function Segments(temp: seq<JoinedSegment>): (rows: seq<Segment>)
    ensures |rows| == |temp| && forall k :: 0 <= k < |temp| ==> rows[k] == temp[k].segment
  {
    seq(|temp|, k requires 0 <= k < |temp| => temp[k].segment)
  }

  /** The rows the CopyFeatures of lts3_temp writes as the tools behave:
      when "..._MEAN IS NULL" matches no row, the layer has no selection and
      every row of lts3_temp is copied. */
  function CarryForwardAsWritten(temp: seq<JoinedSegment>): seq<Segment>
  {
    var carried := CarryForward(temp);
    if carried == [] then Segments(temp) else carried
  }

  /** The next lts3_unprocessed as written: the intended one while some
      EDGE is left without a mean, and the whole working set again once the
      table resolves them all. */
  function NextUnprocessedAsWritten(rows: seq<Segment>, table: map<int, real>): (next: seq<Segment>)
    ensures (exists s :: s in rows && s.edge !in table) ==> next == NextUnprocessed(rows, table)
    ensures Ids(rows) <= table.Keys ==> next == rows
  {
    NextUnprocessedIsUnresolved(rows, table);
    var joined := KeepAllJoin(rows, table);
    assert Segments(joined) == rows;
    if Ids(rows) <= table.Keys then
      FullyResolvedPassEmpties(rows, table);
      CarryForwardAsWritten(joined)
    else
      CarryForwardAsWritten(joined)
  }

  /** As written, a pass never empties a non-empty working set, so
      num_of_rows never drops to 0. */
  lemma AsWrittenPassNeverEmpties(rows: seq<Segment>, table: map<int, real>)
    requires rows != []
    ensures NextUnprocessedAsWritten(rows, table) != []
  {
    if !(Ids(rows) <= table.Keys) {
      var e :| e in Ids(rows) && e !in table;
      var s :| s in rows && s.edge == e;
      NextUnprocessedIsUnresolved(rows, table);
      assert s in NextUnprocessedAsWritten(rows, table);
    }
  }

  /** The working set of the as-written loop after n passes, each pass
      running the zonal primitive on the EDGE keys left. */
  function AsWrittenWorkingSet(rows: seq<Segment>, zonal: set<int> -> map<int, real>, n: nat): seq<Segment>
    decreases n
  {
    if n == 0 then rows
    else
      var before := AsWrittenWorkingSet(rows, zonal, n - 1);
      NextUnprocessedAsWritten(before, zonal(Ids(before)))
  }

  /** The as-written loop never ends: from a non-empty buffered layer,
      every pass leaves num_of_rows above 0, whatever the zonal tables. */
  lemma {:induction false} AsWrittenLoopNeverEnds(rows: seq<Segment>, zonal: set<int> -> map<int, real>, n: nat)
    requires rows != []
    ensures |AsWrittenWorkingSet(rows, zonal, n)| > 0
    decreases n
  {
    if n > 0 {
      var before := AsWrittenWorkingSet(rows, zonal, n - 1);
      AsWrittenLoopNeverEnds(rows, zonal, n - 1);
      AsWrittenPassNeverEmpties(before, zonal(Ids(before)));
    }
  }

  /** The bookkeeping of the loop: the pass tables are numbered 1 to i - 1,
      and every key of `original` is either in the working set or in the
      table of exactly one pass, the pass `passOf` names. */
  ghost predicate Partitioned(original: set<int>, rows: seq<Segment>, tables: map<nat, map<int, real>>,
                              i: nat, passOf: map<int, nat>)
  {
    && Numbered(tables, i)
    && Covers(original, rows, passOf)
    && Consistent(tables, passOf)
  }

  /** The tables are those of passes 1 to i - 1. */
  ghost predicate Numbered(tables: map<nat, map<int, real>>, i: nat)
  {
    1 <= i && forall k :: k in tables <==> 1 <= k < i
  }

  /** Resolved and unprocessed keys split `original`. */
  ghost predicate Covers(original: set<int>, rows: seq<Segment>, passOf: map<int, nat>)
  {
    passOf.Keys !! Ids(rows) && passOf.Keys + Ids(rows) == original
  }

  /** A key is in a table exactly when `passOf` names that table's pass. */
  ghost predicate Consistent(tables: map<nat, map<int, real>>, passOf: map<int, nat>)
  {
    && (forall e :: e in passOf ==> passOf[e] in tables && e in tables[passOf[e]])
    && (forall k, e :: k in tables && e in tables[k] ==> e in passOf && passOf[e] == k)
  }

  /** A pass whose table only holds keys of the working set keeps the
      bookkeeping exact once table i is stored and its keys are marked as
      resolved by pass i. */
  lemma PassKeepsPartition(original: set<int>, rows: seq<Segment>, tables: map<nat, map<int, real>>,
                           i: nat, passOf: map<int, nat>, table: map<int, real>)
    requires Partitioned(original, rows, tables, i, passOf)
    requires table.Keys <= Ids(rows)
    ensures Partitioned(original, NextUnprocessed(rows, table), tables[i := table], i + 1,
                        passOf + map e | e in table :: i)
  {
    CoversNext(original, rows, passOf, i, table);
    ConsistentNext(tables, i, passOf, table);
  }

  lemma CoversNext(original: set<int>, rows: seq<Segment>, passOf: map<int, nat>, i: nat, table: map<int, real>)
    requires Covers(original, rows, passOf)
    requires table.Keys <= Ids(rows)
    ensures Covers(original, NextUnprocessed(rows, table), passOf + map e | e in table :: i)
  {
    NextUnprocessedIds(rows, table);
    assert (passOf + map e | e in table :: i).Keys == passOf.Keys + table.Keys;
  }

  lemma ConsistentNext(tables: map<nat, map<int, real>>, i: nat, passOf: map<int, nat>, table: map<int, real>)
    requires Numbered(tables, i) && Consistent(tables, passOf)
    requires passOf.Keys !! table.Keys
    ensures Consistent(tables[i := table], passOf + map e | e in table :: i)
  {
    var passOf' := passOf + map e | e in table :: i;
    var tables' := tables[i := table];
    forall k, e | k in tables' && e in tables'[k] ensures e in passOf' && passOf'[e] == k {
      if k == i {
        assert e in table;
      } else {
        assert k in tables && e in tables[k];
        assert e in passOf && e !in table;
      }
    }
  }

  /** Everything one pass establishes about the next working set. */
  lemma PassFacts(buffered: seq<Segment>, rows: seq<Segment>, tables: map<nat, map<int, real>>,
                  i: nat, passOf: map<int, nat>, table: map<int, real>)
    requires Partitioned(Ids(buffered), rows, tables, i, passOf)
    requires table.Keys <= Ids(rows)
    ensures var next := NextUnprocessed(rows, table);
            && Partitioned(Ids(buffered), next, tables[i := table], i + 1, passOf + map e | e in table :: i)
            && (forall s :: s in next ==> s in rows)
            && Ids(next) == Ids(rows) - table.Keys
            && (table != map[] ==> |next| < |rows|)
  {
    NextUnprocessedIsUnresolved(rows, table);
    NextUnprocessedIds(rows, table);
    NonEmptyPassShrinks(rows, table);
    PassKeepsPartition(Ids(buffered), rows, tables, i, passOf, table);
  }

  /** The history of passes `first` to `last - 1`: `passRows[k]` is
      lts3_unprocessed as pass k found it, table k is the zonal output on
      its keys, and pass k + 1 found the rows that table k left without a
      mean. */
  ghost predicate History(passRows: map<nat, seq<Segment>>, tables: map<nat, map<int, real>>,
                          first: nat, last: nat, zonal: set<int> -> map<int, real>)
  {
    && (forall k :: first <= k <= last ==> k in passRows)
    && (forall k :: first <= k < last ==> k in tables && tables[k] == zonal(Ids(passRows[k])))
    && (forall k, next :: first <= k < last && next == k + 1 ==>
          passRows[next] == NextUnprocessed(passRows[k], tables[k]))
  }

  /** One more pass, run on the rows pass `last` found, extends the
      history. */
  lemma HistoryExtends(passRows: map<nat, seq<Segment>>, tables: map<nat, map<int, real>>,
                       first: nat, last: nat, zonal: set<int> -> map<int, real>, next: seq<Segment>)
    requires first <= last && History(passRows, tables, first, last, zonal)
    requires next == NextUnprocessed(passRows[last], zonal(Ids(passRows[last])))
    ensures History(passRows[last + 1 := next], tables[last := zonal(Ids(passRows[last]))], first, last + 1, zonal)
  {
    var passRows' := passRows[last + 1 := next];
    var tables' := tables[last := zonal(Ids(passRows[last]))];
    assert forall k :: first <= k < last + 1 ==> k in tables' && tables'[k] == zonal(Ids(passRows'[k])) by {
      forall k | first <= k < last + 1 ensures k in tables' && tables'[k] == zonal(Ids(passRows'[k])) {
        assert passRows'[k] == passRows[k];
      }
    }
    assert forall k, k' :: first <= k < last + 1 && k' == k + 1 ==>
             passRows'[k'] == NextUnprocessed(passRows'[k], tables'[k]) by {
      forall k, k' | first <= k < last + 1 && k' == k + 1
        ensures passRows'[k'] == NextUnprocessed(passRows'[k], tables'[k])
      {
        if k < last {
          assert passRows'[k'] == passRows[k'] && passRows'[k] == passRows[k] && tables'[k] == tables[k];
        }
      }
    }
  }

  /** What the loop has done since it started at pass `first` with the
      tables `start` and the working set `startRows`: the earlier tables are
      untouched, every pass from `first` on resolved at least one zone, and
      the history of those passes holds, up to the working set `current`
      of pass `last`. */
  ghost predicate Progress(start: map<nat, map<int, real>>, startRows: seq<Segment>,
                           passRows: map<nat, seq<Segment>>, tables: map<nat, map<int, real>>,
                           first: nat, last: nat, zonal: set<int> -> map<int, real>, current: seq<Segment>)
  {
    && first <= last
    && (forall k :: k in start ==> k in tables && tables[k] == start[k])
    && (forall k :: first <= k < last ==> k in tables && tables[k] != map[])
    && History(passRows, tables, first, last, zonal)
    && passRows[first] == startRows
    && passRows[last] == current
  }

  /** A pass that resolves something, run on the rows pass `last` found,
      extends the progress. */
  lemma ProgressExtends(start: map<nat, map<int, real>>, startRows: seq<Segment>,
                        passRows: map<nat, seq<Segment>>, tables: map<nat, map<int, real>>,
                        first: nat, last: nat, zonal: set<int> -> map<int, real>,
                        current: seq<Segment>, next: seq<Segment>)
    requires Progress(start, startRows, passRows, tables, first, last, zonal, current)
    requires last !in tables
    requires zonal(Ids(current)) != map[]
    requires next == NextUnprocessed(current, zonal(Ids(current)))
    ensures Progress(start, startRows, passRows[last + 1 := next],
                     tables[last := zonal(Ids(current))], first, last + 1, zonal, next)
  {
    HistoryExtends(passRows, tables, first, last, zonal, next);
  }

  /** Keys of a part of a table are keys of the table. */
  lemma IdsOfPart(part: seq<Segment>, whole: seq<Segment>)
    requires forall s :: s in part ==> s in whole
    ensures Ids(part) <= Ids(whole)
  {
  }

  /** The state of compute_CII_scores_per_lts3_NOT: the working feature
      class, its row count, the pass counter and the pass tables. */
  class OverlapResolution {
    /** lts3_top30pct_buffered, the zones whose means are wanted. */
    const buffered: seq<Segment>
    /** lts3_unprocessed: the zones no pass has resolved yet. */
    var unprocessed: seq<Segment>
    /** num_of_rows: the row count of lts3_unprocessed. */
    var numOfRows: nat
    /** i: the number of the next pass table. */
    var i: nat
    /** lts3_with_CII_scores_table<k>, EDGE to MEAN, for each pass k run so far. */
    var tables: map<nat, map<int, real>>
    /** The number of the pass whose table holds each resolved EDGE. */
    ghost var passOf: map<int, nat>

    /** The tables are numbered 1 to i - 1, every key of the buffered layer
        is either still unprocessed or resolved by exactly one table, the
        row count is that of the working set, and the working set holds
        buffered segments, unchanged. */
    ghost predicate Valid()
      reads this
    {
      && numOfRows == |unprocessed|
      && (forall s :: s in unprocessed ==> s in buffered)
      && Partitioned(Ids(buffered), unprocessed, tables, i, passOf)
    }

    /** The set-up before the loop: lts3_unprocessed is a copy of the
        buffered layer, num_of_rows its count, and i is 1. */
    constructor (lts3Top30pctBuffered: seq<Segment>)
      ensures Valid()
      ensures buffered == lts3Top30pctBuffered && unprocessed == lts3Top30pctBuffered
      ensures numOfRows == |lts3Top30pctBuffered| && i == 1
      ensures tables == map[] && passOf == map[]
    {
      buffered := lts3Top30pctBuffered;
      unprocessed := lts3Top30pctBuffered;
      numOfRows := |lts3Top30pctBuffered|;
      i := 1;
      tables := map[];
      passOf := map[];
    }

    /** One pass of the loop body: zonal statistics on the working set into
        table i, the KEEP_ALL join, the carry-forward of the rows without a
        mean, the recount and the increment of i. */
    method Pass(zonal: set<int> -> map<int, real>)
      requires Valid()
      requires forall ids :: zonal(ids).Keys <= ids
      modifies this
      ensures Valid()
      ensures i == old(i) + 1
      ensures tables == old(tables)[old(i) := zonal(Ids(old(unprocessed)))]
      ensures unprocessed == NextUnprocessed(old(unprocessed), tables[old(i)])
      ensures Ids(unprocessed) == Ids(old(unprocessed)) - tables[old(i)].Keys
      ensures forall s :: s in unprocessed ==> s in old(unprocessed)
      ensures passOf == old(passOf) + map e | e in tables[old(i)] :: old(i)
      ensures tables[old(i)] != map[] ==> numOfRows < old(numOfRows)
    {
      var rows := unprocessed;
      var table := zonal(Ids(rows));
      ghost var resolvedBy := passOf + map e | e in table :: i;
      PassFacts(buffered, rows, tables, i, passOf, table);
      var temp := KeepAllJoin(rows, table);
      var next := CarryForward(temp);
      tables := tables[i := table];
      unprocessed := next;
      passOf := resolvedBy;
      numOfRows := |next|;
      i := i + 1;
    }

    /** The while loop: passes run until lts3_unprocessed is empty.  The
        script has no cap on the number of passes, so this requires of the
        zonal primitive that it resolves at least one zone of every
        non-empty working set.  The ghost `passRows` records the working set
        each pass ran on: pass old(i) ran on the incoming lts3_unprocessed,
        table k holds the zonal output on pass k's working set, and pass
        k + 1 ran on the rows table k left without a mean. */
    method ResolveOverlaps(zonal: set<int> -> map<int, real>) returns (ghost passRows: map<nat, seq<Segment>>)
      requires Valid()
      requires forall ids :: zonal(ids).Keys <= ids
      requires forall ids :: ids != {} && ids <= Ids(buffered) ==> zonal(ids) != map[]
      modifies this
      ensures Valid()
      ensures unprocessed == [] && numOfRows == 0
      ensures passOf.Keys == Ids(buffered)
      ensures old(i) <= i
      ensures forall k :: k in old(tables) ==> tables[k] == old(tables)[k]
      ensures forall k :: old(i) <= k < i ==> tables[k] != map[]
      ensures History(passRows, tables, old(i), i, zonal)
      ensures passRows[old(i)] == old(unprocessed) && passRows[i] == []
    {
      passRows := map[i := unprocessed];
      while numOfRows > 0
        invariant Valid()
        invariant Progress(old(tables), old(unprocessed), passRows, tables, old(i), i, zonal, unprocessed)
        decreases numOfRows
      {
        var rows := unprocessed;
        assert rows[0].edge in Ids(rows);
        IdsOfPart(rows, buffered);
        ghost var before, pass := tables, i;
        Pass(zonal);
        ProgressExtends(old(tables), old(unprocessed), passRows, before, old(i), pass, zonal, rows, unprocessed);
        passRows := passRows[pass + 1 := unprocessed];
      }
      assert Ids(unprocessed) == {};
    }
  }
}
