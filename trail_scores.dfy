/**
 * trails.py, the final trail scores: get_max reads the maximum of a field
 * over trails_intersecting with a search cursor, and compute_trail_scores
 * fills Total_connectivity_score on trails_intersecting_gte_2 with
 *   (((Length_of_All_Islands / Lmax + Num_of_Islands / Nmax
 *      + Trail_CII_Score / Cmax) / 3) * 100),
 * a PYTHON_9.3 field calculation in which each maximum is spliced in as a
 * literal (an int stays an int literal, a float a float literal).
 */
module TrailScores {
  import opened Tables
  import opened Values
  import opened TrailJoin

  /** The three fields a score reads. */
  datatype ScoreField = LengthOfAllIslands | NumOfIslands | TrailCiiScore

  function FieldValue(row: TrailRow, field: ScoreField): Value
  {
    match field
      case LengthOfAllIslands => row.lengthOfAllIslands
      case NumOfIslands => row.numOfIslands
      case TrailCiiScore => row.trailCiiScore
  }

  /** The values of one field, in the order a search cursor returns them. */
  function Column(rows: seq<TrailRow>, field: ScoreField): (column: seq<Value>)
    ensures |column| == |rows|
    ensures forall k :: 0 <= k < |rows| ==> column[k] == FieldValue(rows[k], field)
  {
    seq(|rows|, k requires 0 <= k < |rows| => FieldValue(rows[k], field))
  }

  /** get_max as written: the first pass of `for row in cursor` takes the
      first row, and `max(cursor)` inside it consumes and compares only the
      rows after it.  With no row, `max_value` stays 0 and `0[0]` raises
      TypeError; with one row, `max()` of nothing raises ValueError. */
  function GetMaxAsWritten(column: seq<Value>): (r: Result<Value>)
    ensures r.Success? <==> |column| >= 2
    ensures |column| == 0 ==> r == Failure(TypeError)
    ensures |column| == 1 ==> r == Failure(ValueError)
    ensures r.Success? ==> r.value in column[1..] && forall k :: 1 <= k < |column| ==> !Less(r.value, column[k])
  {
    if |column| == 0 then Failure(TypeError)
    else if |column| == 1 then Failure(ValueError)
    else Success(MaxOf(column[1..]))
  }

  /** What `max_value` holds: the initial 0, or the row tuple `max` returned. */
  datatype Held = Zero | Row(value: Value)

  /** get_max(feat_class, attribute) with the cursor over `column`. */
  method GetMax(column: seq<Value>) returns (maxValue: Result<Value>)
    ensures maxValue == GetMaxAsWritten(column)
  {
    var held := Zero;
    var next := 0;
    while next < |column|
      invariant (next == 0 && held == Zero) || (next == |column| >= 2 && held == Row(MaxOf(column[1..])))
      decreases |column| - next
    {
      // `for row in cursor` fetches one row ...
      next := next + 1;
      if next == |column| {
        return Failure(ValueError);
      }
      // ... and `max(cursor)` consumes all the others.
      var m := column[next];
      var k := next + 1;
      assert column[next..k] == [m];
      while k < |column|
        invariant next < k <= |column|
        invariant m == MaxOf(column[next..k])
      {
        assert column[next..k + 1][..k - next] == column[next..k];
        if Less(m, column[k]) {
          m := column[k];
        }
        k := k + 1;
      }
      assert column[next..k] == column[1..];
      held := Row(m);
      next := |column|;
    }
    match held
    case Zero => maxValue := Failure(TypeError);
    case Row(v) => maxValue := Success(v);
  }

  /** The evidently intended maximum over every row; `max()` of no rows
      raises ValueError. */
  function ColumnMax(column: seq<Value>): (r: Result<Value>)
    ensures r.Success? <==> |column| >= 1
    ensures r.Failure? ==> r.error == ValueError
    ensures r.Success? ==> r.value in column && forall k :: 0 <= k < |column| ==> !Less(r.value, column[k])
  {
    if |column| == 0 then Failure(ValueError) else Success(MaxOf(column))
  }

  /** Where the first row holds the maximum, get_max as written misses it. */
  lemma GetMaxSkipsFirstRow()
    ensures GetMaxAsWritten([Float(5000.0), Float(2000.0)]) == Success(Float(2000.0))
    ensures ColumnMax([Float(5000.0), Float(2000.0)]) == Success(Float(5000.0))
  {
    assert [Float(5000.0), Float(2000.0)][1..] == [Float(2000.0)];
  }

  /** How `/` divides: Python 2's, or true division. */
  datatype Division = Python2Division | TrueDivision

  function Divide(division: Division, a: Value, b: Value): Result<Value>
  {
    match division
      case Python2Division => PyDiv(a, b)
      case TrueDivision => TrueDiv(a, b)
  }

  /** The score expression on one row, evaluated left to right; the first
      null operand or zero divisor aborts it. */
  function ScoreExpression(row: TrailRow, lmax: Value, nmax: Value, cmax: Value, division: Division): Result<Value>
  {
    var l :- Divide(division, row.lengthOfAllIslands, lmax);
    var n :- Divide(division, row.numOfIslands, nmax);
    var ln :- PyAdd(l, n);
    var c :- Divide(division, row.trailCiiScore, cmax);
    var lnc :- PyAdd(ln, c);
    var third :- Divide(division, lnc, Int(3));
    PyMul(third, Int(100))
  }

  /** The expression as the scripts evaluate it, under Python 2. */
  function ScoreAsWritten(row: TrailRow, lmax: Value, nmax: Value, cmax: Value): Result<Value>
  {
    ScoreExpression(row, lmax, nmax, cmax, Python2Division)
  }

  /** The expression with true division throughout. */
  function Score(row: TrailRow, lmax: Value, nmax: Value, cmax: Value): Result<Value>
  {
    ScoreExpression(row, lmax, nmax, cmax, TrueDivision)
  }

  /** The three fields and the three maxima present, the maxima non-zero. */
  predicate Computable(row: TrailRow, lmax: Value, nmax: Value, cmax: Value)
  {
    && !row.lengthOfAllIslands.Null? && !row.numOfIslands.Null? && !row.trailCiiScore.Null?
    && !lmax.Null? && !nmax.Null? && !cmax.Null?
    && AsReal(lmax) != 0.0 && AsReal(nmax) != 0.0 && AsReal(cmax) != 0.0
  }

  /** The mean of the three ratios, as a percentage. */
  function Percentage(row: TrailRow, lmax: Value, nmax: Value, cmax: Value): real
    requires Computable(row, lmax, nmax, cmax)
  {
    (AsReal(row.lengthOfAllIslands) / AsReal(lmax) + AsReal(row.numOfIslands) / AsReal(nmax)
     + AsReal(row.trailCiiScore) / AsReal(cmax)) / 3.0 * 100.0
  }

  /** Either division evaluates the expression exactly when nothing is null
      and no maximum is zero; with the maxima present and non-zero, a null
      field raises TypeError. */
  lemma ScoreSucceedsExactly(row: TrailRow, lmax: Value, nmax: Value, cmax: Value, division: Division)
    ensures ScoreExpression(row, lmax, nmax, cmax, division).Success? <==> Computable(row, lmax, nmax, cmax)
    ensures && !lmax.Null? && !nmax.Null? && !cmax.Null?
            && AsReal(lmax) != 0.0 && AsReal(nmax) != 0.0 && AsReal(cmax) != 0.0
            && (row.lengthOfAllIslands.Null? || row.numOfIslands.Null? || row.trailCiiScore.Null?) ==>
              ScoreExpression(row, lmax, nmax, cmax, division) == Failure(TypeError)
  {
  }

  /** With true division the score is the mean of the three ratios times 100,
      as a float. */
  lemma ScoreValue(row: TrailRow, lmax: Value, nmax: Value, cmax: Value)
    requires Computable(row, lmax, nmax, cmax)
    ensures Score(row, lmax, nmax, cmax) == Success(Float(Percentage(row, lmax, nmax, cmax)))
  {
  }

  /** A row whose three fields are the maxima scores exactly 100. */
  lemma ScoreAtMaxima(row: TrailRow, lmax: Value, nmax: Value, cmax: Value)
    requires Computable(row, lmax, nmax, cmax)
    requires AsReal(row.lengthOfAllIslands) == AsReal(lmax)
    requires AsReal(row.numOfIslands) == AsReal(nmax)
    requires AsReal(row.trailCiiScore) == AsReal(cmax)
    ensures Score(row, lmax, nmax, cmax) == Success(Float(100.0))
  {
    ScoreValue(row, lmax, nmax, cmax);
    UnitRatio(AsReal(row.lengthOfAllIslands), AsReal(lmax));
    UnitRatio(AsReal(row.numOfIslands), AsReal(nmax));
    UnitRatio(AsReal(row.trailCiiScore), AsReal(cmax));
  }

  lemma UnitRatio(x: real, m: real)
    requires x == m && m != 0.0
    ensures x / m == 1.0
  {
  }

  /** Fields between 0 and positive maxima score between 0 and 100. */
  lemma ScoreInRange(row: TrailRow, lmax: Value, nmax: Value, cmax: Value)
    requires Computable(row, lmax, nmax, cmax)
    requires 0.0 <= AsReal(row.lengthOfAllIslands) <= AsReal(lmax)
    requires 0.0 <= AsReal(row.numOfIslands) <= AsReal(nmax)
    requires 0.0 <= AsReal(row.trailCiiScore) <= AsReal(cmax)
    ensures 0.0 <= Percentage(row, lmax, nmax, cmax) <= 100.0
  {
    RatioInUnit(AsReal(row.lengthOfAllIslands), AsReal(lmax));
    RatioInUnit(AsReal(row.numOfIslands), AsReal(nmax));
    RatioInUnit(AsReal(row.trailCiiScore), AsReal(cmax));
  }

  lemma RatioInUnit(x: real, m: real)
    requires 0.0 <= x <= m && m != 0.0
    ensures 0.0 <= x / m <= 1.0
  {
    assert x / m * m == x;
  }

  /** A quotient never grows when its dividend shrinks, and floor division
      is never above true division. */
  lemma DivideAtMost(a: Value, b: Value, d: Value)
    requires !a.Null? && !b.Null? && !d.Null? && AsReal(a) <= AsReal(b) && AsReal(d) > 0.0
    ensures PyDiv(a, d).Success? && TrueDiv(b, d).Success?
    ensures AsReal(PyDiv(a, d).value) <= AsReal(TrueDiv(b, d).value)
  {
    QuotientMonotone(AsReal(a), AsReal(b), AsReal(d));
  }

  lemma QuotientMonotone(x: real, y: real, z: real)
    requires x <= y && z > 0.0
    ensures x / z <= y / z
  {
    assert (y - x) / z >= 0.0;
    assert y / z - x / z == (y - x) / z;
  }

  /** With positive maxima, the truncating divisions can only lower a
      score. */
  lemma AsWrittenAtMostScore(row: TrailRow, lmax: Value, nmax: Value, cmax: Value)
    requires Computable(row, lmax, nmax, cmax)
    requires AsReal(lmax) > 0.0 && AsReal(nmax) > 0.0 && AsReal(cmax) > 0.0
    ensures ScoreAsWritten(row, lmax, nmax, cmax).Success? && Score(row, lmax, nmax, cmax).Success?
    ensures AsReal(ScoreAsWritten(row, lmax, nmax, cmax).value) <= AsReal(Score(row, lmax, nmax, cmax).value)
  {
    ScoreSucceedsExactly(row, lmax, nmax, cmax, Python2Division);
    ScoreSucceedsExactly(row, lmax, nmax, cmax, TrueDivision);
    DivideAtMost(row.lengthOfAllIslands, row.lengthOfAllIslands, lmax);
    DivideAtMost(row.numOfIslands, row.numOfIslands, nmax);
    DivideAtMost(row.trailCiiScore, row.trailCiiScore, cmax);
    var l := PyDiv(row.lengthOfAllIslands, lmax).value;
    var n := PyDiv(row.numOfIslands, nmax).value;
    var c := PyDiv(row.trailCiiScore, cmax).value;
    var lnc := PyAdd(PyAdd(l, n).value, c).value;
    var l' := TrueDiv(row.lengthOfAllIslands, lmax).value;
    var n' := TrueDiv(row.numOfIslands, nmax).value;
    var c' := TrueDiv(row.trailCiiScore, cmax).value;
    var lnc' := PyAdd(PyAdd(l', n').value, c').value;
    DivideAtMost(lnc, lnc', Int(3));
  }

  /** One Num_of_Islands below an integer maximum: the integer division
      drops the middle ratio to 0, 66.67 where 83.33 is meant. */
  lemma IntegerDivisionDropsRatio(t: Trail)
    ensures var row := TrailRow(t, Float(2000.0), Int(1), Float(50.0), Null);
            && ScoreAsWritten(row, Float(2000.0), Int(2), Float(50.0)) == Success(Float(200.0 / 3.0))
            && Score(row, Float(2000.0), Int(2), Float(50.0)) == Success(Float(250.0 / 3.0))
  {
    var row := TrailRow(t, Float(2000.0), Int(1), Float(50.0), Null);
    assert FloorDiv(1, 2) == 0;
    ScoreValue(row, Float(2000.0), Int(2), Float(50.0));
  }

  /** The three maxima compute_trail_scores reads from trails_intersecting. */
  datatype Maxima = Maxima(lmax: Value, nmax: Value, cmax: Value)

  /** The three get_max calls as written: each needs two rows, reads the
      rows after the first, and the first failure is the one raised. */
  function MaximaAsWritten(trailsIntersecting: seq<TrailRow>): (r: Result<Maxima>)
    ensures r.Success? <==> |trailsIntersecting| >= 2
    ensures |trailsIntersecting| == 0 ==> r == Failure(TypeError)
    ensures |trailsIntersecting| == 1 ==> r == Failure(ValueError)
    ensures r.Success? ==>
              && r.value.lmax == GetMaxAsWritten(Column(trailsIntersecting, LengthOfAllIslands)).value
              && r.value.nmax == GetMaxAsWritten(Column(trailsIntersecting, NumOfIslands)).value
              && r.value.cmax == GetMaxAsWritten(Column(trailsIntersecting, TrailCiiScore)).value
  {
    // The three columns have the same length, so the first get_max
    // decides whether the other two succeed.
    var lmax := GetMaxAsWritten(Column(trailsIntersecting, LengthOfAllIslands));
    if lmax.Failure? then Failure(lmax.error)
    else Success(Maxima(lmax.value, GetMaxAsWritten(Column(trailsIntersecting, NumOfIslands)).value,
                        GetMaxAsWritten(Column(trailsIntersecting, TrailCiiScore)).value))
  }

  /** The intended maxima, over every row: one row is enough, and no row
      holds a larger value of the field than its maximum. */
  function ColumnMaxima(trailsIntersecting: seq<TrailRow>): (r: Result<Maxima>)
    ensures r.Success? <==> |trailsIntersecting| >= 1
    ensures r.Failure? ==> r.error == ValueError
    ensures r.Success? ==>
              && r.value.lmax == ColumnMax(Column(trailsIntersecting, LengthOfAllIslands)).value
              && r.value.nmax == ColumnMax(Column(trailsIntersecting, NumOfIslands)).value
              && r.value.cmax == ColumnMax(Column(trailsIntersecting, TrailCiiScore)).value
    ensures r.Success? ==> forall k :: 0 <= k < |trailsIntersecting| ==>
              && !Less(r.value.lmax, trailsIntersecting[k].lengthOfAllIslands)
              && !Less(r.value.nmax, trailsIntersecting[k].numOfIslands)
              && !Less(r.value.cmax, trailsIntersecting[k].trailCiiScore)
  {
    if |trailsIntersecting| == 0 then Failure(ValueError)
    else
      var r := Maxima(ColumnMax(Column(trailsIntersecting, LengthOfAllIslands)).value,
                      ColumnMax(Column(trailsIntersecting, NumOfIslands)).value,
                      ColumnMax(Column(trailsIntersecting, TrailCiiScore)).value);
      assert forall k :: 0 <= k < |trailsIntersecting| ==>
               && Column(trailsIntersecting, LengthOfAllIslands)[k] == trailsIntersecting[k].lengthOfAllIslands
               && Column(trailsIntersecting, NumOfIslands)[k] == trailsIntersecting[k].numOfIslands
               && Column(trailsIntersecting, TrailCiiScore)[k] == trailsIntersecting[k].trailCiiScore;
      Success(r)
  }

  /** The CalculateField over every row of trails_intersecting_gte_2: the
      tool fails with the first row whose expression raises; otherwise each
      row gets its score. */
  function ScoreRows(rows: seq<TrailRow>, maxima: Maxima, division: Division): (r: Result<seq<TrailRow>>)
    ensures r.Success? <==> forall k :: 0 <= k < |rows| ==>
              ScoreExpression(rows[k], maxima.lmax, maxima.nmax, maxima.cmax, division).Success?
    ensures r.Success? ==> |r.value| == |rows| && forall k :: 0 <= k < |rows| ==>
              r.value[k] == rows[k].(totalConnectivityScore :=
                ScoreExpression(rows[k], maxima.lmax, maxima.nmax, maxima.cmax, division).value)
  {
    if rows == [] then Success([])
    else
      var score :- ScoreExpression(rows[0], maxima.lmax, maxima.nmax, maxima.cmax, division);
      var rest :- ScoreRows(rows[1..], maxima, division);
      assert forall k :: 1 <= k < |rows| ==> rows[k] == rows[1..][k - 1];
      Success([rows[0].(totalConnectivityScore := score)] + rest)
  }

  /** compute_trail_scores as written: the maxima from get_max, then the
      field calculation under Python 2 division.  A failing get_max stops it;
      otherwise it succeeds exactly when every filtered row evaluates, and
      each row gets its own score and nothing else. */
  function ComputeTrailScoresAsWritten(trailsIntersecting: seq<TrailRow>, gte2: seq<TrailRow>): (r: Result<seq<TrailRow>>)
    ensures MaximaAsWritten(trailsIntersecting).Failure? ==> r == Failure(MaximaAsWritten(trailsIntersecting).error)
    ensures MaximaAsWritten(trailsIntersecting).Success? ==>
              var m := MaximaAsWritten(trailsIntersecting).value;
              && (r.Success? <==> forall k :: 0 <= k < |gte2| ==> ScoreAsWritten(gte2[k], m.lmax, m.nmax, m.cmax).Success?)
              && (r.Success? ==> |r.value| == |gte2| && forall k :: 0 <= k < |gte2| ==>
                    r.value[k] == gte2[k].(totalConnectivityScore := ScoreAsWritten(gte2[k], m.lmax, m.nmax, m.cmax).value))
  {
    var maxima :- MaximaAsWritten(trailsIntersecting);
    ScoreRows(gte2, maxima, Python2Division)
  }

  /** compute_trail_scores as intended: the maxima over every row, then the
      field calculation under true division, with the same outcomes. */
  function ComputeTrailScores(trailsIntersecting: seq<TrailRow>, gte2: seq<TrailRow>): (r: Result<seq<TrailRow>>)
    ensures trailsIntersecting == [] ==> r == Failure(ValueError)
    ensures trailsIntersecting != [] ==>
              var m := ColumnMaxima(trailsIntersecting).value;
              && (r.Success? <==> forall k :: 0 <= k < |gte2| ==> Score(gte2[k], m.lmax, m.nmax, m.cmax).Success?)
              && (r.Success? ==> |r.value| == |gte2| && forall k :: 0 <= k < |gte2| ==>
                    r.value[k] == gte2[k].(totalConnectivityScore := Score(gte2[k], m.lmax, m.nmax, m.cmax).value))
  {
    var maxima :- ColumnMaxima(trailsIntersecting);
    ScoreRows(gte2, maxima, TrueDivision)
  }

  /** A trail with islands, as the join and the filter leave it: some
      length, at least one island and a positive CII score. */
  predicate Scorable(row: TrailRow)
  {
    && !row.lengthOfAllIslands.Null? && AsReal(row.lengthOfAllIslands) > 0.0
    && !row.numOfIslands.Null? && AsReal(row.numOfIslands) > 0.0
    && !row.trailCiiScore.Null? && AsReal(row.trailCiiScore) > 0.0
  }

  /** A positive value in a column lies below its (positive) maximum. */
  lemma BelowColumnMax(column: seq<Value>, k: nat)
    requires k < |column| && !column[k].Null? && AsReal(column[k]) > 0.0
    ensures ColumnMax(column).Success?
    ensures var m := ColumnMax(column).value; !m.Null? && AsReal(column[k]) <= AsReal(m) && AsReal(m) > 0.0
  {
    assert !Less(ColumnMax(column).value, column[k]);
  }

  /** When the filtered trails come from trails_intersecting and have
      islands, every one of them scores between 0 and 100, and nothing else
      about it changes. */
  lemma ComputeTrailScoresInRange(trailsIntersecting: seq<TrailRow>, gte2: seq<TrailRow>)
    requires gte2 != []
    requires forall row :: row in gte2 ==> row in trailsIntersecting && Scorable(row)
    ensures ComputeTrailScores(trailsIntersecting, gte2).Success?
    ensures var scored := ComputeTrailScores(trailsIntersecting, gte2).value;
            |scored| == |gte2| &&
            forall k :: 0 <= k < |gte2| ==>
              && scored[k].(totalConnectivityScore := Null) == gte2[k].(totalConnectivityScore := Null)
              && scored[k].totalConnectivityScore.Float?
              && 0.0 <= scored[k].totalConnectivityScore.f <= 100.0
  {
    assert gte2[0] in trailsIntersecting;
    var maxima := ColumnMaxima(trailsIntersecting);
    assert maxima.Success?;
    var m := maxima.value;
    forall k | 0 <= k < |gte2|
      ensures Computable(gte2[k], m.lmax, m.nmax, m.cmax)
      ensures Score(gte2[k], m.lmax, m.nmax, m.cmax) == Success(Float(Percentage(gte2[k], m.lmax, m.nmax, m.cmax)))
      ensures 0.0 <= Percentage(gte2[k], m.lmax, m.nmax, m.cmax) <= 100.0
    {
      var row := gte2[k];
      assert row in gte2;
      var j :| 0 <= j < |trailsIntersecting| && trailsIntersecting[j] == row;
      BelowColumnMax(Column(trailsIntersecting, LengthOfAllIslands), j);
      BelowColumnMax(Column(trailsIntersecting, NumOfIslands), j);
      BelowColumnMax(Column(trailsIntersecting, TrailCiiScore), j);
      ScoreValue(row, m.lmax, m.nmax, m.cmax);
      ScoreInRange(row, m.lmax, m.nmax, m.cmax);
    }
  }

  /** In each of the three columns, the first row is not above the largest
      of the others, so that skipping it loses no maximum. */
  predicate FirstRowNotAbove(rows: seq<TrailRow>)
  {
    && |rows| >= 2
    && !Less(MaxOf(Column(rows, LengthOfAllIslands)[1..]), rows[0].lengthOfAllIslands)
    && !Less(MaxOf(Column(rows, NumOfIslands)[1..]), rows[0].numOfIslands)
    && !Less(MaxOf(Column(rows, TrailCiiScore)[1..]), rows[0].trailCiiScore)
  }

  /** Then get_max as written still bounds every positive value of the
      column, and is positive. */
  lemma BelowAsWrittenMax(column: seq<Value>, k: nat)
    requires |column| >= 2 && !Less(MaxOf(column[1..]), column[0])
    requires k < |column| && !column[k].Null? && AsReal(column[k]) > 0.0
    ensures GetMaxAsWritten(column).Success?
    ensures var m := GetMaxAsWritten(column).value; !m.Null? && AsReal(column[k]) <= AsReal(m) && AsReal(m) > 0.0
  {
    if k > 0 {
      assert column[k] == column[1..][k - 1];
    }
  }

  /** Python 2's `/` of a number that is not negative by a positive one is
      not negative. */
  lemma PyDivNotNegative(a: Value, d: Value)
    requires !a.Null? && !d.Null? && AsReal(a) >= 0.0 && AsReal(d) > 0.0
    ensures PyDiv(a, d).Success? && !PyDiv(a, d).value.Null? && AsReal(PyDiv(a, d).value) >= 0.0
  {
    assert AsReal(a) / AsReal(d) >= 0.0;
  }

  /** Fields that are not negative and positive maxima give a score as
      written that is not negative. */
  lemma AsWrittenNotNegative(row: TrailRow, lmax: Value, nmax: Value, cmax: Value)
    requires Computable(row, lmax, nmax, cmax)
    requires AsReal(lmax) > 0.0 && AsReal(nmax) > 0.0 && AsReal(cmax) > 0.0
    requires AsReal(row.lengthOfAllIslands) >= 0.0 && AsReal(row.numOfIslands) >= 0.0
    requires AsReal(row.trailCiiScore) >= 0.0
    ensures ScoreAsWritten(row, lmax, nmax, cmax).Success?
    ensures !ScoreAsWritten(row, lmax, nmax, cmax).value.Null? && AsReal(ScoreAsWritten(row, lmax, nmax, cmax).value) >= 0.0
  {
    PyDivNotNegative(row.lengthOfAllIslands, lmax);
    PyDivNotNegative(row.numOfIslands, nmax);
    PyDivNotNegative(row.trailCiiScore, cmax);
    var l := PyDiv(row.lengthOfAllIslands, lmax).value;
    var n := PyDiv(row.numOfIslands, nmax).value;
    var c := PyDiv(row.trailCiiScore, cmax).value;
    var lnc := PyAdd(PyAdd(l, n).value, c).value;
    PyDivNotNegative(lnc, Int(3));
  }

  /** compute_trail_scores as written stays between 0 and 100 when no
      column has its maximum only in the first row of trails_intersecting:
      then get_max finds the true maxima, and the truncating divisions can
      only lower a score. */
  lemma AsWrittenScoresInRange(trailsIntersecting: seq<TrailRow>, gte2: seq<TrailRow>)
    requires FirstRowNotAbove(trailsIntersecting)
    requires forall row :: row in gte2 ==> row in trailsIntersecting && Scorable(row)
    ensures ComputeTrailScoresAsWritten(trailsIntersecting, gte2).Success?
    ensures var scored := ComputeTrailScoresAsWritten(trailsIntersecting, gte2).value;
            |scored| == |gte2| &&
            forall k :: 0 <= k < |gte2| ==>
              && scored[k].(totalConnectivityScore := Null) == gte2[k].(totalConnectivityScore := Null)
              && !scored[k].totalConnectivityScore.Null?
              && 0.0 <= AsReal(scored[k].totalConnectivityScore) <= 100.0
  {
    var m := MaximaAsWritten(trailsIntersecting).value;
    var lengths := Column(trailsIntersecting, LengthOfAllIslands);
    var counts := Column(trailsIntersecting, NumOfIslands);
    var ciis := Column(trailsIntersecting, TrailCiiScore);
    forall k | 0 <= k < |gte2|
      ensures ScoreAsWritten(gte2[k], m.lmax, m.nmax, m.cmax).Success?
      ensures var score := ScoreAsWritten(gte2[k], m.lmax, m.nmax, m.cmax).value;
              !score.Null? && 0.0 <= AsReal(score) <= 100.0
    {
      var row := gte2[k];
      assert row in gte2;
      var j :| 0 <= j < |trailsIntersecting| && trailsIntersecting[j] == row;
      BelowAsWrittenMax(lengths, j);
      BelowAsWrittenMax(counts, j);
      BelowAsWrittenMax(ciis, j);
      AsWrittenAtMostScore(row, m.lmax, m.nmax, m.cmax);
      AsWrittenNotNegative(row, m.lmax, m.nmax, m.cmax);
      ScoreValue(row, m.lmax, m.nmax, m.cmax);
      ScoreInRange(row, m.lmax, m.nmax, m.cmax);
    }
  }

  /** With get_max as written, the first trail, holding every maximum, is
      measured against the second's and scores 200. */
  lemma AsWrittenScoresAbove100(t1: Trail, t2: Trail)
    ensures var first := TrailRow(t1, Float(4000.0), Int(2), Float(60.0), Null);
            var second := TrailRow(t2, Float(2000.0), Int(1), Float(30.0), Null);
            && ComputeTrailScoresAsWritten([first, second], [first, second])
                 == Success([first.(totalConnectivityScore := Float(200.0)), second.(totalConnectivityScore := Float(100.0))])
            && ComputeTrailScores([first, second], [first, second])
                 == Success([first.(totalConnectivityScore := Float(100.0)), second.(totalConnectivityScore := Float(50.0))])
  {
    AsWrittenExampleScores(t1, t2);
    CorrectedExampleScores(t1, t2);
  }

  lemma AsWrittenExampleScores(t1: Trail, t2: Trail)
    ensures var first := TrailRow(t1, Float(4000.0), Int(2), Float(60.0), Null);
            var second := TrailRow(t2, Float(2000.0), Int(1), Float(30.0), Null);
            ComputeTrailScoresAsWritten([first, second], [first, second])
              == Success([first.(totalConnectivityScore := Float(200.0)), second.(totalConnectivityScore := Float(100.0))])
  {
    var first := TrailRow(t1, Float(4000.0), Int(2), Float(60.0), Null);
    var second := TrailRow(t2, Float(2000.0), Int(1), Float(30.0), Null);
    var rows := [first, second];
    assert Column(rows, LengthOfAllIslands)[1..] == [Float(2000.0)];
    assert Column(rows, NumOfIslands)[1..] == [Int(1)];
    assert Column(rows, TrailCiiScore)[1..] == [Float(30.0)];
    assert MaximaAsWritten(rows) == Success(Maxima(Float(2000.0), Int(1), Float(30.0)));
    assert FloorDiv(2, 1) == 2 && FloorDiv(1, 1) == 1;
    assert ScoreAsWritten(first, Float(2000.0), Int(1), Float(30.0)) == Success(Float(200.0)) by {
      assert PyDiv(Float(6.0), Int(3)) == Success(Float(2.0));
    }
    assert ScoreAsWritten(second, Float(2000.0), Int(1), Float(30.0)) == Success(Float(100.0)) by {
      assert PyDiv(Float(3.0), Int(3)) == Success(Float(1.0));
    }
    var asWritten := ScoreRows(rows, Maxima(Float(2000.0), Int(1), Float(30.0)), Python2Division);
    assert asWritten.Success? && asWritten.value
             == [first.(totalConnectivityScore := Float(200.0)), second.(totalConnectivityScore := Float(100.0))];
  }

  lemma CorrectedExampleScores(t1: Trail, t2: Trail)
    ensures var first := TrailRow(t1, Float(4000.0), Int(2), Float(60.0), Null);
            var second := TrailRow(t2, Float(2000.0), Int(1), Float(30.0), Null);
            ComputeTrailScores([first, second], [first, second])
              == Success([first.(totalConnectivityScore := Float(100.0)), second.(totalConnectivityScore := Float(50.0))])
  {
    var first := TrailRow(t1, Float(4000.0), Int(2), Float(60.0), Null);
    var second := TrailRow(t2, Float(2000.0), Int(1), Float(30.0), Null);
    var rows := [first, second];
    assert Column(rows, LengthOfAllIslands) == [Float(4000.0), Float(2000.0)];
    assert Column(rows, NumOfIslands) == [Int(2), Int(1)];
    assert Column(rows, TrailCiiScore) == [Float(60.0), Float(30.0)];
    assert ColumnMaxima(rows) == Success(Maxima(Float(4000.0), Int(2), Float(60.0)));
    ScoreAtMaxima(first, Float(4000.0), Int(2), Float(60.0));
    assert Score(second, Float(4000.0), Int(2), Float(60.0)) == Success(Float(50.0)) by {
      ScoreValue(second, Float(4000.0), Int(2), Float(60.0));
      assert 2000.0 / 4000.0 == 0.5 && 1.0 / 2.0 == 0.5 && 30.0 / 60.0 == 0.5;
    }
    var intended := ScoreRows(rows, Maxima(Float(4000.0), Int(2), Float(60.0)), TrueDivision);
    assert intended.Success? && intended.value
             == [first.(totalConnectivityScore := Float(100.0)), second.(totalConnectivityScore := Float(50.0))];
  }
}
