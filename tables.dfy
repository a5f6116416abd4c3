/**
 * Table operations shared by the road and the trail scripts: the errors a
 * geoprocessing step can stop with, and attribute selection over the rows of
 * a feature class (SelectLayerByAttribute "NEW_SELECTION" followed by
 * CopyFeatures).  CopyFeatures copies the selected rows in table order, but
 * a selection that matches no row leaves the layer without a selection, and
 * CopyFeatures then copies every row.  `Select` is the selection the scripts
 * mean; `CopySelection` is what the two tools write.
 */
module Tables {

  /** The exceptions the scripts can end in. */
  datatype Error =
    | TypeError                  // arithmetic on None, or indexing a number
    | ValueError                 // max() of an exhausted cursor
    | ZeroDivisionError
    | FieldNotFound(name: string)

  /** The outcome of a step that may raise. */
  datatype Result<+T> = Success(value: T) | Failure(error: Error) {
    predicate IsFailure() { Failure? }

    function PropagateFailure<U>(): Result<U>
      requires Failure?
    {
      Failure(error)
    }

    function Extract(): T
      requires Success?
    {
      value
    }
  }

  /** The rows of `rows` that satisfy `keep`, in their table order. */
  function Select<T(!new)>(rows: seq<T>, keep: T -> bool): (r: seq<T>)
    ensures |r| <= |rows|
    ensures forall x :: x in r <==> x in rows && keep(x)
  {
    if rows == [] then []
    else (if keep(rows[0]) then [rows[0]] else []) + Select(rows[1..], keep)
  }

  /** NEW_SELECTION then CopyFeatures, as the tools behave: the selected
      rows when the where clause matches some row, and every row of the
      layer when it matches none. */
  function CopySelection<T(!new)>(rows: seq<T>, keep: T -> bool): (r: seq<T>)
    ensures (exists x :: x in rows && keep(x)) ==> r == Select(rows, keep)
    ensures (forall x :: x in rows ==> !keep(x)) ==> r == rows
  {
    var selected := Select(rows, keep);
    if selected == [] then rows
    else assert selected[0] in selected; selected
  }

  /** On a layer where nothing matches, the copy and the selection part:
      the copy is the whole layer, the selection is empty. */
  lemma CopySelectionOfNoMatch<T(!new)>(rows: seq<T>, keep: T -> bool)
    requires rows != [] && forall x :: x in rows ==> !keep(x)
    ensures CopySelection(rows, keep) == rows
    ensures Select(rows, keep) == [] && CopySelection(rows, keep) != Select(rows, keep)
  {
    if Select(rows, keep) != [] {
      assert Select(rows, keep)[0] in Select(rows, keep);
    }
  }

  /** Selection works row by row: selecting from two tables one after the
      other gives the two selections one after the other.  With the
      definition on a single row, this fixes the order of the result. */
  lemma {:induction false} SelectConcat<T(!new)>(a: seq<T>, b: seq<T>, keep: T -> bool)
    ensures Select(a + b, keep) == Select(a, keep) + Select(b, keep)
  {
    if a == [] {
      assert a + b == b;
    } else {
      assert (a + b)[0] == a[0];
      assert (a + b)[1..] == a[1..] + b;
      SelectConcat(a[1..], b, keep);
    }
  }

  /** No two rows of `rows` carry the same key. */
  ghost predicate UniqueBy<T, K>(rows: seq<T>, key: T -> K)
  {
    forall i, j :: 0 <= i < j < |rows| ==> key(rows[i]) != key(rows[j])
  }

  /** A selection keeps a unique key unique. */
  lemma {:induction false} SelectKeepsUnique<T(!new), K>(rows: seq<T>, keep: T -> bool, key: T -> K)
    requires UniqueBy(rows, key)
    ensures UniqueBy(Select(rows, keep), key)
  {
    if rows != [] {
      var tail := rows[1..];
      assert UniqueBy(tail, key) by {
        forall i, j | 0 <= i < j < |tail| ensures key(tail[i]) != key(tail[j]) {
          assert tail[i] == rows[i + 1] && tail[j] == rows[j + 1];
        }
      }
      SelectKeepsUnique(tail, keep, key);
      var rest := Select(tail, keep);
      if keep(rows[0]) {
        forall y | y in rest ensures key(rows[0]) != key(y) {
          var j :| 0 <= j < |tail| && tail[j] == y;
          assert y == rows[j + 1];
        }
        var r := [rows[0]] + rest;
        forall i, j | 0 <= i < j < |r| ensures key(r[i]) != key(r[j]) {
          if i == 0 {
            assert r[j] == rest[j - 1] && r[j] in rest;
          } else {
            assert r[i] == rest[i - 1] && r[j] == rest[j - 1];
          }
        }
      } else {
        assert Select(rows, keep) == rest;
      }
    }
  }
}
