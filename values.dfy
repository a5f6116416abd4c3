/**
 * Attribute values as the scripts handle them.  A geodatabase field read
 * into Python 2 (a search cursor, or a `!Field!` in a PYTHON_9.3 field
 * calculation) is None for a null, an int for a Short or Long field and a
 * float for a Double field.  This module gives their Python 2 ordering,
 * the `max()` built-in and the arithmetic of the trail score expression.
 */
module Values {
  import opened Tables

  datatype Value = Null | Int(i: int) | Float(f: real)

  /** The magnitude of a number. */
  function AsReal(v: Value): real
    requires !v.Null?
  {
    if v.Int? then v.i as real else v.f
  }

  /** Python 2's `a < b`: None is below every number and numbers compare by
      magnitude, whatever their type. */
  predicate Less(a: Value, b: Value)
  {
    if a.Null? then !b.Null? else !b.Null? && AsReal(a) < AsReal(b)
  }

  /** What `max()` returns on a non-empty sequence: it keeps the first item
      and replaces it only by a strictly greater one. */
  function MaxOf(s: seq<Value>): (m: Value)
    requires |s| > 0
    ensures m in s
    ensures forall k :: 0 <= k < |s| ==> !Less(m, s[k])
  {
    if |s| == 1 then s[0]
    else
      var init := s[..|s| - 1];
      var m := MaxOf(init);
      assert forall k :: 0 <= k < |s| - 1 ==> s[k] == init[k];
      if Less(m, s[|s| - 1]) then s[|s| - 1] else m
  }

  /** Python 2's `//` on ints, which is also its `/` on two ints: the
      quotient rounded towards minus infinity. */
  function FloorDiv(x: int, y: int): (q: int)
    requires y != 0
    ensures q as real <= x as real / y as real < q as real + 1.0
  {
    if y > 0 then FloorQuotient(x, y)
    else
      assert (-x) as real / (-y) as real == x as real / y as real;
      FloorQuotient(-x, -y)
  }

  /** Dafny's `/` with a positive divisor is the floor. */
  function FloorQuotient(x: int, y: int): (q: int)
    requires y > 0
    ensures q as real <= x as real / y as real < q as real + 1.0
  {
    var q := x / y;
    var r := x % y;
    assert x as real == q as real * y as real + r as real;
    assert x as real / y as real == q as real + r as real / y as real;
    assert 0.0 <= r as real / y as real < 1.0;
    q
  }

  /** Python 2's `a / b`: floor division when both are ints, true division
      otherwise; None raises TypeError and a zero divisor ZeroDivisionError. */
  function PyDiv(a: Value, b: Value): (r: Result<Value>)
    ensures r.Success? <==> !a.Null? && !b.Null? && AsReal(b) != 0.0
    ensures r.Success? ==> !r.value.Null? && AsReal(r.value) <= AsReal(a) / AsReal(b)
    ensures r.Success? && !(a.Int? && b.Int?) ==> r.value == Float(AsReal(a) / AsReal(b))
    ensures r.Success? && a.Int? && b.Int? ==>
              && r.value.Int?
              && r.value.i as real <= a.i as real / b.i as real < r.value.i as real + 1.0
  {
    if a.Null? || b.Null? then Failure(TypeError)
    else if AsReal(b) == 0.0 then Failure(ZeroDivisionError)
    else if a.Int? && b.Int? then Success(Int(FloorDiv(a.i, b.i)))
    else Success(Float(AsReal(a) / AsReal(b)))
  }

  /** True division, `/` under `from __future__ import division`: the
      quotient is always a float. */
  function TrueDiv(a: Value, b: Value): (r: Result<Value>)
    ensures r.Success? <==> !a.Null? && !b.Null? && AsReal(b) != 0.0
    ensures r.Success? ==> r.value == Float(AsReal(a) / AsReal(b))
  {
    if a.Null? || b.Null? then Failure(TypeError)
    else if AsReal(b) == 0.0 then Failure(ZeroDivisionError)
    else Success(Float(AsReal(a) / AsReal(b)))
  }

  /** Python's `a + b` on numbers: an int when both are ints. */
  function PyAdd(a: Value, b: Value): (r: Result<Value>)
    ensures r.Success? <==> !a.Null? && !b.Null?
    ensures r.Success? ==> !r.value.Null? && AsReal(r.value) == AsReal(a) + AsReal(b)
  {
    if a.Null? || b.Null? then Failure(TypeError)
    else if a.Int? && b.Int? then Success(Int(a.i + b.i))
    else Success(Float(AsReal(a) + AsReal(b)))
  }

  /** Python's `a * b` on numbers: an int when both are ints. */
  function PyMul(a: Value, b: Value): (r: Result<Value>)
    ensures r.Success? <==> !a.Null? && !b.Null?
    ensures r.Success? ==> !r.value.Null? && AsReal(r.value) == AsReal(a) * AsReal(b)
  {
    if a.Null? || b.Null? then Failure(TypeError)
    else if a.Int? && b.Int? then Success(Int(a.i * b.i))
    else Success(Float(AsReal(a) * AsReal(b)))
  }
}
