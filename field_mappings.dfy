/**
 * trails.py, the field mappings of the trail/island spatial join: an
 * arcpy FieldMappings object holds one field map per output field, each
 * with a merge rule ("First" unless set otherwise) that says how the values
 * of all matched join features become the one output value.
 * set_up_merge_rules replaces the rule of one field map in place.
 */
module FieldMapping {
  import opened Tables

  /** The merge rules the scripts use; arcpy's others (Last, Join, Min, Max,
      Median, Mode, StdDev, Range) do not occur. */
  datatype MergeRule = First | Sum | Mean | Count

  datatype FieldMap = FieldMap(outputName: string, mergeRule: MergeRule)

  function LowerAscii(c: char): char
  {
    if 'A' <= c <= 'Z' then (c as int + 32) as char else c
  }

  /** A field name with its ASCII letters in lower case. */
  function Lowered(name: string): (lowered: string)
    ensures |lowered| == |name|
  {
    seq(|name|, k requires 0 <= k < |name| => LowerAscii(name[k]))
  }

  /** Geodatabase field names match without regard to ASCII case, so
      "Orig_length" names the field added as "Orig_Length". */
  predicate SameFieldName(a: string, b: string)
  {
    Lowered(a) == Lowered(b)
  }

  /** findFieldMapIndex: the position of the first field map with this
      output name, or -1 when there is none. */
  function FindFieldMapIndex(fieldMaps: seq<FieldMap>, name: string): (index: int)
    ensures -1 <= index < |fieldMaps|
    ensures index == -1 <==> forall k :: 0 <= k < |fieldMaps| ==> !SameFieldName(fieldMaps[k].outputName, name)
    ensures index >= 0 ==> SameFieldName(fieldMaps[index].outputName, name)
    ensures forall k :: 0 <= k < index ==> !SameFieldName(fieldMaps[k].outputName, name)
  {
    if fieldMaps == [] then -1
    else if SameFieldName(fieldMaps[0].outputName, name) then 0
    else
      var rest := FindFieldMapIndex(fieldMaps[1..], name);
      if rest == -1 then -1 else rest + 1
  }

  /** addTable: one new field map, with the default rule First, for each
      field whose name no field map has yet; a field whose name is already
      mapped joins that map. */
  function AddedFieldMaps(fieldMaps: seq<FieldMap>, fieldNames: seq<string>): (r: seq<FieldMap>)
    ensures |fieldMaps| <= |r| && r[..|fieldMaps|] == fieldMaps
    ensures forall k :: |fieldMaps| <= k < |r| ==> r[k].mergeRule == First
    decreases |fieldNames|
  {
    if fieldNames == [] then fieldMaps
    else
      var name := fieldNames[0];
      var next := if FindFieldMapIndex(fieldMaps, name) >= 0 then fieldMaps
                  else fieldMaps + [FieldMap(name, First)];
      var r := AddedFieldMaps(next, fieldNames[1..]);
      assert r[..|fieldMaps|] == next[..|fieldMaps|];
      r
  }

  /** The field maps addTable appends are for fields of the table that no
      earlier field map has, and no two of them share a name. */
  lemma {:induction false} AddedFieldMapsNew(fieldMaps: seq<FieldMap>, fieldNames: seq<string>)
    ensures forall k :: |fieldMaps| <= k < |AddedFieldMaps(fieldMaps, fieldNames)| ==>
              && AddedFieldMaps(fieldMaps, fieldNames)[k].outputName in fieldNames
              && FindFieldMapIndex(fieldMaps, AddedFieldMaps(fieldMaps, fieldNames)[k].outputName) < 0
    ensures forall j, k :: |fieldMaps| <= j < k < |AddedFieldMaps(fieldMaps, fieldNames)| ==>
              !SameFieldName(AddedFieldMaps(fieldMaps, fieldNames)[j].outputName,
                             AddedFieldMaps(fieldMaps, fieldNames)[k].outputName)
    decreases |fieldNames|
  {
    if fieldNames != [] {
      var name := fieldNames[0];
      var next := if FindFieldMapIndex(fieldMaps, name) >= 0 then fieldMaps
                  else fieldMaps + [FieldMap(name, First)];
      var r := AddedFieldMaps(next, fieldNames[1..]);
      assert r == AddedFieldMaps(fieldMaps, fieldNames);
      AddedFieldMapsNew(next, fieldNames[1..]);
      forall k | |fieldMaps| <= k < |r|
        ensures r[k].outputName in fieldNames && FindFieldMapIndex(fieldMaps, r[k].outputName) < 0
      {
        if k < |next| {
          assert r[k] == next[k] == FieldMap(name, First);
        } else {
          assert r[k].outputName in fieldNames[1..];
          UnfoundInPrefix(fieldMaps, next, r[k].outputName);
        }
      }
      forall j, k | |fieldMaps| <= j < k < |r| ensures !SameFieldName(r[j].outputName, r[k].outputName) {
        if j < |next| {
          assert r[j] == next[j];
          assert FindFieldMapIndex(next, r[k].outputName) < 0;
        }
      }
    }
  }

  /** A name that no map of an extended list has is not in the original
      list either. */
  lemma UnfoundInPrefix(prefix: seq<FieldMap>, extended: seq<FieldMap>, name: string)
    requires |prefix| <= |extended| && extended[..|prefix|] == prefix
    requires FindFieldMapIndex(extended, name) < 0
    ensures FindFieldMapIndex(prefix, name) < 0
  {
    forall k | 0 <= k < |prefix| ensures !SameFieldName(prefix[k].outputName, name) {
      assert prefix[k] == extended[k];
    }
  }

  /** After addTable every field of the table has a field map, old or new. */
  lemma {:induction false} AddedFieldMapsFind(fieldMaps: seq<FieldMap>, fieldNames: seq<string>, name: string)
    requires name in fieldNames || FindFieldMapIndex(fieldMaps, name) >= 0
    ensures FindFieldMapIndex(AddedFieldMaps(fieldMaps, fieldNames), name) >= 0
    decreases |fieldNames|
  {
    var r := AddedFieldMaps(fieldMaps, fieldNames);
    if fieldNames == [] {
    } else {
      var first := fieldNames[0];
      var next := if FindFieldMapIndex(fieldMaps, first) >= 0 then fieldMaps
                  else fieldMaps + [FieldMap(first, First)];
      assert FindFieldMapIndex(next, first) >= 0 by {
        if FindFieldMapIndex(fieldMaps, first) < 0 {
          assert SameFieldName(next[|fieldMaps|].outputName, first);
        } else {
          assert SameFieldName(next[FindFieldMapIndex(fieldMaps, first)].outputName, first);
        }
      }
      if FindFieldMapIndex(fieldMaps, name) >= 0 {
        KeepsFoundNames(fieldMaps, next, name);
      }
      if name == first {
        AddedFieldMapsFind(next, fieldNames[1..], name);
      } else {
        assert name in fieldNames[1..] || FindFieldMapIndex(next, name) >= 0;
        AddedFieldMapsFind(next, fieldNames[1..], name);
      }
    }
  }

  /** Appending field maps keeps every name that was found findable. */
  lemma KeepsFoundNames(prefix: seq<FieldMap>, r: seq<FieldMap>, name: string)
    requires |prefix| <= |r| && r[..|prefix|] == prefix
    requires FindFieldMapIndex(prefix, name) >= 0
    ensures FindFieldMapIndex(r, name) >= 0
  {
    var k := FindFieldMapIndex(prefix, name);
    assert r[k] == prefix[k];
  }

  /** set_up_merge_rules on the field maps: the first field map named
      `fieldName` gets `mergeRule`, every other field map and every name is
      unchanged; a name no map has makes getFieldMap(-1) fail. */
  function WithMergeRule(fieldMaps: seq<FieldMap>, fieldName: string, mergeRule: MergeRule): (r: Result<seq<FieldMap>>)
    ensures r.Success? <==> exists k :: 0 <= k < |fieldMaps| && SameFieldName(fieldMaps[k].outputName, fieldName)
    ensures r.Success? ==> |r.value| == |fieldMaps|
    ensures r.Success? ==> forall k :: 0 <= k < |fieldMaps| ==> r.value[k].outputName == fieldMaps[k].outputName
    ensures r.Success? ==> forall k :: 0 <= k < |fieldMaps| && k != FindFieldMapIndex(fieldMaps, fieldName) ==>
                             r.value[k] == fieldMaps[k]
    ensures r.Success? ==> r.value[FindFieldMapIndex(fieldMaps, fieldName)].mergeRule == mergeRule
  {
    var index := FindFieldMapIndex(fieldMaps, fieldName);
    if index < 0 then Failure(FieldNotFound(fieldName))
    else Success(fieldMaps[index := fieldMaps[index].(mergeRule := mergeRule)])
  }

  /** The merge rule of the field map named `fieldName`. */
  function RuleOf(fieldMaps: seq<FieldMap>, fieldName: string): Result<MergeRule>
  {
    var index := FindFieldMapIndex(fieldMaps, fieldName);
    if index < 0 then Failure(FieldNotFound(fieldName)) else Success(fieldMaps[index].mergeRule)
  }

  /** A FieldMappings object. */
  class FieldMappings {
    var fieldMaps: seq<FieldMap>

    constructor ()
      ensures fieldMaps == []
    {
      fieldMaps := [];
    }

    method AddTable(fieldNames: seq<string>)
      modifies this
      ensures fieldMaps == AddedFieldMaps(old(fieldMaps), fieldNames)
    {
      fieldMaps := AddedFieldMaps(fieldMaps, fieldNames);
    }

    /** getFieldMap: a copy of the field map at `index`. */
    method GetFieldMap(index: int) returns (r: Result<FieldMap>)
      ensures r.Success? <==> 0 <= index < |fieldMaps|
      ensures r.Success? ==> r.value == fieldMaps[index]
    {
      if 0 <= index < |fieldMaps| {
        r := Success(fieldMaps[index]);
      } else {
        r := Failure(FieldNotFound(""));
      }
    }

    /** replaceFieldMap: the field map at `index` becomes `fieldMap`. */
    method ReplaceFieldMap(index: nat, fieldMap: FieldMap)
      requires index < |fieldMaps|
      modifies this
      ensures fieldMaps == old(fieldMaps)[index := fieldMap]
    {
      fieldMaps := fieldMaps[index := fieldMap];
    }
  }

  /** set_up_merge_rules(field_name, merge_rule, field_mappings). */
  method SetUpMergeRules(fieldName: string, mergeRule: MergeRule, fieldMappings: FieldMappings)
    returns (outcome: Result<()>)
    modifies fieldMappings
    ensures var r := WithMergeRule(old(fieldMappings.fieldMaps), fieldName, mergeRule);
            && (r.Success? ==> outcome.Success? && fieldMappings.fieldMaps == r.value)
            && (r.Failure? ==> outcome == Failure(FieldNotFound(fieldName))
                               && fieldMappings.fieldMaps == old(fieldMappings.fieldMaps))
  {
    var fieldIndex := FindFieldMapIndex(fieldMappings.fieldMaps, fieldName);
    var fieldMap := fieldMappings.GetFieldMap(fieldIndex);
    if fieldMap.Failure? {
      return Failure(FieldNotFound(fieldName));
    }
    var updated := fieldMap.value.(mergeRule := mergeRule);
    fieldMappings.ReplaceFieldMap(fieldIndex, updated);
    return Success(());
  }
}
