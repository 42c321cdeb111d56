/** Shape predicates: what kind of schema item a JSON-like value is. */
module Shapes {
  import opened Values

  const PrimitiveTags: seq<string> := ["null", "boolean", "int", "long", "float", "double", "string"]

  /** `isPrimitiveType`: a string naming one of the seven primitive types. */
  predicate IsPrimitiveType(v: Value)
  {
    v.Str? && v.s in PrimitiveTags
  }

  /** `hasFieldValue`: `e` is a dictionary whose field `f` equals `v`. */
  predicate HasFieldValue(e: Value, f: string, v: Value)
  {
    e.Dict? && Get(e, f) == Some(v)
  }

  /** `isRecordSchema`. */
  predicate IsRecordSchema(v: Value)
  {
    HasFieldValue(v, "type", Str("record"))
  }

  /** `isEnumSchema`: an `enum` tag and a list of symbols. */
  predicate IsEnumSchema(v: Value)
  {
    HasFieldValue(v, "type", Str("enum")) && Get(v, "symbols").Some? && Get(v, "symbols").value.List?
  }

  /** `isArray`: a list whose every element satisfies `Pred`. */
  predicate IsArray(v: Value)
    decreases Size(v), 1
  {
    v.List? && AllPred(v.items)
  }

  predicate AllPred(l: seq<Value>)
    decreases SizeSeq(l), 0
  {
    |l| == 0 || (AllPred(l[..|l| - 1]) && Pred(l[|l| - 1]))
  }

  /** `pred`: any of the simple shapes, or any string at all. */
  predicate Pred(i: Value)
    decreases Size(i), 3
  {
    IsPrimitiveType(i) || IsRecordSchema(i) || IsEnumSchema(i) || IsArraySchema(i) || i.Str?
  }

  /** `isArraySchema`: an `array` tag and a list of items, each satisfying `Pred` or `IsArray`. */
  predicate IsArraySchema(v: Value)
    decreases Size(v), 2
  {
    HasFieldValue(v, "type", Str("array")) && Get(v, "items").Some? && Get(v, "items").value.List? &&
    AllPredOrArray(Get(v, "items").value.items)
  }

  predicate AllPredOrArray(l: seq<Value>)
    decreases SizeSeq(l), 0
  {
    |l| == 0 || (AllPredOrArray(l[..|l| - 1]) && (Pred(l[|l| - 1]) || IsArray(l[|l| - 1])))
  }

  lemma {:induction false} AllPredAt(l: seq<Value>)
    ensures AllPred(l) <==> forall i :: 0 <= i < |l| ==> Pred(l[i])
    decreases |l|
  {
    if |l| > 0 {
      var p := l[..|l| - 1];
      AllPredAt(p);
      assert forall i :: 0 <= i < |p| ==> p[i] == l[i];
    }
  }

  lemma {:induction false} AllPredOrArrayAt(l: seq<Value>)
    ensures AllPredOrArray(l) <==> forall i :: 0 <= i < |l| ==> Pred(l[i]) || IsArray(l[i])
    decreases |l|
  {
    if |l| > 0 {
      var p := l[..|l| - 1];
      AllPredOrArrayAt(p);
      assert forall i :: 0 <= i < |p| ==> p[i] == l[i];
    }
  }

  /** `pred` holds of exactly the strings and the record, enum and array schemas. */
  lemma PredCases(v: Value)
    ensures Pred(v) <==> v.Str? || IsRecordSchema(v) || IsEnumSchema(v) || IsArraySchema(v)
  {
  }

  /** A schema has one type tag, so the record, enum and array shapes exclude each other,
      and none of them is a list or a string. */
  lemma ShapesExclusive(v: Value)
    ensures !(IsRecordSchema(v) && IsEnumSchema(v))
    ensures !(IsRecordSchema(v) && IsArraySchema(v))
    ensures !(IsEnumSchema(v) && IsArraySchema(v))
    ensures IsArray(v) ==> !Pred(v)
  {
  }

  /** `isArraySchema` written out: an `array` tag and a list of items, each of which is a
      simple shape or a list of simple shapes. */
  lemma ArraySchemaShape(v: Value)
    ensures IsArraySchema(v) <==>
      v.Dict? && Get(v, "type") == Some(Str("array")) &&
      Get(v, "items").Some? && Get(v, "items").value.List? &&
      (forall i :: 0 <= i < |Get(v, "items").value.items| ==>
         Pred(Get(v, "items").value.items[i]) || IsArray(Get(v, "items").value.items[i]))
  {
    if Get(v, "items").Some? && Get(v, "items").value.List? {
      AllPredOrArrayAt(Get(v, "items").value.items);
    }
  }

  /** The loop of `isArray`: stops at the first element that fails `pred`. */
  method CheckArray(v: Value) returns (b: bool)
    ensures b == IsArray(v)
  {
    if !v.List? {
      return false;
    }
    var l := v.items;
    AllPredAt(l);
    for i := 0 to |l|
      invariant forall j :: 0 <= j < i ==> Pred(l[j])
    {
      if !Pred(l[i]) {
        return false;
      }
    }
    return true;
  }

  /** The checks and the loop of `isArraySchema`. */
  method CheckArraySchema(v: Value) returns (b: bool)
    ensures b == IsArraySchema(v)
  {
    if !HasFieldValue(v, "type", Str("array")) {
      return false;
    }
    var items := Get(v, "items");
    if items.None? {
      return false;
    }
    if !items.value.List? {
      return false;
    }
    var l := items.value.items;
    AllPredOrArrayAt(l);
    for i := 0 to |l|
      invariant forall j :: 0 <= j < i ==> Pred(l[j]) || IsArray(l[j])
    {
      var isArray := CheckArray(l[i]);
      if !(Pred(l[i]) || isArray) {
        return false;
      }
    }
    return true;
  }
}
