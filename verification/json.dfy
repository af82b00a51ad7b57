/** Option and Result, for the source's `None` and for the exceptions it raises. */
module Wrappers {
  datatype Option<+T> = None | Some(value: T)

  datatype Result<+T, +E> = Ok(value: T) | Err(error: E)
}

/**
 A JSON document as the source holds it after parsing. Numbers are reals, so that an integer and
 the float of the same value are one number, as they are to Python's `==`. An object is a map: the
 order of its members is not part of the model.
 */
module JsonTree {
  datatype Json =
    | Null
    | Bool(flag: bool)
    | Num(value: real)
    | Str(text: string)
    | Arr(items: seq<Json>)
    | Obj(fields: map<string, Json>)

  // A dict's keys in insertion order.
  ghost predicate Lists(order: seq<string>, names: set<string>) {
    && (forall name :: name in order <==> name in names)
    && (forall i, j :: 0 <= i < j < |order| ==> order[i] != order[j])
  }

  predicate HasPrefix(s: string, prefix: string) {
    |prefix| <= |s| && s[..|prefix|] == prefix
  }

  // A document up to Python's `==`, to which `True` is 1 and `False` is 0, at any depth.
  function AsCompared(node: Json): Json {
    match node
    case Bool(flag) => Num(if flag then 1.0 else 0.0)
    case Arr(items) => Arr(seq(|items|, i requires 0 <= i < |items| => AsCompared(items[i])))
    case Obj(fields) => Obj(map key | key in fields.Keys :: AsCompared(fields[key]))
    case _ => node
  }

  // Python's `a == b` on two JSON values.
  predicate PyEqual(a: Json, b: Json) {
    AsCompared(a) == AsCompared(b)
  }

  lemma PyEqualArr(a: Json, b: Json)
    requires PyEqual(a, b) && a.Arr?
    ensures b.Arr? && |a.items| == |b.items|
    ensures forall i :: 0 <= i < |a.items| ==> PyEqual(a.items[i], b.items[i])
  {
    forall i | 0 <= i < |a.items| ensures b.Arr? && |a.items| == |b.items| && PyEqual(a.items[i], b.items[i]) {
      assert AsCompared(a).items[i] == AsCompared(b).items[i];
    }
  }

  lemma PyEqualObj(a: Json, b: Json)
    requires PyEqual(a, b) && a.Obj?
    ensures b.Obj? && a.fields.Keys == b.fields.Keys
    ensures forall key :: key in a.fields ==> PyEqual(a.fields[key], b.fields[key])
  {
    assert AsCompared(a).fields.Keys == a.fields.Keys;
    assert b.Obj? && AsCompared(b).fields.Keys == b.fields.Keys;
    forall key | key in a.fields ensures PyEqual(a.fields[key], b.fields[key]) {
      assert AsCompared(a).fields[key] == AsCompared(b).fields[key];
    }
  }

  lemma PyEqualIfItems(a: Json, b: Json)
    requires a.Arr? && b.Arr? && |a.items| == |b.items|
    requires forall i :: 0 <= i < |a.items| ==> PyEqual(a.items[i], b.items[i])
    ensures PyEqual(a, b)
  {
  }

  lemma PyEqualIfFields(a: Json, b: Json)
    requires a.Obj? && b.Obj? && a.fields.Keys == b.fields.Keys
    requires forall key :: key in a.fields ==> PyEqual(a.fields[key], b.fields[key])
    ensures PyEqual(a, b)
  {
  }
}
