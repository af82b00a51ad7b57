/** `clean_schema`: a vendor schema with its annotations removed and its extensions spelled as keywords. */
module Cleaning {
  import opened JsonTree

  const STRIPPED_KEYS := {"description", "summary", "example", "examples", "externalDocs", "title"}
  // Keywords whose value is one schema, a list of schemas, and a map of names to schemas.
  const SINGLE_SCHEMA_KEYS := {"items", "additionalProperties", "not"}
  const SCHEMA_LIST_KEYS := {"allOf", "oneOf", "anyOf"}
  const NAMED_SCHEMA_KEYS := {"properties", "patternProperties"}

  // What the value of a keyword holds: named schemas, one schema, a list of schemas, or no schema.
  datatype Holding = Named | Single | List | Plain

  function HoldingOf(key: string): Holding {
    if key in NAMED_SCHEMA_KEYS then Named
    else if key in SINGLE_SCHEMA_KEYS then Single
    else if key in SCHEMA_LIST_KEYS then List
    else Plain
  }

  /**
   The declaration's `extension_map`. When two extensions of one object map onto one keyword, the source
   keeps the one the object lists last; objects here are unordered, so `order` stands for their listing.
   */
  datatype Extensions = Extensions(target: map<string, string>, order: map<string, Json> -> seq<string>)

  // `key.startswith("x-")`.
  predicate VendorKey(key: string) {
    |key| >= 2 && key[0] == 'x' && key[1] == '-'
  }

  // The extensions of an object that map onto the keyword `t`.
  function SpelledBy(fields: map<string, Json>, ext: Extensions, t: string): set<string> {
    set key | key in fields.Keys && key in ext.target && ext.target[key] == t
  }

  // Every object has its listing.
  ghost predicate Ordered(ext: Extensions) {
    forall fields :: Lists(ext.order(fields), fields.Keys)
  }

  // The declaration's own schema allows only vendor extensions as keys.
  ghost predicate Declared(ext: Extensions) {
    Ordered(ext) && forall key :: key in ext.target ==> VendorKey(key)
  }

  // The last of the listed keys that maps onto the keyword `t`.
  function LastOnto(order: seq<string>, target: map<string, string>, t: string): string {
    if order == [] then ""
    else
      var last := order[|order| - 1];
      if last in target && target[last] == t then last else LastOnto(order[..|order| - 1], target, t)
  }

  lemma {:induction false} LastOntoListed(order: seq<string>, target: map<string, string>, t: string)
    requires exists key :: key in order && key in target && target[key] == t
    ensures var last := LastOnto(order, target, t); last in order && last in target && target[last] == t
  {
    var front, last := order[..|order| - 1], order[|order| - 1];
    assert order == front + [last];
    if !(last in target && target[last] == t) { LastOntoListed(front, target, t); }
  }

  lemma LastIsSpelling(fields: map<string, Json>, ext: Extensions, t: string)
    requires Ordered(ext) && SpelledBy(fields, ext, t) != {}
    ensures LastOnto(ext.order(fields), ext.target, t) in SpelledBy(fields, ext, t)
  {
    var key :| key in SpelledBy(fields, ext, t);
    LastOntoListed(ext.order(fields), ext.target, t);
  }

  predicate Kept(key: string, ext: Extensions) {
    key !in ext.target && key !in STRIPPED_KEYS && !VendorKey(key)
  }

  // The keywords that extensions of this object stand for and the object does not spell itself.
  function Supplied(fields: map<string, Json>, ext: Extensions): map<string, Json> {
    map t | t in ext.target.Values && t !in fields
        && LastOnto(ext.order(fields), ext.target, t) in SpelledBy(fields, ext, t)
    :: fields[LastOnto(ext.order(fields), ext.target, t)]
  }

  function Cleaned(node: Json, ext: Extensions): Json
    decreases node, 1
  {
    match node
    case Arr(items) => Arr(CleanedItems(items, ext))
    case Obj(fields) => FoldNullableRef(CleanedFields(fields, ext))
    case _ => node
  }

  function CleanedItems(items: seq<Json>, ext: Extensions): seq<Json>
    decreases Arr(items), 0
  {
    seq(|items|, i requires 0 <= i < |items| => assert items[i] < Arr(items); Cleaned(items[i], ext))
  }

  function CleanedFields(fields: map<string, Json>, ext: Extensions): map<string, Json>
    decreases Obj(fields), 0
  {
    (map key | key in fields.Keys && Kept(key, ext) :: CleanedAt(key, fields[key], ext)) + Supplied(fields, ext)
  }

  // A member under a kept key: schemas are cleaned, the names of named schemas and all other values are copied.
  function CleanedAt(key: string, value: Json, ext: Extensions): Json
    decreases value, 2
  {
    match HoldingOf(key)
    case Named =>
      if value.Obj? then Obj(map name | name in value.fields.Keys :: Cleaned(value.fields[name], ext)) else value
    case Single => Cleaned(value, ext)
    case List => if value.Arr? then Cleaned(value, ext) else value
    case Plain => value
  }

  predicate IsNullableRef(fields: map<string, Json>) {
    "$ref" in fields && fields["$ref"].Str? && "nullable" in fields && fields["nullable"] == Bool(true)
  }

  const NULL_BRANCH := Obj(map["enum" := Arr([Null])])

  // OAS 3.0 validators ignore what stands beside a `$ref`, so a nullable reference is spelled as a choice.
  function FoldNullableRef(fields: map<string, Json>): Json {
    if IsNullableRef(fields) then
      Obj(map["anyOf" := Arr([Obj(map["$ref" := fields["$ref"]]), NULL_BRANCH])])
    else Obj(fields)
  }

  // The members cleaned so far, in the order an object lists them.
  function CleanedUpTo(fields: map<string, Json>, order: seq<string>, ext: Extensions): map<string, Json>
    requires forall key :: key in order ==> key in fields
  {
    if order == [] then map[]
    else
      var out, key := CleanedUpTo(fields, order[..|order| - 1], ext), order[|order| - 1];
      if key in ext.target then
        if ext.target[key] !in fields then out[ext.target[key] := fields[key]] else out
      else if Kept(key, ext) then out[key := CleanedAt(key, fields[key], ext)]
      else out
  }

  lemma {:induction false} CleanedUpToAt(fields: map<string, Json>, order: seq<string>, ext: Extensions, k: string)
    requires forall key :: key in order ==> key in fields
    ensures k in fields ==>
              && (k in CleanedUpTo(fields, order, ext) <==> k in order && Kept(k, ext))
              && (k in CleanedUpTo(fields, order, ext) ==>
                    CleanedUpTo(fields, order, ext)[k] == CleanedAt(k, fields[k], ext))
    ensures k !in fields ==>
              && (k in CleanedUpTo(fields, order, ext)
                  <==> exists key :: key in order && key in ext.target && ext.target[key] == k)
              && (k in CleanedUpTo(fields, order, ext) ==>
                    var last := LastOnto(order, ext.target, k);
                    last in fields && CleanedUpTo(fields, order, ext)[k] == fields[last])
  {
    hide CleanedAt;
    if order != [] {
      var front, last := order[..|order| - 1], order[|order| - 1];
      assert order == front + [last];
      CleanedUpToAt(fields, front, ext, k);
    }
  }

  // Once every member is cleaned, the object is.
  lemma CleanedUpToAll(fields: map<string, Json>, ext: Extensions)
    requires Ordered(ext)
    ensures forall key :: key in ext.order(fields) ==> key in fields
    ensures CleanedUpTo(fields, ext.order(fields), ext) == CleanedFields(fields, ext)
  {
    hide CleanedAt, CleanedUpTo, Kept, CleanedFields;
    var order := ext.order(fields);
    assert Lists(order, fields.Keys);
    forall k ensures k in CleanedUpTo(fields, order, ext) <==> k in CleanedFields(fields, ext)
      ensures k in CleanedFields(fields, ext) ==> CleanedUpTo(fields, order, ext)[k] == CleanedFields(fields, ext)[k]
    {
      CleanedUpToAllAt(fields, ext, k);
    }
  }

  lemma CleanedUpToAllAt(fields: map<string, Json>, ext: Extensions, k: string)
    requires Ordered(ext) && forall key :: key in ext.order(fields) ==> key in fields
    ensures var out := CleanedUpTo(fields, ext.order(fields), ext);
            && (k in out <==> k in CleanedFields(fields, ext))
            && (k in out ==> out[k] == CleanedFields(fields, ext)[k])
  {
    var order := ext.order(fields);
    assert Lists(order, fields.Keys);
    hide CleanedAt, CleanedUpTo, Kept, Lists, Ordered, LastOnto;
    CleanedUpToAt(fields, order, ext, k);
    if k !in fields {
      SuppliedExactly(fields, ext, k);
      assert (exists key :: key in order && key in ext.target && ext.target[key] == k)
          <==> SpelledBy(fields, ext, k) != {} by {
        SpelledInOrder(fields, ext, k);
      }
    }
  }

  lemma SpelledInOrder(fields: map<string, Json>, ext: Extensions, t: string)
    requires Ordered(ext)
    ensures (exists key :: key in ext.order(fields) && key in ext.target && ext.target[key] == t)
        <==> SpelledBy(fields, ext, t) != {}
  {
    assert Lists(ext.order(fields), fields.Keys);
    if key :| key in ext.order(fields) && key in ext.target && ext.target[key] == t {
      assert key in SpelledBy(fields, ext, t);
    }
  }

  // A keyword is supplied exactly when the object spells it by an extension only.
  lemma SuppliedExactly(fields: map<string, Json>, ext: Extensions, t: string)
    requires Ordered(ext)
    ensures t in Supplied(fields, ext) <==> t !in fields && SpelledBy(fields, ext, t) != {}
  {
    hide LastOnto, Ordered;
    if SpelledBy(fields, ext, t) != {} { LastIsSpelling(fields, ext, t); }
  }

  // Of several extensions for one keyword, it takes the value of the one listed last.
  lemma SuppliedLast(fields: map<string, Json>, ext: Extensions, t: string)
    requires Declared(ext) && t in Supplied(fields, ext)
    ensures var order := ext.order(fields);
            exists i :: 0 <= i < |order| && order[i] in ext.target && ext.target[order[i]] == t
              && (forall j :: i < j < |order| && order[j] in ext.target ==> ext.target[order[j]] != t)
              && order[i] in fields && Supplied(fields, ext)[t] == fields[order[i]]
  {
    LastOntoIsLast(ext.order(fields), ext.target, t);
  }

  lemma {:induction false} LastOntoIsLast(order: seq<string>, target: map<string, string>, t: string)
    requires var last := LastOnto(order, target, t); last in target && target[last] == t
    ensures LastOnto(order, target, t) == ""
         || exists i :: 0 <= i < |order| && order[i] == LastOnto(order, target, t)
              && forall j :: i < j < |order| && order[j] in target ==> target[order[j]] != t
  {
    if order != [] {
      var n := |order| - 1;
      if order[n] in target && target[order[n]] == t {
        assert order[n] == LastOnto(order, target, t);
      } else {
        LastOntoIsLast(order[..n], target, t);
        assert forall i :: 0 <= i < n ==> order[..n][i] == order[i];
      }
    }
  }

  // Every key `clean_schema` strips under `node`: the additions to the `stripped` ledger.
  function Stripped(node: Json, ext: Extensions): set<string>
    decreases node, 0
  {
    match node
    case Arr(items) => set i, s | 0 <= i < |items| && s in Stripped(items[i], ext) :: s
    case Obj(fields) =>
      (set key | key in fields.Keys && Dropped(key, ext))
      + (set key, s | key in fields.Keys && s in StrippedAt(key, fields[key], ext) :: s)
    case _ => {}
  }

  predicate Dropped(key: string, ext: Extensions) {
    key !in ext.target && (key in STRIPPED_KEYS || VendorKey(key))
  }

  function StrippedAt(key: string, value: Json, ext: Extensions): set<string>
    decreases value, 1
  {
    if !Kept(key, ext) then {}
    else
      match HoldingOf(key)
      case Named =>
        if value.Obj? then set name, s | name in value.fields.Keys && s in Stripped(value.fields[name], ext) :: s
        else {}
      case Single => Stripped(value, ext)
      case List => if value.Arr? then Stripped(value, ext) else {}
      case Plain => {}
  }

  // What the listed members, or the first items, add to the ledger.
  function StrippedUpTo(fields: map<string, Json>, order: seq<string>, ext: Extensions): set<string>
    requires forall key :: key in order ==> key in fields
  {
    if order == [] then {}
    else
      var key := order[|order| - 1];
      StrippedUpTo(fields, order[..|order| - 1], ext) + (if Dropped(key, ext) then {key} else {})
          + StrippedAt(key, fields[key], ext)
  }

  lemma {:induction false} StrippedUpToHas(fields: map<string, Json>, order: seq<string>, ext: Extensions, s: string)
    requires forall key :: key in order ==> key in fields
    ensures s in StrippedUpTo(fields, order, ext)
       <==> exists key :: key in order && ((s == key && Dropped(key, ext)) || s in StrippedAt(key, fields[key], ext))
  {
    hide StrippedAt, Dropped;
    if order != [] {
      var front, last := order[..|order| - 1], order[|order| - 1];
      assert order == front + [last];
      StrippedUpToHas(fields, front, ext, s);
    }
  }

  lemma StrippedUpToAll(fields: map<string, Json>, order: seq<string>, ext: Extensions)
    requires Lists(order, fields.Keys)
    ensures StrippedUpTo(fields, order, ext) == Stripped(Obj(fields), ext)
  {
    hide StrippedUpTo, StrippedAt, Dropped;
    forall s ensures s in StrippedUpTo(fields, order, ext) <==> s in Stripped(Obj(fields), ext) {
      StrippedUpToHas(fields, order, ext, s);
    }
  }

  lemma StrippedMoreItems(items: seq<Json>, i: nat, ext: Extensions)
    requires i < |items|
    ensures Stripped(Arr(items[..i + 1]), ext) == Stripped(Arr(items[..i]), ext) + Stripped(items[i], ext)
    ensures CleanedItems(items[..i + 1], ext) == CleanedItems(items[..i], ext) + [Cleaned(items[i], ext)]
  {
    hide Cleaned;
    var more := items[..i + 1];
    assert more[i] == items[i] && forall k :: 0 <= k < i ==> more[k] == items[..i][k];
    forall s
      ensures s in Stripped(Arr(more), ext) <==> s in Stripped(Arr(items[..i]), ext) || s in Stripped(items[i], ext)
    {
      if k :| 0 <= k < i && s in Stripped(items[..i][k], ext) { assert s in Stripped(more[k], ext); }
      if s in Stripped(items[i], ext) { assert s in Stripped(more[i], ext); }
    }
  }

  // ----- idempotence

  // No extension is replaced by a key that a second cleaning would drop, replace again or look inside.
  ghost predicate TargetsSettled(ext: Extensions) {
    forall key :: key in ext.target ==> ext.target[key] == key || Settled(ext.target[key])
  }

  predicate Settled(t: string) {
    !VendorKey(t) && t !in STRIPPED_KEYS && HoldingOf(t) == Plain
  }

  ghost predicate CleansOnce(node: Json, ext: Extensions) {
    Cleaned(Cleaned(node, ext), ext) == Cleaned(node, ext)
  }

  lemma CleaningIdempotentExactlyWhen(ext: Extensions)
    requires Declared(ext)
    ensures (forall node :: CleansOnce(node, ext)) <==> TargetsSettled(ext)
  {
    if TargetsSettled(ext) {
      forall node ensures CleansOnce(node, ext) { CleaningIdempotent(node, ext); }
    } else {
      var key :| key in ext.target && ext.target[key] != key && !Settled(ext.target[key]);
      UnsettledTarget(key, ext);
    }
  }

  lemma SuppliedIsSettled(fields: map<string, Json>, ext: Extensions, t: string)
    requires Declared(ext) && TargetsSettled(ext) && t in Supplied(fields, ext)
    ensures Settled(t) && t !in ext.target && t !in fields
  {
    var key := LastOnto(ext.order(fields), ext.target, t);
    assert key in SpelledBy(fields, ext, t);
    assert ext.target[key] != key;
  }

  lemma {:induction false} CleaningIdempotent(node: Json, ext: Extensions)
    requires Declared(ext) && TargetsSettled(ext)
    ensures CleansOnce(node, ext)
    decreases node, 1
  {
    hide Declared, TargetsSettled, CleanedFields;
    match node
    case Arr(items) =>
      forall i | 0 <= i < |items| ensures CleansOnce(items[i], ext) { CleaningIdempotent(items[i], ext); }
      assert CleanedItems(CleanedItems(items, ext), ext) == CleanedItems(items, ext);
    case Obj(fields) =>
      var out := CleanedFields(fields, ext);
      CleanedFieldsIdempotent(fields, ext);
      if IsNullableRef(out) { FoldedIsClean(out["$ref"], ext); }
    case _ =>
  }

  ghost predicate Settles(key: string, value: Json, ext: Extensions) {
    Kept(key, ext) && CleanedAt(key, value, ext) == value
  }

  // An object of settled members is its own cleaning.
  lemma SettledObject(out: map<string, Json>, ext: Extensions)
    requires forall key :: key in out ==> Settles(key, out[key], ext)
    ensures CleanedFields(out, ext) == out
  {
    NoExtensions(out, ext);
  }

  lemma {:induction false} CleanedFieldsIdempotent(fields: map<string, Json>, ext: Extensions)
    requires Declared(ext) && TargetsSettled(ext)
    ensures CleanedFields(CleanedFields(fields, ext), ext) == CleanedFields(fields, ext)
    decreases Obj(fields), 0
  {
    var out := CleanedFields(fields, ext);
    forall key | key in out ensures Settles(key, out[key], ext) {
      CleanedMember(fields, ext, key);
      if key in Supplied(fields, ext) {
        SuppliedIsSettled(fields, ext, key);
      } else {
        CleanedAtIdempotent(key, fields[key], ext);
      }
    }
    SettledObject(out, ext);
  }

  lemma CleanedMember(fields: map<string, Json>, ext: Extensions, key: string)
    requires key in CleanedFields(fields, ext)
    ensures key in Supplied(fields, ext) || (key in fields && Kept(key, ext))
    ensures CleanedFields(fields, ext)[key]
         == if key in Supplied(fields, ext) then Supplied(fields, ext)[key] else CleanedAt(key, fields[key], ext)
  {
  }

  lemma {:induction false} CleanedAtIdempotent(key: string, value: Json, ext: Extensions)
    requires Declared(ext) && TargetsSettled(ext)
    ensures CleanedAt(key, CleanedAt(key, value, ext), ext) == CleanedAt(key, value, ext)
    decreases value, 2
  {
    match HoldingOf(key)
    case Named =>
      if value.Obj? {
        forall name | name in value.fields ensures CleansOnce(value.fields[name], ext) {
          CleaningIdempotent(value.fields[name], ext);
        }
        assert CleanedAt(key, CleanedAt(key, value, ext), ext).fields == CleanedAt(key, value, ext).fields;
      }
    case Single => CleaningIdempotent(value, ext);
    case List => if value.Arr? { CleaningIdempotent(value, ext); }
    case Plain =>
  }

  /** The ledger is right: nothing that it would record is left in a cleaned schema. */
  lemma {:induction false} NothingLeftToStrip(node: Json, ext: Extensions)
    requires Declared(ext) && TargetsSettled(ext)
    ensures Stripped(Cleaned(node, ext), ext) == {}
    decreases node, 1
  {
    match node
    case Arr(items) =>
      forall i | 0 <= i < |items|
        ensures Stripped(Cleaned(items[i], ext), ext) == {}
      {
        NothingLeftToStrip(items[i], ext);
      }
    case Obj(fields) =>
      FieldsLeaveNothing(fields, ext);
      if IsNullableRef(CleanedFields(fields, ext)) { FoldedLeavesNothing(CleanedFields(fields, ext)["$ref"], ext); }
    case _ =>
  }

  lemma {:induction false} FieldsLeaveNothing(fields: map<string, Json>, ext: Extensions)
    requires Declared(ext) && TargetsSettled(ext)
    ensures Stripped(Obj(CleanedFields(fields, ext)), ext) == {}
    decreases Obj(fields), 0
  {
    hide Stripped;
    var out := CleanedFields(fields, ext);
    forall key | key in out ensures !Dropped(key, ext) && StrippedAt(key, out[key], ext) == {} {
      CleanedMember(fields, ext, key);
      if key in Supplied(fields, ext) {
        SuppliedIsSettled(fields, ext, key);
      } else {
        MemberLeavesNothing(key, fields[key], ext);
      }
    }
    StrippedNothing(out, ext);
  }

  lemma StrippedNothing(fields: map<string, Json>, ext: Extensions)
    requires forall key :: key in fields ==> !Dropped(key, ext) && StrippedAt(key, fields[key], ext) == {}
    ensures Stripped(Obj(fields), ext) == {}
  {
    hide StrippedAt, Dropped;
  }

  lemma {:induction false} MemberLeavesNothing(key: string, value: Json, ext: Extensions)
    requires Declared(ext) && TargetsSettled(ext)
    ensures StrippedAt(key, CleanedAt(key, value, ext), ext) == {}
    decreases value, 2
  {
    match HoldingOf(key)
    case Named =>
      if value.Obj? {
        forall name | name in value.fields ensures Stripped(Cleaned(value.fields[name], ext), ext) == {} {
          NothingLeftToStrip(value.fields[name], ext);
        }
      }
    case Single => NothingLeftToStrip(value, ext);
    case List => if value.Arr? { NothingLeftToStrip(value, ext); }
    case Plain =>
  }

  lemma FoldedLeavesNothing(ref: Json, ext: Extensions)
    requires Declared(ext)
    ensures Stripped(Obj(map["anyOf" := Arr([Obj(map["$ref" := ref]), NULL_BRANCH])]), ext) == {}
  {
    var branches := [Obj(map["$ref" := ref]), NULL_BRANCH];
    PlainMember("$ref", ref, ext);
    PlainMember("enum", Arr([Null]), ext);
    StrippedNothing(map["$ref" := ref], ext);
    StrippedNothing(map["enum" := Arr([Null])], ext);
    assert Stripped(Arr(branches), ext) == {};
    KeptKeyword("anyOf", ext);
    StrippedNothing(map["anyOf" := Arr(branches)], ext);
  }

  lemma PlainMember(key: string, value: Json, ext: Extensions)
    requires Declared(ext) && Settled(key)
    ensures !Dropped(key, ext) && StrippedAt(key, value, ext) == {}
  {
  }

  lemma NoExtensions(fields: map<string, Json>, ext: Extensions)
    requires fields.Keys !! ext.target.Keys
    ensures Supplied(fields, ext) == map[]
  {
    forall t ensures SpelledBy(fields, ext, t) == {} {
    }
  }

  lemma KeptKeyword(key: string, ext: Extensions)
    requires Declared(ext) && !VendorKey(key) && key !in STRIPPED_KEYS
    ensures Kept(key, ext)
  {
  }

  // A member alone in its object under an ordinary keyword.
  lemma LoneKeyword(key: string, value: Json, ext: Extensions)
    requires Declared(ext) && Kept(key, ext)
    ensures CleanedFields(map[key := value], ext) == map[key := CleanedAt(key, value, ext)]
  {
    var fields := map[key := value];
    NoExtensions(fields, ext);
  }

  lemma FoldedIsClean(ref: Json, ext: Extensions)
    requires Declared(ext) && ref.Str?
    ensures var folded := Obj(map["anyOf" := Arr([Obj(map["$ref" := ref]), NULL_BRANCH])]);
            Cleaned(folded, ext) == folded
  {
    var branches := [Obj(map["$ref" := ref]), NULL_BRANCH];
    forall i | 0 <= i < 2 ensures Cleaned(branches[i], ext) == branches[i] {
      if i == 0 { LoneKeywordCopied("$ref", ref, ext); } else { LoneKeywordCopied("enum", Arr([Null]), ext); }
    }
    SettledItems(branches, ext);
    KeptKeyword("anyOf", ext);
    LoneKeyword("anyOf", Arr(branches), ext);
    AnyOfCleaned(branches, ext);
    LoneNotNullable("anyOf", Arr(branches));
    hide CleanedFields, CleanedAt, Declared, CleanedItems;
  }

  lemma AnyOfCleaned(branches: seq<Json>, ext: Extensions)
    ensures CleanedAt("anyOf", Arr(branches), ext) == Arr(CleanedItems(branches, ext))
  {
  }

  lemma SettledItems(items: seq<Json>, ext: Extensions)
    requires forall i :: 0 <= i < |items| ==> Cleaned(items[i], ext) == items[i]
    ensures CleanedItems(items, ext) == items
  {
  }

  lemma LoneKeywordCopied(key: string, value: Json, ext: Extensions)
    requires Declared(ext) && Settled(key)
    ensures Cleaned(Obj(map[key := value]), ext) == Obj(map[key := value])
  {
    KeptKeyword(key, ext);
    LoneKeyword(key, value, ext);
    LoneNotNullable(key, value);
    SettledCopied(key, value, ext);
    hide CleanedFields, CleanedAt, Declared;
  }

  lemma SettledCopied(key: string, value: Json, ext: Extensions)
    requires Settled(key)
    ensures CleanedAt(key, value, ext) == value
  {
  }

  // A value with an annotation in it that only a schema-bearing keyword would lose.
  function NotedUnder(t: string): Json {
    Wrapped(t, Obj(map["description" := Null]))
  }

  function Wrapped(t: string, schema: Json): Json {
    match HoldingOf(t)
    case Named => Obj(map["p" := schema])
    case List => Arr([schema])
    case _ => schema
  }

  // An unsettled target gives an object whose second cleaning differs from its first.
  lemma UnsettledTarget(key: string, ext: Extensions)
    requires Declared(ext) && key in ext.target && ext.target[key] != key && !Settled(ext.target[key])
    ensures exists node :: !CleansOnce(node, ext)
  {
    var t := ext.target[key];
    var value := NotedUnder(t);
    var once := map[t := value];
    OneExtension(key, value, ext);
    SecondCleaningDiffers(t, ext);
    hide NotedUnder, HoldingOf, CleanedFields;
    LoneNotNullable(t, value);
    assert Cleaned(Obj(map[key := value]), ext) == Obj(once);
    assert !CleansOnce(Obj(map[key := value]), ext);
  }

  lemma LoneNotNullable(t: string, value: Json)
    ensures !IsNullableRef(map[t := value])
  {
    assert "$ref" != "nullable";
  }

  lemma SecondCleaningDiffers(t: string, ext: Extensions)
    requires Declared(ext) && !Settled(t)
    ensures Cleaned(Obj(map[t := NotedUnder(t)]), ext) != Obj(map[t := NotedUnder(t)])
  {
    hide Supplied, CleanedAt, Ordered, LastOnto;
    var once := map[t := NotedUnder(t)];
    if t in ext.target || VendorKey(t) || t in STRIPPED_KEYS {
      DroppedOrReplaced(t, NotedUnder(t), ext);
    } else {
      LoneKeyword(t, NotedUnder(t), ext);
      NotedIsStripped(ext);
      UnderKeyword(t, Obj(map["description" := Null]), ext);
    }
    assert t in once;
    assert CleanedFields(once, ext) != once;
    hide CleanedFields;
    LoneFoldDiffers(t, CleanedFields(once, ext));
  }

  // A fold gives a choice of two, which no object of that kind is.
  lemma LoneFoldDiffers(t: string, out: map<string, Json>)
    requires out != map[t := NotedUnder(t)]
    ensures FoldNullableRef(out) != Obj(map[t := NotedUnder(t)])
  {
    var lone := map[t := NotedUnder(t)];
    if IsNullableRef(out) {
      assert "anyOf" in FoldNullableRef(out).fields && |FoldNullableRef(out).fields["anyOf"].items| == 2;
      assert t in lone && lone[t] == NotedUnder(t);
      assert "anyOf" in lone ==> |NotedUnder(t).items| == 1;
    }
  }

  // A schema-bearing keyword does not shield what is inside it from a cleaning.
  lemma UnderKeyword(t: string, schema: Json, ext: Extensions)
    requires HoldingOf(t) != Plain && Cleaned(schema, ext) != schema
    ensures CleanedAt(t, Wrapped(t, schema), ext) != Wrapped(t, schema)
  {
    match HoldingOf(t)
    case Named =>
      CleanedNamed(t, schema, ext);
      assert Obj(map["p" := Cleaned(schema, ext)]).fields["p"] != schema;
    case List => CleanedList(schema, ext);
    case _ =>
  }

  lemma CleanedNamed(t: string, schema: Json, ext: Extensions)
    requires HoldingOf(t) == Named
    ensures CleanedAt(t, Obj(map["p" := schema]), ext) == Obj(map["p" := Cleaned(schema, ext)])
  {
    hide Cleaned;
    assert CleanedAt(t, Obj(map["p" := schema]), ext).fields == map["p" := Cleaned(schema, ext)];
  }

  lemma CleanedList(schema: Json, ext: Extensions)
    ensures Cleaned(Arr([schema]), ext) == Arr([Cleaned(schema, ext)])
  {
    assert CleanedItems([schema], ext) == [Cleaned(schema, ext)];
  }

  lemma DroppedOrReplaced(t: string, value: Json, ext: Extensions)
    requires Declared(ext) && (t in ext.target || VendorKey(t) || t in STRIPPED_KEYS)
    ensures t !in CleanedFields(map[t := value], ext)
  {
  }

  lemma OneExtension(key: string, value: Json, ext: Extensions)
    requires Declared(ext) && key in ext.target && ext.target[key] != key
    ensures CleanedFields(map[key := value], ext) == map[ext.target[key] := value]
  {
    hide LastOnto, Ordered, CleanedAt;
    var fields := map[key := value];
    var t := ext.target[key];
    forall u ensures SpelledBy(fields, ext, u) == if u == t then {key} else {} {
    }
    LastIsSpelling(fields, ext, t);
    assert LastOnto(ext.order(fields), ext.target, t) == key;
    assert Supplied(fields, ext) == map[t := value];
  }

  lemma NotedIsStripped(ext: Extensions)
    requires Declared(ext)
    ensures Cleaned(Obj(map["description" := Null]), ext) != Obj(map["description" := Null])
  {
    var fields := map["description" := Null];
    DroppedOrReplaced("description", Null, ext);
    FoldAddsOnlyAnyOf(CleanedFields(fields, ext), "description");
  }

  lemma FoldAddsOnlyAnyOf(fields: map<string, Json>, key: string)
    requires key !in fields && key != "anyOf"
    ensures key !in FoldNullableRef(fields).fields
  {
  }
}
