/**
 What of a schema is annotation, and where schemas stand in a schema, both as the OpenAPI Specification has them
 (version 3.0.3, section 4.7.24) and apart from the cutter's own lists; and what cleaning leaves there.
 */
module Positions {
  import opened JsonTree
  import opened Cleaning

  // A keyword that no validator heeds.
  predicate Annotation(key: string) {
    || key == "description" || key == "summary" || key == "title" || key == "example" || key == "examples"
    || key == "externalDocs" || HasPrefix(key, "x-")
  }

  // The node and every schema in it.
  ghost function SchemasIn(node: Json): set<Json>
    decreases node, 0
  {
    {node} + match node
             case Obj(fields) => set key, s | key in fields.Keys && s in SchemasAt(key, fields[key]) :: s
             case Arr(items) => set i, s | 0 <= i < |items| && s in SchemasIn(items[i]) :: s
             case _ => {}
  }

  // The schemas under a keyword: named, in a list, or one.
  ghost function SchemasAt(key: string, value: Json): set<Json>
    decreases value, 1
  {
    if key == "properties" || key == "patternProperties" then
      if value.Obj? then set name, s | name in value.fields.Keys && s in SchemasIn(value.fields[name]) :: s else {}
    else if key == "allOf" || key == "anyOf" || key == "oneOf" then if value.Arr? then SchemasIn(value) else {}
    else if key == "items" || key == "additionalProperties" || key == "not" then SchemasIn(value)
    else {}
  }

  lemma InSchemas(node: Json, s: Json)
    ensures s in SchemasIn(node)
       <==> || s == node
            || (node.Obj? && exists key :: key in node.fields && s in SchemasAt(key, node.fields[key]))
            || (node.Arr? && exists i :: 0 <= i < |node.items| && s in SchemasIn(node.items[i]))
  {
    hide SchemasAt;
  }

  // An annotation that stands in the object and is not mapped to a keyword.
  predicate Shows(s: Json, name: string, ext: Extensions) {
    s.Obj? && name in s.fields && Annotation(name) && name !in ext.target
  }

  ghost predicate ShownIn(node: Json, name: string, ext: Extensions) {
    exists s :: s in SchemasIn(node) && Shows(s, name, ext)
  }

  ghost predicate ShownAt(key: string, value: Json, name: string, ext: Extensions) {
    exists s :: s in SchemasAt(key, value) && Shows(s, name, ext)
  }

  lemma DroppedIsAnnotation(key: string, ext: Extensions)
    ensures Dropped(key, ext) <==> Annotation(key) && key !in ext.target
    ensures Kept(key, ext) <==> !Annotation(key) && key !in ext.target
  {
    assert HasPrefix(key, "x-") <==> VendorKey(key) by {
      if VendorKey(key) { assert key[..2] == [key[0], key[1]] == "x-"; }
      if HasPrefix(key, "x-") { assert key[0] == key[..2][0] && key[1] == key[..2][1]; }
    }
  }

  lemma NothingUnderPlain(key: string, value: Json)
    ensures Annotation(key) || HoldingOf(key) == Plain ==> SchemasAt(key, value) == {}
  {
    hide SchemasIn;
    if HasPrefix(key, "x-") { assert key[0] == key[..2][0] == 'x'; }
  }

  /** The stripped ledger, exactly: the annotations that stand in some schema of the node and are not mapped. */
  lemma {:induction false} StrippedExactly(node: Json, ext: Extensions, name: string)
    requires Declared(ext)
    ensures name in Stripped(node, ext) <==> ShownIn(node, name, ext)
    decreases node, 0
  {
    hide Declared, StrippedAt, SchemasIn, SchemasAt, Shows, Dropped;
    forall s { InSchemas(node, s); }
    match node
    case Obj(fields) =>
      forall key | key in fields
        ensures name in StrippedAt(key, fields[key], ext) <==> ShownAt(key, fields[key], name, ext)
      {
        StrippedAtExactly(key, fields[key], ext, name);
      }
      DroppedIsAnnotation(name, ext);
      assert Shows(node, name, ext) <==> name in fields && Dropped(name, ext) by { ShowsItself(fields, name, ext); }
      ObjectShows(fields, ext, name);
    case Arr(items) =>
      forall i | 0 <= i < |items| ensures name in Stripped(items[i], ext) <==> ShownIn(items[i], name, ext) {
        StrippedExactly(items[i], ext, name);
      }
      ItemsShow(items, ext, name);
    case _ => LeafShowsNothing(node, name, ext);
  }

  lemma ShowsItself(fields: map<string, Json>, name: string, ext: Extensions)
    ensures Shows(Obj(fields), name, ext) <==> name in fields && Annotation(name) && name !in ext.target
  {
  }

  lemma LeafShowsNothing(node: Json, name: string, ext: Extensions)
    requires !node.Obj? && !node.Arr?
    ensures !ShownIn(node, name, ext)
  {
  }

  lemma ObjectShows(fields: map<string, Json>, ext: Extensions, name: string)
    ensures ShownIn(Obj(fields), name, ext)
       <==> Shows(Obj(fields), name, ext) || exists key :: key in fields && ShownAt(key, fields[key], name, ext)
  {
    hide SchemasIn, SchemasAt, Shows;
    if ShownIn(Obj(fields), name, ext) {
      var s :| s in SchemasIn(Obj(fields)) && Shows(s, name, ext);
      InSchemas(Obj(fields), s);
    }
    if key :| key in fields && ShownAt(key, fields[key], name, ext) {
      var s :| s in SchemasAt(key, fields[key]) && Shows(s, name, ext);
      InSchemas(Obj(fields), s);
    }
    InSchemas(Obj(fields), Obj(fields));
  }

  lemma ItemsShow(items: seq<Json>, ext: Extensions, name: string)
    ensures ShownIn(Arr(items), name, ext) <==> exists i :: 0 <= i < |items| && ShownIn(items[i], name, ext)
  {
    hide SchemasIn, SchemasAt;
    if ShownIn(Arr(items), name, ext) {
      var s :| s in SchemasIn(Arr(items)) && Shows(s, name, ext);
      InSchemas(Arr(items), s);
    }
    if i :| 0 <= i < |items| && ShownIn(items[i], name, ext) {
      var s :| s in SchemasIn(items[i]) && Shows(s, name, ext);
      InSchemas(Arr(items), s);
    }
  }

  lemma {:induction false} StrippedAtExactly(key: string, value: Json, ext: Extensions, name: string)
    requires Declared(ext)
    ensures name in StrippedAt(key, value, ext) <==> ShownAt(key, value, name, ext)
    decreases value, 1
  {
    hide Declared, Stripped, SchemasIn, Shows, Annotation;
    DroppedIsAnnotation(key, ext);
    NothingUnderPlain(key, value);
    MappedIsPlain(key, ext);
    match HoldingOf(key)
    case Named =>
      if value.Obj? {
        forall n | n in value.fields
          ensures name in Stripped(value.fields[n], ext) <==> ShownIn(value.fields[n], name, ext)
        {
          StrippedExactly(value.fields[n], ext, name);
        }
        NamedShow(key, value.fields, name, ext);
      }
    case Single => StrippedExactly(value, ext, name);
    case List => if value.Arr? { StrippedExactly(value, ext, name); }
    case Plain =>
  }

  lemma MappedIsPlain(key: string, ext: Extensions)
    requires Declared(ext)
    ensures key in ext.target ==> HoldingOf(key) == Plain && Annotation(key)
  {
    DroppedIsAnnotation(key, ext.(target := map[]));
  }

  lemma NamedShow(key: string, schemas: map<string, Json>, name: string, ext: Extensions)
    requires HoldingOf(key) == Named
    ensures ShownAt(key, Obj(schemas), name, ext) <==> exists n :: n in schemas && ShownIn(schemas[n], name, ext)
  {
    hide SchemasIn, Shows;
    if n :| n in schemas && ShownIn(schemas[n], name, ext) {
      var s :| s in SchemasIn(schemas[n]) && Shows(s, name, ext);
      assert s in SchemasAt(key, Obj(schemas));
    }
  }

  // ----- what is left

  ghost predicate Bare(s: Json) {
    s.Obj? ==> forall key :: key in s.fields ==> !Annotation(key)
  }

  ghost predicate AllBare(node: Json) {
    forall s :: s in SchemasIn(node) ==> Bare(s)
  }

  ghost predicate AllBareAt(key: string, value: Json) {
    forall s :: s in SchemasAt(key, value) ==> Bare(s)
  }

  /** No annotation is left in any schema of a cleaned schema, when every extension stands for a plain keyword. */
  lemma {:induction false} NoAnnotationLeft(node: Json, ext: Extensions)
    requires Declared(ext) && TargetsSettled(ext)
    ensures AllBare(Cleaned(node, ext))
    decreases node, 1
  {
    hide CleanedFields, SchemasIn, SchemasAt, Bare, Declared, TargetsSettled;
    match node
    case Arr(items) =>
      forall i | 0 <= i < |items| ensures AllBare(Cleaned(items[i], ext)) { NoAnnotationLeft(items[i], ext); }
      ItemsBare(CleanedItems(items, ext));
    case Obj(fields) =>
      FieldsBare(fields, ext);
      if IsNullableRef(CleanedFields(fields, ext)) { FoldedBare(CleanedFields(fields, ext)["$ref"]); }
    case _ => LeafBare(node);
  }

  lemma ItemsBare(items: seq<Json>)
    requires forall i :: 0 <= i < |items| ==> AllBare(items[i])
    ensures AllBare(Arr(items))
  {
    hide SchemasIn, Bare;
    forall s | s in SchemasIn(Arr(items)) ensures Bare(s) {
      InSchemas(Arr(items), s);
      OnlyObjectsShow(Arr(items));
    }
  }

  lemma OnlyObjectsShow(s: Json)
    requires !s.Obj?
    ensures Bare(s)
  {
  }

  lemma LeafBare(node: Json)
    requires !node.Obj? && !node.Arr?
    ensures AllBare(node)
  {
  }

  lemma FoldedBare(ref: Json)
    requires ref.Str?
    ensures AllBare(Obj(map["anyOf" := Arr([Obj(map["$ref" := ref]), NULL_BRANCH])]))
  {
    hide SchemasIn, SchemasAt, Bare;
    var branches := [Obj(map["$ref" := ref]), NULL_BRANCH];
    LoneBare("$ref", ref);
    LoneBare("enum", Arr([Null]));
    ItemsBare(branches);
    ChoiceBare(branches);
  }

  lemma LoneBare(key: string, value: Json)
    requires key == "$ref" || key == "enum"
    ensures AllBare(Obj(map[key := value]))
  {
    hide SchemasIn;
    SettledIsBare(key, value);
    ObjectBare(map[key := value]);
  }

  lemma ChoiceBare(branches: seq<Json>)
    requires AllBare(Arr(branches))
    ensures AllBare(Obj(map["anyOf" := Arr(branches)]))
  {
    hide SchemasIn;
    DroppedIsAnnotation("anyOf", Extensions(map[], fields => []));
    assert SchemasAt("anyOf", Arr(branches)) == SchemasIn(Arr(branches));
    ObjectBare(map["anyOf" := Arr(branches)]);
  }

  lemma {:induction false} FieldsBare(fields: map<string, Json>, ext: Extensions)
    requires Declared(ext) && TargetsSettled(ext)
    ensures AllBare(Obj(CleanedFields(fields, ext)))
    decreases Obj(fields), 0
  {
    hide SchemasIn, SchemasAt, CleanedFields, Bare, CleanedAt, Supplied, Declared, TargetsSettled;
    var out := CleanedFields(fields, ext);
    forall key | key in out ensures !Annotation(key) && AllBareAt(key, out[key]) {
      CleanedMember(fields, ext, key);
      if key in Supplied(fields, ext) {
        SuppliedIsSettled(fields, ext, key);
        SettledIsBare(key, out[key]);
      } else {
        DroppedIsAnnotation(key, ext);
        MemberBare(key, fields[key], ext);
      }
    }
    ObjectBare(out);
  }

  lemma SettledIsBare(key: string, value: Json)
    requires Settled(key)
    ensures !Annotation(key) && AllBareAt(key, value)
  {
    NothingUnderPlain(key, value);
    DroppedIsAnnotation(key, Extensions(map[], fields => []));
  }

  lemma ObjectBare(fields: map<string, Json>)
    requires forall key :: key in fields ==> !Annotation(key) && AllBareAt(key, fields[key])
    ensures AllBare(Obj(fields))
  {
    hide SchemasIn, SchemasAt, Annotation;
    forall s | s in SchemasIn(Obj(fields)) ensures Bare(s) { InSchemas(Obj(fields), s); }
  }

  lemma {:induction false} MemberBare(key: string, value: Json, ext: Extensions)
    requires Declared(ext) && TargetsSettled(ext)
    ensures AllBareAt(key, CleanedAt(key, value, ext))
    decreases value, 2
  {
    hide SchemasIn, Bare, Declared, TargetsSettled, Cleaned;
    var out := CleanedAt(key, value, ext);
    NothingUnderPlain(key, out);
    match HoldingOf(key)
    case Named =>
      if value.Obj? {
        forall s | s in SchemasAt(key, out) ensures Bare(s) {
          var n :| n in out.fields.Keys && s in SchemasIn(out.fields[n]);
          NoAnnotationLeft(value.fields[n], ext);
        }
      }
    case Single => NoAnnotationLeft(value, ext);
    case List => if value.Arr? { NoAnnotationLeft(value, ext); }
    case Plain =>
  }
}
