/** Two merges of two documents, as the cutter makes them, at which a definition does not keep its meaning. */
module Losses {
  import opened Wrappers
  import opened JsonTree
  import opened References
  import opened Reachability
  import opened Cleaning
  import opened Closures
  import opened Namespacing
  import opened Merging
  import opened Resolving
  import opened Twins
  import opened Acceptance
  import opened Meaning

  // ----- a source whose definitions conflict with nothing

  lemma ListingOf(names: set<string>) returns (order: seq<string>)
    ensures Lists(order, names)
  {
    if names == {} {
      order := [];
    } else {
      var name :| name in names;
      var rest := ListingOf(names - {name});
      ListsMore(rest, names - {name}, name);
      assert names - {name} + {name} == names;
      order := rest + [name];
    }
  }

  lemma NothingRenamed(order: seq<string>, closure: Schemas)
    requires Lists(order, closure.Keys)
    ensures Holds(order, closure, map[], closure)
  {
    hide Rewrite;
    var renamed := Renamed(order, closure, map[]);
    forall key ensures key in renamed <==> key in closure { RenamedKeys(order, closure, map[], key); }
    forall key | key in renamed ensures renamed[key] == closure[key] {
      var name := RenamedValue(order, closure, map[], key);
      RewriteNothingAt(closure[name]);
    }
    assert renamed == closure;
  }

  lemma UnconflictedLayer(layer: Layer, source: Source, wanted: set<string>, before: Schemas, ext: Extensions)
    requires layer.tag == source.tag && layer.roots == wanted != {} && layer.rename == map[]
    requires IsClosure(layer.defs, source.available, wanted, before.Keys, ext) && Agreeing(before, layer.defs)
    ensures LayerBuilt(layer, source, wanted, before, before + layer.defs, ext)
  {
    hide IsClosure, AsCompared, Holds, Lists;
    var order := ListingOf(layer.defs.Keys);
    NothingRenamed(order, layer.defs);
    assert Differing(layer.defs, before) == {};
  }

  // A document with one definition: a closure of it alone.
  lemma LoneClosure(name: string, schema: Json, merged: set<string>, ext: Extensions)
    requires Cleaned(schema, ext) == schema && Refs(schema) == {}
    ensures IsClosure(map[name := schema], map[name := schema], {name}, merged, ext)
  {
    hide Cleaned, Refs;
    var available := map[name := schema];
    var g := CleanGraph(available, ext);
    assert name in available && available[name] == schema;
    RootReachable(g, {name}, name);
    forall other | Reachable(g, {name}, other) ensures other == name { ReachableIsLeast(g, {name}, {name}, other); }
  }

  // ----- a definition that nothing kept in its own document reaches

  const REF_TO_X := Obj(map["$ref" := RefTo("X")])

  // The first document forbids what the second refers to.
  const APART := [Source("a", map["X" := Bool(false)]), Source("b", map["B" := REF_TO_X])]
  const ROOTS_APART: map<nat, set<string>> := map[1 := {"B"}]
  const WITH_HOLE: Schemas := map["B" := REF_TO_X, "X" := Obj(map[])]
  const LAYERS_APART := [Layer("a", {}, map[], map[]), Layer("b", {"B"}, WITH_HOLE, map[])]
  const STAGES_APART: seq<Schemas> := [map[], map[], WITH_HOLE]

  lemma RefToX(ext: Extensions)
    requires Declared(ext)
    ensures Cleaned(REF_TO_X, ext) == REF_TO_X && Refs(REF_TO_X) == {"X"}
  {
    LoneKeywordCopied("$ref", RefTo("X"), ext);
    var fields := map["$ref" := RefTo("X")];
    assert "$ref" in fields && IsSchemaRef("$ref", RefTo("X")) && RefName(RefTo("X")) == "X";
    assert forall key :: key in fields ==> RefsAt(key, fields[key]) == {"X"};
  }

  lemma ReachedApart(ext: Extensions, name: string)
    requires Declared(ext)
    ensures Reachable(CleanGraph(APART[1].available, ext), {"B"}, name) <==> name == "B" || name == "X"
  {
    hide Cleaned, Refs, Declared;
    var g := CleanGraph(APART[1].available, ext);
    RefToX(ext);
    assert "B" in APART[1].available && g["B"] == {"X"};
    RootReachable(g, {"B"}, "B");
    ReachableStep(g, {"B"}, "B", "X");
    if Reachable(g, {"B"}, name) { ReachableIsLeast(g, {"B"}, {"B", "X"}, name); }
  }

  lemma WantedApart()
    ensures Wanted(APART, ROOTS_APART, None, 0) == {} && Wanted(APART, ROOTS_APART, None, 1) == {"B"}
  {
  }

  lemma HoleIsClosed(ext: Extensions)
    requires Declared(ext)
    ensures IsClosure(WITH_HOLE, APART[1].available, {"B"}, {}, ext)
  {
    hide Cleaned, Refs, Declared, CleanGraph, Reachable;
    RefToX(ext);
    forall name ensures Reachable(CleanGraph(APART[1].available, ext), {"B"}, name) <==> name == "B" || name == "X" {
      ReachedApart(ext, name);
    }
    assert "B" in APART[1].available && "X" !in APART[1].available;
  }

  lemma HoleLaid(ext: Extensions)
    requires Declared(ext)
    ensures LayerBuilt(LAYERS_APART[1], APART[1], {"B"}, STAGES_APART[1], STAGES_APART[2], ext)
  {
    hide IsClosure, Declared, AsCompared;
    HoleIsClosed(ext);
    var none: Schemas := map[];
    assert none.Keys == {} && none + WITH_HOLE == WITH_HOLE;
    UnconflictedLayer(LAYERS_APART[1], APART[1], {"B"}, none, ext);
  }

  lemma ApartIsBuilt(ext: Extensions)
    requires Declared(ext)
    ensures Built(LAYERS_APART, STAGES_APART, APART, ROOTS_APART, None, ext) && NamesFree(LAYERS_APART)
  {
    hide LayerBuilt, Declared;
    WantedApart();
    HoleLaid(ext);
    var none: Schemas := map[];
    SkippedBuilt(LAYERS_APART[0], APART[0], none, ext);
  }

  /**
   The name is stubbed although the earlier document defines it, and the definition that refers to it accepts every
   value where the documents allow none.
   */
  lemma UnreachedDefinitionLost(ext: Extensions, k: nat, v: Json, o: Validator)
    requires Declared(ext) && Sane(o) && k > 0
    ensures Built(LAYERS_APART, STAGES_APART, APART, ROOTS_APART, None, ext) && NamesFree(LAYERS_APART)
    ensures StubbedBy(STAGES_APART, APART, ROOTS_APART, None, ext, 1, "X") && "X" in APART[0].available
    ensures !HandedOn(APART, ROOTS_APART, None, ext, 1, "X")
    ensures Accepts(k, STAGES_APART[2]["B"], v, Whole(STAGES_APART[2]), o, Standard)
    ensures !Accepts(k, APART[1].available["B"], v, Env(VendorFinder(APART), 1), o, Vendor(ext))
  {
    hide Cleaned, Refs, Declared, Sane, Built, NamesFree, Accepts, StubbedBy, HandedOn;
    ApartIsBuilt(ext);
    NotHandedOn(ext);
    var merged, meant := Whole(WITH_HOLE), Env(VendorFinder(APART), 1);
    RefAccepts(k, RefTo("X"), v, merged, o);
    HoleAccepts(k, v, o);
    RefMeant(ext);
    RefObjectAccepts(k, map["$ref" := RefTo("X")], v, meant, o, Vendor(ext));
    ForbiddenMeant(k, v, o, ext);
  }

  lemma NotHandedOn(ext: Extensions)
    requires Declared(ext)
    ensures StubbedBy(STAGES_APART, APART, ROOTS_APART, None, ext, 1, "X") && "X" in APART[0].available
    ensures !HandedOn(APART, ROOTS_APART, None, ext, 1, "X")
  {
    hide Cleaned, Refs, Declared, CleanGraph, Reachable;
    WantedApart();
    ReachedApart(ext, "X");
    NothingReached(CleanGraph(APART[0].available, ext), "X");
    assert Definer(APART, 1, "X") == Some(0);
  }

  lemma HoleAccepts(k: nat, v: Json, o: Validator)
    requires Sane(o)
    ensures TargetAccepts(k, RefTo("X"), v, Whole(WITH_HOLE), o, Standard)
  {
    hide Accepts, Sane;
    assert IsSchemaRef("$ref", RefTo("X")) && RefName(RefTo("X")) == "X";
    assert "X" in WITH_HOLE && WITH_HOLE["X"] == Obj(map[]);
    if k > 0 { EmptyAccepts(k - 1, v, Env(Whole(WITH_HOLE).find, 0), o); }
  }

  lemma RefMeant(ext: Extensions)
    requires Declared(ext)
    ensures var seen := Seen(map["$ref" := RefTo("X")], Vendor(ext));
            "$ref" in seen && seen["$ref"] == RefTo("X") && !IsNullableRef(seen)
  {
    var fields := map["$ref" := RefTo("X")];
    KeptKeyword("$ref", ext);
    PlainSeen(fields, ext);
    LoneNotNullable("$ref", RefTo("X"));
    assert "$ref" in fields && fields["$ref"] == RefTo("X");
  }

  lemma ForbiddenMeant(k: nat, v: Json, o: Validator, ext: Extensions)
    requires k > 0
    ensures !TargetAccepts(k, RefTo("X"), v, Env(VendorFinder(APART), 1), o, Vendor(ext))
  {
    assert IsSchemaRef("$ref", RefTo("X")) && RefName(RefTo("X")) == "X";
    assert "X" in APART[0].available && "X" !in APART[1].available;
    assert Definer(APART, 1, "X") == Some(0);
    assert APART[0].available["X"] == Bool(false);
    assert Meant(APART, 1, "X") == Some((Bool(false), 0));
  }

  // ----- `true` and 1

  const TRUE_ONLY := Obj(map["enum" := Arr([Bool(true)])])
  const ONE_ONLY := Obj(map["enum" := Arr([Num(1.0)])])

  const TWINS := [Source("a", map["E" := TRUE_ONLY]), Source("b", map["E" := ONE_ONLY])]
  const ROOTS_TWINS: map<nat, set<string>> := map[0 := {"E"}, 1 := {"E"}]
  const LAYERS_TWINS := [Layer("a", {"E"}, map["E" := TRUE_ONLY], map[]),
                         Layer("b", {"E"}, map["E" := ONE_ONLY], map[])]
  const STAGES_TWINS: seq<Schemas> := [map[], map["E" := TRUE_ONLY], map["E" := ONE_ONLY]]

  lemma EnumsClean(value: Json, ext: Extensions)
    requires Declared(ext) && (value == Bool(true) || value == Num(1.0))
    ensures var schema := Obj(map["enum" := Arr([value])]); Cleaned(schema, ext) == schema && Refs(schema) == {}
  {
    LoneKeywordCopied("enum", Arr([value]), ext);
    assert Refs(Arr([value])) == {};
  }

  lemma FirstTwin(ext: Extensions)
    requires Declared(ext)
    ensures LayerBuilt(LAYERS_TWINS[0], TWINS[0], {"E"}, STAGES_TWINS[0], STAGES_TWINS[1], ext)
  {
    hide Cleaned, Refs, Declared, IsClosure, AsCompared;
    EnumsClean(Bool(true), ext);
    var none: Schemas := map[];
    LoneClosure("E", TRUE_ONLY, none.Keys, ext);
    UnconflictedLayer(LAYERS_TWINS[0], TWINS[0], {"E"}, none, ext);
    assert none + map["E" := TRUE_ONLY] == STAGES_TWINS[1];
  }

  lemma SecondTwin(ext: Extensions)
    requires Declared(ext)
    ensures LayerBuilt(LAYERS_TWINS[1], TWINS[1], {"E"}, STAGES_TWINS[1], STAGES_TWINS[2], ext)
  {
    hide Cleaned, Refs, Declared, IsClosure, AsCompared;
    EnumsClean(Num(1.0), ext);
    LoneClosure("E", ONE_ONLY, STAGES_TWINS[1].Keys, ext);
    OneIsTrue();
    UnconflictedLayer(LAYERS_TWINS[1], TWINS[1], {"E"}, STAGES_TWINS[1], ext);
    assert STAGES_TWINS[1] + map["E" := ONE_ONLY] == STAGES_TWINS[2];
  }

  lemma TwinsAreBuilt(ext: Extensions)
    requires Declared(ext)
    ensures Built(LAYERS_TWINS, STAGES_TWINS, TWINS, ROOTS_TWINS, None, ext) && NamesFree(LAYERS_TWINS)
  {
    hide LayerBuilt, Declared;
    assert Wanted(TWINS, ROOTS_TWINS, None, 0) == {"E"} == Wanted(TWINS, ROOTS_TWINS, None, 1);
    FirstTwin(ext);
    SecondTwin(ext);
  }

  lemma TwinsDiffer()
    ensures !Identical(LAYERS_TWINS)
  {
    hide Rewrite;
    RewriteNothingAt(TRUE_ONLY);
    RewriteNothingAt(ONE_ONLY);
    var fields := map["enum" := Arr([Bool(true)])];
    assert "enum" in fields && TRUE_ONLY.fields["enum"].items[0] != ONE_ONLY.fields["enum"].items[0];
    assert "E" in LAYERS_TWINS[0].defs && "E" in LAYERS_TWINS[1].defs;
    assert NewName("E", LAYERS_TWINS[0].rename) == NewName("E", LAYERS_TWINS[1].rename);
  }

  /**
   The second definition is laid over the first without a conflict. For every conforming validator the merged one
   accepts 1 and not `true`, and the first document's own accepted `true` and not 1.
   */
  lemma BooleanLosesMeaning(ext: Extensions, k: nat, o: Validator)
    requires Declared(ext) && Sane(o) && Conforming(o)
    ensures Built(LAYERS_TWINS, STAGES_TWINS, TWINS, ROOTS_TWINS, None, ext)
    ensures NamesFree(LAYERS_TWINS) && Traceable(LAYERS_TWINS, TWINS, ROOTS_TWINS, None, ext, 0, "E")
    ensures !Identical(LAYERS_TWINS)
    ensures !Accepts(k, STAGES_TWINS[2]["E"], Bool(true), Whole(STAGES_TWINS[2]), o, Standard)
    ensures Accepts(k, TWINS[0].available["E"], Bool(true), Env(VendorFinder(TWINS), 0), o, Vendor(ext))
  {
    hide Cleaned, Refs, Declared, Sane, Built, NamesFree, Accepts, Rewrite, AsCompared, Traceable, Identical;
    TwinsAreBuilt(ext);
    TwinTraceable(ext);
    TwinsDiffer();
    var others := map["enum" := Arr([Num(1.0)])];
    PlainRef();
    PlainAccepts(k, others, Bool(true), Whole(STAGES_TWINS[2]), o);
    VendorEnum(k, ext, o);
  }

  // The definition refers to nothing and holds no reference in its data.
  lemma TwinTraceable(ext: Extensions)
    requires Declared(ext)
    ensures Traceable(LAYERS_TWINS, TWINS, ROOTS_TWINS, None, ext, 0, "E")
  {
    hide Asked, Cleaned, Refs, Declared, LeavesFree;
    EnumsClean(Bool(true), ext);
    LeavesFreeOfNothing(TRUE_ONLY);
    var among: set<(nat, string)> := {(0, "E")};
    assert "E" in TWINS[0].available && Meant(TWINS, 0, "E") == Some((TRUE_ONLY, 0));
    assert TracedAmong(LAYERS_TWINS, TWINS, ROOTS_TWINS, None, ext, among);
    assert (0, "E") in among;
  }

  lemma VendorEnum(k: nat, ext: Extensions, o: Validator)
    requires Declared(ext) && Conforming(o)
    ensures Accepts(k, TRUE_ONLY, Bool(true), Env(VendorFinder(TWINS), 0), o, Vendor(ext))
  {
    hide Accepts, Declared;
    var fields := map["enum" := Arr([Bool(true)])];
    KeptKeyword("enum", ext);
    PlainSeen(fields, ext);
    PlainRef();
    assert LeafKeywords(fields) == fields;
    ObjectAccepts(k, fields, Bool(true), Env(VendorFinder(TWINS), 0), o, Vendor(ext));
  }
}
