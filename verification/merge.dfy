/** The cross-source merge (`_merge_schemas`) and its meaning: a linker for schemas. */
module Merging {
  import opened Wrappers
  import opened JsonTree
  import opened References
  import opened Reachability
  import opened Cleaning
  import opened Closures
  import opened Namespacing

  // One loaded document, as far as the merge reads it: its label and its `components.schemas`.
  datatype Source = Source(tag: string, available: Schemas)

  // What the merge makes of one source: its roots, its closure, and its renames. A source nothing wants has none.
  datatype Layer = Layer(tag: string, roots: set<string>, defs: Schemas, rename: map<string, string>)

  datatype Merge = Merge(schemas: Schemas, namespaced: map<string, string>, renames: map<nat, map<string, string>>)

  datatype CutError = NoSources | PartUndefined | NameTaken(name: string) | ErrorSchemaUndefined(name: string)

  // ----- meaning

  ghost predicate Defined(layers: seq<Layer>, i: nat, name: string) {
    i < |layers| && exists j :: 0 <= j <= i && name in layers[j].defs
  }

  // Where the merge finds a name: in the source's own closure, else in the first earlier one's, holes included.
  ghost function Owner(layers: seq<Layer>, i: nat, name: string): (j: nat)
    requires Defined(layers, i, name)
    ensures j <= i && name in layers[j].defs
    ensures name !in layers[i].defs ==> forall m :: 0 <= m < j ==> name !in layers[m].defs
  {
    if name in layers[i].defs then i else FirstOwner(layers, i, name)
  }

  ghost function FirstOwner(layers: seq<Layer>, i: nat, name: string): (j: nat)
    requires Defined(layers, i, name)
    ensures j <= i && name in layers[j].defs
    ensures forall m :: 0 <= m < j ==> name !in layers[m].defs
    decreases i
  {
    if i > 0 && Defined(layers, i - 1, name) then FirstOwner(layers, i - 1, name) else i
  }

  /**
   What a node of source `i` says, with references followed to depth `k` as the merge resolves them: each reference is
   replaced by what the closures hold under its name. A name that no closure holds says nothing.
   */
  ghost function UnfoldAt(k: nat, node: Json, layers: seq<Layer>, i: nat): Json
    decreases k, node, 0
  {
    match node
    case Obj(fields) => Obj(map key | key in fields.Keys :: UnfoldMemberAt(k, key, fields[key], layers, i))
    case Arr(items) => Arr(seq(|items|, n requires 0 <= n < |items| => UnfoldAt(k, items[n], layers, i)))
    case _ => node
  }

  ghost function UnfoldMemberAt(k: nat, key: string, value: Json, layers: seq<Layer>, i: nat): Json
    decreases k, value, 1
  {
    if !IsSchemaRef(key, value) then UnfoldAt(k, value, layers, i)
    else if k == 0 then Null
    else if Defined(layers, i, RefName(value)) then
      var j := Owner(layers, i, RefName(value));
      UnfoldAt(k - 1, layers[j].defs[RefName(value)], layers, j)
    else Obj(map[])
  }

  // The same in one name space.
  ghost function UnfoldIn(k: nat, node: Json, schemas: Schemas): Json
    decreases k, node, 0
  {
    match node
    case Obj(fields) => Obj(map key | key in fields.Keys :: UnfoldMemberIn(k, key, fields[key], schemas))
    case Arr(items) => Arr(seq(|items|, n requires 0 <= n < |items| => UnfoldIn(k, items[n], schemas)))
    case _ => node
  }

  ghost function UnfoldMemberIn(k: nat, key: string, value: Json, schemas: Schemas): Json
    decreases k, value, 1
  {
    if !IsSchemaRef(key, value) then UnfoldIn(k, value, schemas)
    else if k == 0 then Null
    else if RefName(value) in schemas then UnfoldIn(k - 1, schemas[RefName(value)], schemas)
    else Obj(map[])
  }

  // ----- what links the layers to the merged schemas

  ghost predicate Mentions(layer: Layer, name: string) {
    name in layer.roots || name in layer.defs || exists from :: from in layer.defs && name in Refs(layer.defs[from])
  }

  // No source mentions a name that the merge gave to a definition of its own or of an earlier source.
  ghost predicate NamesFree(layers: seq<Layer>) {
    forall i, j, name :: 0 <= i <= j < |layers| && name in layers[i].rename ==>
        !Mentions(layers[j], layers[i].rename[name])
  }

  // Every definition is found under its new name, its references rewritten.
  ghost predicate Placed(layer: Layer, schemas: Schemas) {
    forall name :: name in layer.defs ==>
      && NewName(name, layer.rename) in schemas
      && PyEqual(schemas[NewName(name, layer.rename)], Rewrite(layer.defs[name], layer.rename))
  }

  // Only a definition that an earlier source has too is renamed, and every mentioned name is defined by now.
  ghost predicate Resolved(layers: seq<Layer>, i: nat)
    requires i < |layers|
  {
    && (forall name :: name in layers[i].rename ==>
          && name in layers[i].defs && layers[i].rename[name] == layers[i].tag + "." + name
          && exists j :: 0 <= j < i && name in layers[j].defs)
    && (forall name :: Mentions(layers[i], name) ==> Defined(layers, i, name))
  }

  ghost predicate Originates(layers: seq<Layer>, key: string) {
    exists i, name :: 0 <= i < |layers| && name in layers[i].defs && key == NewName(name, layers[i].rename)
  }

  ghost predicate Linked(layers: seq<Layer>, schemas: Schemas) {
    && (forall i :: 0 <= i < |layers| ==> Placed(layers[i], schemas) && Resolved(layers, i))
    && (forall key :: key in schemas ==> Originates(layers, key))
  }

  // ----- the meaning is preserved

  // A node of source `i` and its counterpart in the merged name space say the same at every depth.
  lemma {:induction false} UnfoldAlike(k: nat, a: Json, b: Json, layers: seq<Layer>, i: nat, schemas: Schemas)
    requires Linked(layers, schemas) && i < |layers|
    requires PyEqual(Rewrite(a, layers[i].rename), b)
    requires forall name :: name in Refs(a) ==> Defined(layers, i, name)
    ensures PyEqual(UnfoldAt(k, a, layers, i), UnfoldIn(k, b, schemas))
    decreases k, a, 0
  {
    hide Linked, Defined, PyEqual, Refs, RefsAt, UnfoldMemberAt, UnfoldMemberIn, RewriteAt;
    var rewritten := Rewrite(a, layers[i].rename);
    match a
    case Obj(fields) =>
      PyEqualObj(rewritten, b);
      forall key | key in fields
        ensures PyEqual(UnfoldMemberAt(k, key, fields[key], layers, i), UnfoldMemberIn(k, key, b.fields[key], schemas))
      {
        assert PyEqual(rewritten.fields[key], b.fields[key]);
        MemberRefs(a, key);
        UnfoldMembersAlike(k, key, fields[key], b.fields[key], layers, i, schemas);
      }
      PyEqualIfFields(UnfoldAt(k, a, layers, i), UnfoldIn(k, b, schemas));
    case Arr(items) =>
      PyEqualArr(rewritten, b);
      forall n | 0 <= n < |items|
        ensures PyEqual(UnfoldAt(k, items[n], layers, i), UnfoldIn(k, b.items[n], schemas))
      {
        assert PyEqual(rewritten.items[n], b.items[n]);
        ItemRefs(a, n);
        UnfoldAlike(k, items[n], b.items[n], layers, i, schemas);
      }
      PyEqualIfItems(UnfoldAt(k, a, layers, i), UnfoldIn(k, b, schemas));
    case _ => UnfoldLeaf(k, a, b, layers, i, schemas);
  }

  lemma UnfoldLeaf(k: nat, a: Json, b: Json, layers: seq<Layer>, i: nat, schemas: Schemas)
    requires i < |layers| && !a.Obj? && !a.Arr? && PyEqual(Rewrite(a, layers[i].rename), b)
    ensures PyEqual(UnfoldAt(k, a, layers, i), UnfoldIn(k, b, schemas))
  {
  }

  lemma {:induction false} UnfoldMembersAlike(k: nat, key: string, a: Json, b: Json, layers: seq<Layer>, i: nat,
                                              schemas: Schemas)
    requires Linked(layers, schemas) && i < |layers|
    requires PyEqual(RewriteAt(key, a, layers[i].rename), b)
    requires forall name :: name in RefsAt(key, a) ==> Defined(layers, i, name)
    ensures PyEqual(UnfoldMemberAt(k, key, a, layers, i), UnfoldMemberIn(k, key, b, schemas))
    decreases k, a, 1
  {
    hide Linked, Defined;
    if IsSchemaRef(key, a) {
      var name := RefName(a);
      assert b == RefTo(NewName(name, layers[i].rename));
      assert IsSchemaRef(key, b) && RefName(b) == NewName(name, layers[i].rename);
      assert name in RefsAt(key, a);
      if k > 0 {
        var j := Owner(layers, i, name);
        OwnerPlaced(layers, i, schemas, name);
        UnfoldAlike(k - 1, layers[j].defs[name], schemas[RefName(b)], layers, j, schemas);
      }
    } else if key == "$ref" && a.Str? {
    } else {
      UnfoldAlike(k, a, b, layers, i, schemas);
    }
  }

  // A reference's new name holds the definition its owner gives it.
  lemma OwnerPlaced(layers: seq<Layer>, i: nat, schemas: Schemas, name: string)
    requires Linked(layers, schemas) && Defined(layers, i, name)
    ensures var j := Owner(layers, i, name); var key := NewName(name, layers[i].rename);
            && key in schemas && PyEqual(Rewrite(layers[j].defs[name], layers[j].rename), schemas[key])
            && forall ref :: ref in Refs(layers[j].defs[name]) ==> Defined(layers, j, ref)
  {
    hide Rewrite, Refs, AsCompared;
    var j := Owner(layers, i, name);
    assert Placed(layers[j], schemas) && Resolved(layers, j) && Resolved(layers, i);
    assert NewName(name, layers[i].rename) == NewName(name, layers[j].rename);
    forall ref | ref in Refs(layers[j].defs[name]) ensures Defined(layers, j, ref) {
      assert Mentions(layers[j], ref);
    }
  }

  // For every source and every definition in its closure: the merged document says of it what the source says.
  lemma MergePreservesMeaning(k: nat, layers: seq<Layer>, i: nat, schemas: Schemas, name: string)
    requires Linked(layers, schemas) && i < |layers| && name in layers[i].defs
    ensures var key := NewName(name, layers[i].rename);
            key in schemas && PyEqual(UnfoldAt(k, layers[i].defs[name], layers, i), UnfoldIn(k, schemas[key], schemas))
  {
    hide Rewrite, Refs, AsCompared, UnfoldAt, UnfoldIn;
    assert Placed(layers[i], schemas) && Resolved(layers, i);
    forall ref | ref in Refs(layers[i].defs[name]) ensures Defined(layers, i, ref) {
      assert Mentions(layers[i], ref);
    }
    UnfoldAlike(k, layers[i].defs[name], schemas[NewName(name, layers[i].rename)], layers, i, schemas);
  }

  // The same for a kept operation once its references follow the source's renames.
  lemma OperationPreserved(k: nat, operation: Json, layers: seq<Layer>, i: nat, schemas: Schemas)
    requires Linked(layers, schemas) && i < |layers| && Refs(operation) <= layers[i].roots
    ensures PyEqual(UnfoldAt(k, operation, layers, i), UnfoldIn(k, Rewrite(operation, layers[i].rename), schemas))
    ensures Refs(Rewrite(operation, layers[i].rename)) <= schemas.Keys
  {
    hide Rewrite, Refs, AsCompared, UnfoldAt, UnfoldIn;
    assert Resolved(layers, i);
    forall ref | ref in Refs(operation) ensures Defined(layers, i, ref) {
      assert Mentions(layers[i], ref);
    }
    UnfoldAlike(k, operation, Rewrite(operation, layers[i].rename), layers, i, schemas);
    forall ref | ref in Refs(Rewrite(operation, layers[i].rename)) ensures ref in schemas {
      RewriteRefs(operation, layers[i].rename, ref);
      var name :| name in Refs(operation) && ref == NewName(name, layers[i].rename);
      OwnerPlaced(layers, i, schemas, name);
    }
  }

  // ----- one source at a time

  // What the merge does with one source, given the schemas merged so far.
  ghost predicate LayerBuilt(layer: Layer, source: Source, wanted: set<string>, before: Schemas, after: Schemas,
                             ext: Extensions) {
    && layer.tag == source.tag && layer.roots == wanted
    && if wanted == {} then layer.defs == map[] && layer.rename == map[] && after == before
       else
         && IsClosure(layer.defs, source.available, wanted, before.Keys, ext)
         && Namespaces(layer.rename, layer.defs, before, layer.tag)
         && (Unspelled(layer.defs, before, layer.tag) ==>
               forall name :: name in layer.rename <==> Tainted(layer.defs, before, name))
         && Overlaid(layer, before, after)
  }

  // `renamed` laid over the merged schemas, where the two agree.
  ghost predicate Overlaid(layer: Layer, before: Schemas, after: Schemas) {
    exists order, renamed ::
      && Lists(order, layer.defs.Keys) && Holds(order, layer.defs, layer.rename, renamed)
      && Agreeing(before, renamed) && after == before + renamed
  }

  ghost predicate Agreeing(before: Schemas, renamed: Schemas) {
    forall key :: key in renamed && key in before ==> PyEqual(before[key], renamed[key])
  }

  lemma EmptyLayer(layers: seq<Layer>, schemas: Schemas, tag: string)
    requires Linked(layers, schemas)
    ensures Linked(layers + [Layer(tag, {}, map[], map[])], schemas)
  {
    hide Refs, Rewrite, AsCompared, Linked, Resolved, Originates, Placed;
    var empty := Layer(tag, {}, map[], map[]);
    var all := layers + [empty];
    forall i | 0 <= i < |all| ensures Placed(all[i], schemas) && Resolved(all, i) {
      if i < |layers| {
        LinkedGives(layers, schemas, i);
        ResolvedStays(layers, empty, i);
      } else {
        EmptyResolved(layers, empty, schemas);
      }
    }
    forall key | key in schemas ensures Originates(all, key) {
      LinkedOrigin(layers, schemas, key);
      OriginStays(layers, empty, key);
    }
    LinkedIf(all, schemas);
  }

  lemma EmptyResolved(layers: seq<Layer>, empty: Layer, schemas: Schemas)
    requires empty.roots == {} && empty.defs == map[] && empty.rename == map[]
    ensures Placed(empty, schemas) && Resolved(layers + [empty], |layers|)
  {
    hide Refs, Rewrite, AsCompared;
    assert (layers + [empty])[|layers|] == empty;
  }

  lemma ResolvedStays(layers: seq<Layer>, layer: Layer, i: nat)
    requires i < |layers| && Resolved(layers, i)
    ensures Resolved(layers + [layer], i)
  {
    hide Mentions;
    var all := layers + [layer];
    assert forall j :: 0 <= j <= i ==> all[j] == layers[j];
    forall name | name in all[i].rename ensures exists j :: 0 <= j < i && name in all[j].defs {
      var j :| 0 <= j < i && name in layers[j].defs;
      assert name in all[j].defs;
    }
    forall name | Mentions(all[i], name) ensures Defined(all, i, name) {
      assert Mentions(layers[i], name);
      var j :| 0 <= j <= i && name in layers[j].defs;
      assert name in all[j].defs;
    }
  }

  lemma OriginStays(layers: seq<Layer>, layer: Layer, key: string)
    requires Originates(layers, key)
    ensures Originates(layers + [layer], key)
  {
    var i, name :| 0 <= i < |layers| && name in layers[i].defs && key == NewName(name, layers[i].rename);
    var all := layers + [layer];
    assert name in all[i].defs && key == NewName(name, all[i].rename);
  }

  // A mentioned name that the merged schemas hold is an earlier source's own name, never a namespaced one.
  lemma MergedNameDefined(layers: seq<Layer>, layer: Layer, schemas: Schemas, name: string) returns (j: nat)
    requires Linked(layers, schemas) && NamesFree(layers + [layer]) && Mentions(layer, name) && name in schemas
    ensures j < |layers| && name in layers[j].defs
  {
    hide Mentions, Placed;
    var all := layers + [layer];
    assert Originates(layers, name);
    var i, was :| 0 <= i < |layers| && was in layers[i].defs && name == NewName(was, layers[i].rename);
    assert Resolved(layers, i) && all[i] == layers[i] && all[|layers|] == layer;
    NotHandedOut(all, i, |layers|, name);
    j := i;
  }

  lemma NotHandedOut(layers: seq<Layer>, i: nat, j: nat, name: string)
    requires NamesFree(layers) && i <= j < |layers| && Mentions(layers[j], name)
    ensures forall was :: was in layers[i].rename ==> layers[i].rename[was] != name
  {
    hide Mentions;
  }

  lemma NamesStayFree(layers: seq<Layer>, layer: Layer)
    requires NamesFree(layers + [layer])
    ensures NamesFree(layers)
  {
    hide Mentions;
    var all := layers + [layer];
    forall i, j, name | 0 <= i <= j < |layers| && name in layers[i].rename
      ensures !Mentions(layers[j], layers[i].rename[name])
    {
      assert all[i] == layers[i] && all[j] == layers[j];
    }
  }

  // With no source mentioning a name handed out before, merging one keeps everything linked.
  lemma LayerLinks(layers: seq<Layer>, layer: Layer, source: Source, wanted: set<string>,
                   before: Schemas, after: Schemas, ext: Extensions)
    requires Linked(layers, before) && NamesFree(layers + [layer])
    requires LayerBuilt(layer, source, wanted, before, after, ext)
    ensures Linked(layers + [layer], after)
  {
    hide Refs, Rewrite, AsCompared, IsClosure, Tainted, Linked, Unspelled, Uncrowded, Mentions, Namespaces, Holds,
        Agreeing, NamesFree;
    if wanted == {} {
      EmptyLayer(layers, before, layer.tag);
    } else {
      var order, renamed :| Lists(order, layer.defs.Keys) && Holds(order, layer.defs, layer.rename, renamed)
        && Agreeing(before, renamed) && after == before + renamed;
      var all := layers + [layer];
      LayerUncrowded(layers, layer);
      forall i | 0 <= i < |all| ensures Placed(all[i], after) && Resolved(all, i) {
        if i < |layers| {
          LinkedGives(layers, before, i);
          ResolvedStays(layers, layer, i);
          PlacedStays(layers[i], before, renamed);
        } else {
          LayerPlaced(order, layer, before, renamed);
          LayerResolved(layers, layer, source, wanted, before, ext);
        }
      }
      forall key | key in after ensures Originates(all, key) {
        if key in renamed {
          LayerOriginates(layers, layer, order, renamed, key);
        } else {
          LinkedOrigin(layers, before, key);
          OriginStays(layers, layer, key);
        }
      }
      LinkedIf(all, after);
    }
  }

  lemma LinkedGives(layers: seq<Layer>, schemas: Schemas, i: nat)
    requires Linked(layers, schemas) && i < |layers|
    ensures Placed(layers[i], schemas) && Resolved(layers, i)
  {
  }

  lemma LinkedOrigin(layers: seq<Layer>, schemas: Schemas, key: string)
    requires Linked(layers, schemas) && key in schemas
    ensures Originates(layers, key)
  {
  }

  lemma LinkedIf(layers: seq<Layer>, schemas: Schemas)
    requires forall i :: 0 <= i < |layers| ==> Placed(layers[i], schemas) && Resolved(layers, i)
    requires forall key :: key in schemas ==> Originates(layers, key)
    ensures Linked(layers, schemas)
  {
  }

  lemma LayerUncrowded(layers: seq<Layer>, layer: Layer)
    requires NamesFree(layers + [layer])
    ensures Uncrowded(layer.defs, layer.rename)
  {
    var all := layers + [layer];
    forall name | name in layer.rename ensures layer.rename[name] !in layer.defs {
      assert all[|layers|] == layer && !Mentions(all[|layers|], all[|layers|].rename[name]);
    }
  }

  lemma PlacedStays(layer: Layer, before: Schemas, renamed: Schemas)
    requires Placed(layer, before) && Agreeing(before, renamed)
    ensures Placed(layer, before + renamed)
  {
    hide Rewrite, AsCompared;
  }

  lemma LayerPlaced(order: seq<string>, layer: Layer, before: Schemas, renamed: Schemas)
    requires Lists(order, layer.defs.Keys) && Holds(order, layer.defs, layer.rename, renamed)
    requires Uncrowded(layer.defs, layer.rename) && Namespaces(layer.rename, layer.defs, before, layer.tag)
    ensures Placed(layer, before + renamed)
  {
    hide Rewrite, AsCompared, Renamed, Lists, Uncrowded, Namespaces;
    forall name | name in layer.defs
      ensures NewName(name, layer.rename) in renamed
      ensures renamed[NewName(name, layer.rename)] == Rewrite(layer.defs[name], layer.rename)
    {
      RenamedDefinition(layer.tag, order, layer.defs, layer.rename, before, name);
    }
  }

  lemma LayerOriginates(layers: seq<Layer>, layer: Layer, order: seq<string>, renamed: Schemas, key: string)
    requires Lists(order, layer.defs.Keys) && Holds(order, layer.defs, layer.rename, renamed) && key in renamed
    ensures Originates(layers + [layer], key)
  {
    hide Rewrite, Renamed;
    var all := layers + [layer];
    RenamedKeys(order, layer.defs, layer.rename, key);
    var name :| name in order && key == NewName(name, layer.rename);
    assert name in all[|layers|].defs && key == NewName(name, all[|layers|].rename);
  }

  lemma LayerResolved(layers: seq<Layer>, layer: Layer, source: Source, wanted: set<string>, before: Schemas,
                      ext: Extensions)
    requires Linked(layers, before) && NamesFree(layers + [layer]) && layer.roots == wanted
    requires IsClosure(layer.defs, source.available, wanted, before.Keys, ext)
    requires Namespaces(layer.rename, layer.defs, before, layer.tag)
    ensures Resolved(layers + [layer], |layers|)
  {
    hide Refs, Linked, NamesFree, IsClosure;
    var all := layers + [layer];
    forall name | name in layer.rename
      ensures name in layer.defs && layer.rename[name] == layer.tag + "." + name
      ensures exists j :: 0 <= j < |layers| && name in all[j].defs
    {
      var j := MergedNameDefined(layers, layer, before, name);
      assert name in all[j].defs;
    }
    forall name | Mentions(layer, name) ensures Defined(all, |layers|, name) {
      if name in layer.defs {
        assert name in all[|layers|].defs;
      } else {
        ClosureIsClosed(layer.defs, source.available, wanted, before.Keys, ext, name);
        var j := MergedNameDefined(layers, layer, before, name);
        assert name in all[j].defs;
      }
    }
  }

  // Only a namespaced name can clash: an unrenamed one would have conflicted before.
  lemma TakenIsNamespaced(order: seq<string>, closure: Schemas, rename: map<string, string>, renamed: Schemas,
                          schemas: Schemas, key: string)
    requires Lists(order, closure.Keys) && Holds(order, closure, rename, renamed)
    requires Conflicts(closure, rename, renamed, schemas) == {}
    requires key in renamed && key in schemas && !PyEqual(schemas[key], renamed[key])
    ensures key in rename.Values
  {
    hide Rewrite, AsCompared, Renamed;
    RenamedKeys(order, closure, rename, key);
    var name :| name in order && key == NewName(name, rename);
    assert name !in Conflicts(closure, rename, renamed, schemas);
  }

  // A name that the source gave one of its definitions stands in the merged schemas already, defined otherwise.
  ghost predicate Taken(source: Source, wanted: set<string>, before: Schemas, name: string, ext: Extensions) {
    exists layer, order, renamed :: TakenBy(source, wanted, before, name, ext, layer, order, renamed)
  }

  ghost predicate TakenBy(source: Source, wanted: set<string>, before: Schemas, name: string, ext: Extensions,
                          layer: Layer, order: seq<string>, renamed: Schemas) {
    && layer.tag == source.tag && IsClosure(layer.defs, source.available, wanted, before.Keys, ext)
    && Namespaces(layer.rename, layer.defs, before, layer.tag)
    && Lists(order, layer.defs.Keys) && Holds(order, layer.defs, layer.rename, renamed)
    && Conflicts(layer.defs, layer.rename, renamed, before) == {}
    && name in layer.rename.Values && name in renamed && name in before && !PyEqual(before[name], renamed[name])
  }

  /** One source: its closure, its namespacing, and its definitions laid over the merged ones, unless two clash. */
  method MergeSource(cut: Cut, source: Source, wanted: set<string>, schemas: Schemas)
    returns (taken: Option<string>, layer: Layer, after: Schemas)
    requires wanted != {} && cut.Valid()
    modifies cut
    ensures taken.None? ==> LayerBuilt(layer, source, wanted, schemas, after, cut.ext)
    ensures cut.stubbed == StubbedAfter(old(cut.stubbed), source.available, layer.defs.Keys)
    ensures cut.stripped == StrippedAfter(old(cut.stripped), source.available, layer.defs.Keys, cut.ext)
    ensures taken.Some? ==> Taken(source, wanted, schemas, taken.value, cut.ext)
  {
    hide IsClosure, Refs, Rewrite, AsCompared, Tainted, Unspelled, Namespaces, Holds, Lists, StubbedAfter,
        StrippedAfter, Differing, Conflicts;
    var order, closure := cut.Closure(source.available, wanted, schemas.Keys);
    var rename, renamed := Namespace(source.tag, order, closure, schemas);
    layer := Layer(source.tag, wanted, closure, rename);
    taken, after := Overlay(schemas, renamed);
    if taken.Some? {
      TakenIsNamespaced(order, closure, rename, renamed, schemas, taken.value);
      assert TakenBy(source, wanted, schemas, taken.value, cut.ext, layer, order, renamed);
    }
  }

  /** Lay the renamed definitions over the merged ones, stopping at one that is there already and differs. */
  method Overlay(schemas: Schemas, renamed: Schemas) returns (taken: Option<string>, after: Schemas)
    ensures taken.None? ==> Agreeing(schemas, renamed) && after == schemas + renamed
    ensures taken.Some? ==>
              && taken.value in schemas && taken.value in renamed
              && !PyEqual(schemas[taken.value], renamed[taken.value])
  {
    hide PyEqual;
    after := schemas;
    var left := renamed.Keys;
    while left != {}
      invariant left <= renamed.Keys
      invariant after.Keys == schemas.Keys + (renamed.Keys - left)
      invariant forall key :: key in after ==>
                  after[key] == if key in renamed && key !in left then renamed[key] else schemas[key]
      invariant forall key :: key in renamed && key !in left && key in schemas ==> PyEqual(schemas[key], renamed[key])
    {
      var key :| key in left;
      if key in after && !PyEqual(after[key], renamed[key]) {
        return Some(key), after;
      }
      after := after[key := renamed[key]];
      left := left - {key};
    }
    taken := None;
    assert after == schemas + renamed;
  }

  // ----- every source, in declaration order

  // A source's roots, with the declared error schema where the source defines it.
  function Wanted(sources: seq<Source>, roots: map<nat, set<string>>, errorSchema: Option<string>, i: nat): set<string>
    requires i < |sources|
  {
    (if i in roots then roots[i] else {})
    + (if errorSchema.Some? && errorSchema.value in sources[i].available then {errorSchema.value} else {})
  }

  // `stages[i]` is what had been merged before source `i`; the layers say what each source added.
  ghost predicate Built(layers: seq<Layer>, stages: seq<Schemas>, sources: seq<Source>, roots: map<nat, set<string>>,
                        errorSchema: Option<string>, ext: Extensions)
  {
    && |layers| <= |sources| && |stages| == |layers| + 1 && stages[0] == map[]
    && forall i :: 0 <= i < |layers| ==>
         LayerBuilt(layers[i], sources[i], Wanted(sources, roots, errorSchema, i), stages[i], stages[i + 1], ext)
  }

  // The renames and the namespaced ledger, as the layers have them.
  ghost predicate Recorded(layers: seq<Layer>, renames: map<nat, map<string, string>>,
                           namespaced: map<string, string>) {
    && (forall i :: i in renames ==> i < |layers| && renames[i] == layers[i].rename)
    && (forall i :: 0 <= i < |layers| && i !in renames ==> layers[i].rename == map[])
    && (forall i, key :: 0 <= i < |layers| && key in layers[i].rename.Values ==> key in namespaced)
    && (forall key :: key in namespaced ==> NamespacedBy(layers, key, namespaced[key]))
  }

  // Every reference of an operation root is followed, every definition placed: the whole linker.
  lemma {:induction false} BuiltLinks(layers: seq<Layer>, stages: seq<Schemas>, sources: seq<Source>,
                                      roots: map<nat, set<string>>, errorSchema: Option<string>, ext: Extensions)
    requires Built(layers, stages, sources, roots, errorSchema, ext) && NamesFree(layers)
    ensures Linked(layers, stages[|layers|])
    decreases |layers|
  {
    hide LayerBuilt, NamesFree, Linked;
    if layers == [] {
      NothingLinked();
    } else {
      var n := |layers| - 1;
      var front := layers[..n];
      assert layers == front + [layers[n]];
      NamesStayFree(front, layers[n]);
      BuiltLinks(front, stages[..n + 1], sources, roots, errorSchema, ext);
      LayerLinks(front, layers[n], sources[n], Wanted(sources, roots, errorSchema, n), stages[n], stages[n + 1], ext);
    }
  }

  // ----- no reference dangles, however names are spelled

  ghost predicate Shut(schemas: Schemas) {
    forall key :: key in schemas ==> Refs(schemas[key]) <= schemas.Keys
  }

  // Whatever stands in the renamed closure is a definition rewritten, under its own new name.
  lemma {:induction false} RenamedValue(order: seq<string>, closure: Schemas, rename: map<string, string>, key: string)
    returns (name: string)
    requires forall n :: n in order ==> n in closure
    requires key in Renamed(order, closure, rename)
    ensures name in closure && key == NewName(name, rename)
    ensures Renamed(order, closure, rename)[key] == Rewrite(closure[name], rename)
  {
    hide Rewrite;
    var front, last := order[..|order| - 1], order[|order| - 1];
    if key == NewName(last, rename) { name := last; } else { name := RenamedValue(front, closure, rename, key); }
  }

  // A name the source mentions is found after it: its own under the new name, any other where it was.
  lemma MentionedIsFound(layer: Layer, source: Source, wanted: set<string>, before: Schemas, after: Schemas,
                         ext: Extensions,
                         name: string)
    requires LayerBuilt(layer, source, wanted, before, after, ext) && wanted != {}
    requires name in wanted || exists from :: from in layer.defs && name in Refs(layer.defs[from])
    ensures NewName(name, layer.rename) in after
  {
    hide Refs, Rewrite, AsCompared, Tainted, Unspelled, Agreeing, IsClosure, Renamed;
    var order, renamed :| Lists(order, layer.defs.Keys) && Holds(order, layer.defs, layer.rename, renamed)
      && Agreeing(before, renamed) && after == before + renamed;
    ClosureIsClosed(layer.defs, source.available, wanted, before.Keys, ext, name);
    if name in layer.defs { RenamedKeys(order, layer.defs, layer.rename, NewName(name, layer.rename)); }
  }

  lemma LayerShuts(layer: Layer, source: Source, wanted: set<string>, before: Schemas, after: Schemas, ext: Extensions)
    requires LayerBuilt(layer, source, wanted, before, after, ext) && Shut(before)
    ensures Shut(after) && before.Keys <= after.Keys
  {
    if wanted != {} {
      hide Refs, Rewrite, AsCompared, Tainted, Unspelled, Agreeing, IsClosure, Renamed, Namespaces;
      var order, renamed :| Lists(order, layer.defs.Keys) && Holds(order, layer.defs, layer.rename, renamed)
        && Agreeing(before, renamed) && after == before + renamed;
      forall key, ref | key in after && ref in Refs(after[key]) ensures ref in after {
        if key in renamed {
          var name := RenamedValue(order, layer.defs, layer.rename, key);
          RewriteRefs(layer.defs[name], layer.rename, ref);
          var was :| was in Refs(layer.defs[name]) && ref == NewName(was, layer.rename);
          MentionedIsFound(layer, source, wanted, before, after, ext, was);
        } else {
          assert key in before && after[key] == before[key];
        }
      }
    }
  }

  /** At every stage of every merge the accumulated schemas are closed under references. */
  lemma {:induction false} MergedIsClosed(layers: seq<Layer>, stages: seq<Schemas>, sources: seq<Source>,
                                          roots: map<nat, set<string>>, errorSchema: Option<string>, ext: Extensions,
                                          n: nat)
    requires Built(layers, stages, sources, roots, errorSchema, ext) && n <= |layers|
    ensures Shut(stages[n])
    ensures n > 0 ==> stages[n - 1].Keys <= stages[n].Keys
  {
    hide LayerBuilt;
    if n > 0 {
      MergedIsClosed(layers, stages, sources, roots, errorSchema, ext, n - 1);
      var wanted := Wanted(sources, roots, errorSchema, n - 1);
      assert LayerBuilt(layers[n - 1], sources[n - 1], wanted, stages[n - 1], stages[n - 1 + 1], ext);
      LayerShuts(layers[n - 1], sources[n - 1], wanted, stages[n - 1], stages[n], ext);
    }
  }

  lemma {:induction false} StagesGrow(layers: seq<Layer>, stages: seq<Schemas>, sources: seq<Source>,
                                      roots: map<nat, set<string>>, errorSchema: Option<string>, ext: Extensions,
                                      m: nat, n: nat)
    requires Built(layers, stages, sources, roots, errorSchema, ext) && m <= n <= |layers|
    ensures stages[m].Keys <= stages[n].Keys
  {
    hide Built;
    if m < n {
      StagesGrow(layers, stages, sources, roots, errorSchema, ext, m, n - 1);
      MergedIsClosed(layers, stages, sources, roots, errorSchema, ext, n);
    }
  }

  /** Nor does a reference of a kept operation, once it follows its source's renames. */
  lemma OperationIsClosed(operation: Json, layers: seq<Layer>, stages: seq<Schemas>, sources: seq<Source>,
                          roots: map<nat, set<string>>, errorSchema: Option<string>, ext: Extensions, i: nat)
    requires Built(layers, stages, sources, roots, errorSchema, ext) && i < |layers|
        && Refs(operation) <= layers[i].roots
    ensures Refs(Rewrite(operation, layers[i].rename)) <= stages[|layers|].Keys
  {
    hide Refs, Rewrite, IsClosure, Overlaid, Tainted, Unspelled;
    var wanted := Wanted(sources, roots, errorSchema, i);
    assert LayerBuilt(layers[i], sources[i], wanted, stages[i], stages[i + 1], ext);
    StagesGrow(layers, stages, sources, roots, errorSchema, ext, i + 1, |layers|);
    forall ref | ref in Refs(Rewrite(operation, layers[i].rename)) ensures ref in stages[|layers|] {
      RewriteRefs(operation, layers[i].rename, ref);
      var name :| name in Refs(operation) && ref == NewName(name, layers[i].rename);
      MentionedIsFound(layers[i], sources[i], wanted, stages[i], stages[i + 1], ext, name);
    }
  }

  // Whatever stands in the merged schemas is some layer's definition, rewritten, under its own new name.
  lemma {:induction false} StageOrigin(layers: seq<Layer>, stages: seq<Schemas>, sources: seq<Source>,
                                       roots: map<nat, set<string>>, errorSchema: Option<string>, ext: Extensions,
                                       n: nat, key: string)
    returns (m: nat, name: string)
    requires Built(layers, stages, sources, roots, errorSchema, ext) && n <= |layers| && key in stages[n]
    ensures m < n && name in layers[m].defs && key == NewName(name, layers[m].rename)
    ensures stages[n][key] == Rewrite(layers[m].defs[name], layers[m].rename)
  {
    hide IsClosure, Namespaces, Unspelled, Tainted, Renamed, Rewrite, AsCompared;
    var layer := layers[n - 1];
    var wanted := Wanted(sources, roots, errorSchema, n - 1);
    assert LayerBuilt(layer, sources[n - 1], wanted, stages[n - 1], stages[n - 1 + 1], ext);
    hide Wanted;
    if wanted == {} {
      m, name := StageOrigin(layers, stages, sources, roots, errorSchema, ext, n - 1, key);
    } else {
      var order, renamed :| Lists(order, layer.defs.Keys) && Holds(order, layer.defs, layer.rename, renamed)
        && Agreeing(stages[n - 1], renamed) && stages[n] == stages[n - 1] + renamed;
      if key in renamed {
        m := n - 1;
        name := RenamedValue(order, layer.defs, layer.rename, key);
      } else {
        m, name := StageOrigin(layers, stages, sources, roots, errorSchema, ext, n - 1, key);
      }
    }
  }

  lemma RootsAreWanted(layers: seq<Layer>, stages: seq<Schemas>, sources: seq<Source>, roots: map<nat, set<string>>,
                       errorSchema: Option<string>, ext: Extensions, i: nat)
    requires Built(layers, stages, sources, roots, errorSchema, ext) && i < |layers|
    ensures layers[i].roots == Wanted(sources, roots, errorSchema, i)
  {
    hide IsClosure, Namespaces, Unspelled, Tainted, Overlaid, Wanted;
    assert LayerBuilt(layers[i], sources[i], Wanted(sources, roots, errorSchema, i), stages[i], stages[i + 1], ext);
  }

  // A source that defines the error schema has it in its closure, cleaned, and merged under its new name.
  ghost predicate ErrorSchemaLaid(layer: Layer, source: Source, schemas: Schemas, name: string, ext: Extensions)
    requires name in source.available
  {
    && name in layer.defs && layer.defs[name] == Cleaned(source.available[name], ext)
    && NewName(name, layer.rename) in schemas
  }

  /** And it stands under its own name too, whether this source was the first to bring it or an earlier one. */
  lemma ErrorSchemaStands(layers: seq<Layer>, stages: seq<Schemas>, sources: seq<Source>,
                          roots: map<nat, set<string>>, errorSchema: Option<string>, ext: Extensions, i: nat)
    requires Built(layers, stages, sources, roots, errorSchema, ext) && i < |layers|
    requires errorSchema.Some? && errorSchema.value in sources[i].available
    ensures errorSchema.value in stages[|layers|]
    ensures ErrorSchemaLaid(layers[i], sources[i], stages[|layers|], errorSchema.value, ext)
  {
    hide Refs, Cleaned, Overlaid, Unspelled, Tainted, CleanGraph;
    var name, wanted := errorSchema.value, Wanted(sources, roots, errorSchema, i);
    assert LayerBuilt(layers[i], sources[i], wanted, stages[i], stages[i + 1], ext);
    RootReachable(CleanGraph(sources[i].available, ext), wanted, name);
    assert name in layers[i].defs;
    MentionedIsFound(layers[i], sources[i], wanted, stages[i], stages[i + 1], ext, name);
    StagesGrow(layers, stages, sources, roots, errorSchema, ext, i, |layers|);
    StagesGrow(layers, stages, sources, roots, errorSchema, ext, i + 1, |layers|);
  }

  // ----- the ledgers of a merge

  ghost function AllStubbed(stubbed: set<string>, layers: seq<Layer>, sources: seq<Source>): set<string>
    requires |layers| <= |sources|
  {
    if layers == [] then stubbed
    else
      var n := |layers| - 1;
      StubbedAfter(AllStubbed(stubbed, layers[..n], sources), sources[n].available, layers[n].defs.Keys)
  }

  ghost function AllStripped(stripped: set<string>, layers: seq<Layer>, sources: seq<Source>,
                             ext: Extensions): set<string>
    requires |layers| <= |sources|
  {
    if layers == [] then stripped
    else
      var n := |layers| - 1;
      StrippedAfter(AllStripped(stripped, layers[..n], sources, ext), sources[n].available, layers[n].defs.Keys, ext)
  }

  lemma LedgersMoreLayers(stubbed: set<string>, stripped: set<string>, layers: seq<Layer>, layer: Layer,
                          sources: seq<Source>,
                          ext: Extensions)
    requires |layers| < |sources|
    ensures var all := layers + [layer]; var available := sources[|layers|].available;
            && AllStubbed(stubbed, all, sources)
               == StubbedAfter(AllStubbed(stubbed, layers, sources), available, layer.defs.Keys)
            && AllStripped(stripped, all, sources, ext)
               == StrippedAfter(AllStripped(stripped, layers, sources, ext), available, layer.defs.Keys, ext)
    ensures layer.defs == map[] ==>
              && AllStubbed(stubbed, layers + [layer], sources) == AllStubbed(stubbed, layers, sources)
              && AllStripped(stripped, layers + [layer], sources, ext) == AllStripped(stripped, layers, sources, ext)
  {
    hide Stripped;
    var all := layers + [layer];
    assert all[..|layers|] == layers && all[|layers|] == layer;
    assert layer.defs == map[] ==> layer.defs.Keys == {};
    LedgersStart(AllStubbed(stubbed, layers, sources), AllStripped(stripped, layers, sources, ext),
        sources[|layers|].available, ext);
  }

  lemma {:induction false} InAllStubbed(stubbed: set<string>, layers: seq<Layer>, sources: seq<Source>, name: string)
    requires |layers| <= |sources|
    ensures name in AllStubbed(stubbed, layers, sources)
       <==> name in stubbed || exists i :: 0 <= i < |layers| && name in layers[i].defs && name !in sources[i].available
  {
    if layers != [] {
      var n := |layers| - 1;
      var front := layers[..n];
      InAllStubbed(stubbed, front, sources, name);
      assert forall i :: 0 <= i < n ==> front[i] == layers[i];
    }
  }

  /** The stubs of the whole extract: what some source's roots reach, and neither it defines nor had been merged. */
  lemma StubbedAtItsStage(layers: seq<Layer>, stages: seq<Schemas>, sources: seq<Source>, roots: map<nat, set<string>>,
                       errorSchema: Option<string>, ext: Extensions, name: string)
    requires Built(layers, stages, sources, roots, errorSchema, ext)
    ensures name in AllStubbed({}, layers, sources)
       <==> exists i :: 0 <= i < |layers| && StubbedBy(stages, sources, roots, errorSchema, ext, i, name)
  {
    hide Refs, Cleaned, Overlaid, Tainted, Unspelled, Namespaces, CleanGraph, AllStubbed;
    InAllStubbed({}, layers, sources, name);
    forall i | 0 <= i < |layers|
      ensures name in layers[i].defs && name !in sources[i].available
         <==> StubbedBy(stages, sources, roots, errorSchema, ext, i, name)
    {
      var wanted := Wanted(sources, roots, errorSchema, i);
      assert LayerBuilt(layers[i], sources[i], wanted, stages[i], stages[i + 1], ext);
      hide Wanted;
      if wanted == {} { NothingReached(CleanGraph(sources[i].available, ext), name); }
    }
  }

  ghost predicate StubbedBy(stages: seq<Schemas>, sources: seq<Source>, roots: map<nat, set<string>>,
                            errorSchema: Option<string>,
                            ext: Extensions, i: nat, name: string)
    requires i < |sources| && i < |stages|
  {
    && Reachable(CleanGraph(sources[i].available, ext), Wanted(sources, roots, errorSchema, i), name)
    && name !in sources[i].available && name !in stages[i]
  }

  // ----- what later sources leave as it was

  // Definitions that are only added to, or laid over with ones Python finds equal.
  ghost predicate Keeps(before: Schemas, after: Schemas) {
    forall key :: key in before ==> key in after && PyEqual(before[key], after[key])
  }

  lemma {:induction false} StagesKeep(layers: seq<Layer>, stages: seq<Schemas>, sources: seq<Source>,
                                      roots: map<nat, set<string>>, errorSchema: Option<string>, ext: Extensions,
                                      m: nat, n: nat)
    requires Built(layers, stages, sources, roots, errorSchema, ext) && m <= n <= |layers|
    ensures Keeps(stages[m], stages[n])
  {
    hide LayerBuilt, AsCompared;
    if m < n {
      StagesKeep(layers, stages, sources, roots, errorSchema, ext, m, n - 1);
      assert LayerBuilt(layers[n - 1], sources[n - 1], Wanted(sources, roots, errorSchema, n - 1), stages[n - 1],
          stages[n - 1 + 1], ext);
      LayerKeeps(layers[n - 1], sources[n - 1], Wanted(sources, roots, errorSchema, n - 1), stages[n - 1], stages[n],
          ext);
    }
  }

  lemma LayerKeeps(layer: Layer, source: Source, wanted: set<string>, before: Schemas, after: Schemas, ext: Extensions)
    requires LayerBuilt(layer, source, wanted, before, after, ext)
    ensures Keeps(before, after)
  {
    hide AsCompared, IsClosure, Namespaces, Unspelled, Tainted, Holds;
  }

  // In a name space closed under references, what a node says survives whatever keeps its definitions.
  lemma {:induction false} UnfoldKept(k: nat, a: Json, b: Json, before: Schemas, after: Schemas)
    requires PyEqual(a, b) && Refs(a) <= before.Keys && Shut(before) && Keeps(before, after)
    ensures PyEqual(UnfoldIn(k, a, before), UnfoldIn(k, b, after))
    decreases k, a, 0
  {
    hide Shut, Keeps, PyEqual, Refs, RefsAt, UnfoldMemberIn;
    match a
    case Obj(fields) =>
      PyEqualObj(a, b);
      forall key | key in fields
        ensures PyEqual(UnfoldMemberIn(k, key, fields[key], before), UnfoldMemberIn(k, key, b.fields[key], after))
      {
        MemberRefs(a, key);
        UnfoldMemberKept(k, key, fields[key], b.fields[key], before, after);
      }
      PyEqualIfFields(UnfoldIn(k, a, before), UnfoldIn(k, b, after));
    case Arr(items) =>
      PyEqualArr(a, b);
      forall n | 0 <= n < |items|
        ensures PyEqual(UnfoldIn(k, items[n], before), UnfoldIn(k, b.items[n], after))
      {
        ItemRefs(a, n);
        UnfoldKept(k, items[n], b.items[n], before, after);
      }
      PyEqualIfItems(UnfoldIn(k, a, before), UnfoldIn(k, b, after));
    case _ => UnfoldLeafKept(k, a, b, before, after);
  }

  lemma UnfoldLeafKept(k: nat, a: Json, b: Json, before: Schemas, after: Schemas)
    requires !a.Obj? && !a.Arr? && PyEqual(a, b)
    ensures PyEqual(UnfoldIn(k, a, before), UnfoldIn(k, b, after))
  {
  }

  lemma {:induction false} UnfoldMemberKept(k: nat, key: string, a: Json, b: Json, before: Schemas, after: Schemas)
    requires PyEqual(a, b) && RefsAt(key, a) <= before.Keys && Shut(before) && Keeps(before, after)
    ensures PyEqual(UnfoldMemberIn(k, key, a, before), UnfoldMemberIn(k, key, b, after))
    decreases k, a, 1
  {
    if IsSchemaRef(key, a) {
      var name := RefName(a);
      assert name in RefsAt(key, a) && a == b;
      hide Refs, AsCompared;
      if k > 0 { UnfoldKept(k - 1, before[name], after[name], before, after); }
    } else {
      hide Refs;
      UnfoldKept(k, a, b, before, after);
    }
  }

  // What a node of a source says does not depend on the sources after it.
  lemma {:induction false} UnfoldEarlier(k: nat, node: Json, layers: seq<Layer>, n: nat, i: nat)
    requires i < n <= |layers|
    ensures UnfoldAt(k, node, layers[..n], i) == UnfoldAt(k, node, layers, i)
    decreases k, node, 0
  {
    hide UnfoldMemberAt;
    match node
    case Obj(fields) =>
      forall key | key in fields
        ensures UnfoldMemberAt(k, key, fields[key], layers[..n], i) == UnfoldMemberAt(k, key, fields[key], layers, i)
      {
        UnfoldMemberEarlier(k, key, fields[key], layers, n, i);
      }
      assert UnfoldAt(k, node, layers[..n], i).fields == UnfoldAt(k, node, layers, i).fields;
    case Arr(items) =>
      forall m | 0 <= m < |items|
        ensures UnfoldAt(k, items[m], layers[..n], i) == UnfoldAt(k, items[m], layers, i)
      {
        UnfoldEarlier(k, items[m], layers, n, i);
      }
      assert UnfoldAt(k, node, layers[..n], i).items == UnfoldAt(k, node, layers, i).items;
    case _ =>
  }

  lemma {:induction false} UnfoldMemberEarlier(k: nat, key: string, value: Json, layers: seq<Layer>, n: nat, i: nat)
    requires i < n <= |layers|
    ensures UnfoldMemberAt(k, key, value, layers[..n], i) == UnfoldMemberAt(k, key, value, layers, i)
    decreases k, value, 1
  {
    hide UnfoldAt;
    if !IsSchemaRef(key, value) {
      UnfoldEarlier(k, value, layers, n, i);
    } else if k > 0 {
      var name := RefName(value);
      OwnerEarlier(layers, n, i, name);
      if Defined(layers, i, name) {
        var j := Owner(layers, i, name);
        UnfoldEarlier(k - 1, layers[j].defs[name], layers, n, j);
      }
    }
  }

  lemma OwnerEarlier(layers: seq<Layer>, n: nat, i: nat, name: string)
    requires i < n <= |layers|
    ensures Defined(layers[..n], i, name) <==> Defined(layers, i, name)
    ensures Defined(layers, i, name) ==> Owner(layers[..n], i, name) == Owner(layers, i, name)
  {
    hide Owner;
    var front := layers[..n];
    assert forall j :: 0 <= j <= i ==> front[j] == layers[j];
    if Defined(layers, i, name) {
      var a, b := Owner(front, i, name), Owner(layers, i, name);
      OwnerIs(front, i, name);
      OwnerIs(layers, i, name);
    }
  }

  lemma OwnerIs(layers: seq<Layer>, i: nat, name: string)
    requires Defined(layers, i, name)
    ensures name in layers[i].defs ==> Owner(layers, i, name) == i
  {
  }

  lemma FrontBuilt(layers: seq<Layer>, stages: seq<Schemas>, sources: seq<Source>, roots: map<nat, set<string>>,
                   errorSchema: Option<string>, ext: Extensions, n: nat)
    requires Built(layers, stages, sources, roots, errorSchema, ext) && n <= |layers|
    ensures Built(layers[..n], stages[..n + 1], sources, roots, errorSchema, ext)
  {
    hide LayerBuilt;
  }

  // ----- the merge as a whole

  /**
   For every source, every definition its roots reach, and every depth, the merged document says under the
   definition's new name what the cleaned definition says with names as the merge resolves them, whatever sources come
   later.
   */
  lemma SourceSaysAsMerged(k: nat, layers: seq<Layer>, stages: seq<Schemas>, sources: seq<Source>,
                        roots: map<nat, set<string>>, errorSchema: Option<string>, ext: Extensions, i: nat,
                        name: string)
    requires Built(layers, stages, sources, roots, errorSchema, ext)
    requires i < |layers| && NamesFree(layers[..i + 1]) && name in sources[i].available
    requires Reachable(CleanGraph(sources[i].available, ext), Wanted(sources, roots, errorSchema, i), name)
    ensures var schemas := stages[|layers|];
            var key := NewName(name, layers[i].rename);
            && key in schemas
            && PyEqual(UnfoldAt(k, Cleaned(sources[i].available[name], ext), layers, i),
               UnfoldIn(k, schemas[key], schemas))
  {
    hide Cleaned, Refs, NamesFree, Linked, UnfoldAt, UnfoldIn, AsCompared, Overlaid, Unspelled, Namespaces, Keeps,
        Shut;
    var wanted := Wanted(sources, roots, errorSchema, i);
    assert LayerBuilt(layers[i], sources[i], wanted, stages[i], stages[i + 1], ext);
    if wanted == {} { NothingReached(CleanGraph(sources[i].available, ext), name); }
    var node, key := layers[i].defs[name], NewName(name, layers[i].rename);
    var front, early := layers[..i + 1], stages[i + 1];
    FrontBuilt(layers, stages, sources, roots, errorSchema, ext, i + 1);
    BuiltLinks(front, stages[..i + 2], sources, roots, errorSchema, ext);
    MergePreservesMeaning(k, front, i, early, name);
    UnfoldEarlier(k, node, layers, i + 1, i);
    KeptToTheEnd(k, early[key], layers, stages, sources, roots, errorSchema, ext, i + 1, key);
  }

  // A definition merged by stage `n` says the same at the end.
  lemma KeptToTheEnd(k: nat, node: Json, layers: seq<Layer>, stages: seq<Schemas>, sources: seq<Source>,
                     roots: map<nat, set<string>>, errorSchema: Option<string>, ext: Extensions, n: nat, key: string)
    requires Built(layers, stages, sources, roots, errorSchema, ext) && n <= |layers|
    requires key in stages[n] && node == stages[n][key]
    ensures key in stages[|layers|]
    ensures PyEqual(UnfoldIn(k, node, stages[n]), UnfoldIn(k, stages[|layers|][key], stages[|layers|]))
  {
    hide LayerBuilt, Refs, UnfoldIn, AsCompared;
    MergedIsClosed(layers, stages, sources, roots, errorSchema, ext, n);
    StagesKeep(layers, stages, sources, roots, errorSchema, ext, n, |layers|);
    UnfoldKept(k, node, stages[|layers|][key], stages[n], stages[|layers|]);
  }

  /** The same for a kept operation. */
  lemma OperationSaysAsMerged(k: nat, operation: Json, layers: seq<Layer>, stages: seq<Schemas>, sources: seq<Source>,
                             roots: map<nat, set<string>>, errorSchema: Option<string>, ext: Extensions, i: nat)
    requires Built(layers, stages, sources, roots, errorSchema, ext)
    requires i < |layers| && NamesFree(layers[..i + 1]) && Refs(operation) <= layers[i].roots
    ensures PyEqual(UnfoldAt(k, operation, layers, i),
        UnfoldIn(k, Rewrite(operation, layers[i].rename), stages[|layers|]))
  {
    hide LayerBuilt, Refs, Rewrite, NamesFree, Linked, UnfoldAt, UnfoldIn, AsCompared;
    var front, early, node := layers[..i + 1], stages[i + 1], Rewrite(operation, layers[i].rename);
    FrontBuilt(layers, stages, sources, roots, errorSchema, ext, i + 1);
    BuiltLinks(front, stages[..i + 2], sources, roots, errorSchema, ext);
    OperationPreserved(k, operation, front, i, early);
    UnfoldEarlier(k, operation, layers, i + 1, i);
    MergedIsClosed(layers, stages, sources, roots, errorSchema, ext, i + 1);
    StagesKeep(layers, stages, sources, roots, errorSchema, ext, i + 1, |layers|);
    UnfoldKept(k, node, node, early, stages[|layers|]);
  }

  // ----- names free before the merge

  // A name that a source's roots or the references of its cleaned definitions mention.
  ghost predicate Says(source: Source, wanted: set<string>, ext: Extensions, name: string) {
    || name in wanted
    || exists from :: from in source.available && name in Refs(Cleaned(source.available[from], ext))
  }

  // No source says a name spelled `<label>.<Name>` after one that the labelled source, itself or an earlier one, says.
  ghost predicate NoneSpelled(sources: seq<Source>, roots: map<nat, set<string>>, errorSchema: Option<string>,
                              ext: Extensions) {
    forall i, j, name :: 0 <= i <= j < |sources| && Says(sources[i], Wanted(sources, roots, errorSchema, i), ext, name)
      ==> !Says(sources[j], Wanted(sources, roots, errorSchema, j), ext, sources[i].tag + "." + name)
  }

  /** Then the merge hands out no name that a source mentions: a condition on the documents and the roots alone. */
  lemma FreeBeforehand(layers: seq<Layer>, stages: seq<Schemas>, sources: seq<Source>, roots: map<nat, set<string>>,
                       errorSchema: Option<string>, ext: Extensions)
    requires Built(layers, stages, sources, roots, errorSchema, ext) && NoneSpelled(sources, roots, errorSchema, ext)
    ensures NamesFree(layers)
  {
    hide Refs, Cleaned, Says, Overlaid, Tainted, Unspelled, IsClosure, Wanted;
    forall i, j, name | 0 <= i <= j < |layers| && name in layers[i].rename
      ensures !Mentions(layers[j], layers[i].rename[name])
    {
      var wanted := Wanted(sources, roots, errorSchema, i);
      assert LayerBuilt(layers[i], sources[i], wanted, stages[i], stages[i + 1], ext);
      MentionedIsSaid(layers[i], sources[i], wanted, stages[i], stages[i + 1], ext, name);
      if Mentions(layers[j], layers[i].rename[name]) {
        assert LayerBuilt(layers[j], sources[j], Wanted(sources, roots, errorSchema, j), stages[j], stages[j + 1], ext);
        MentionedIsSaid(layers[j], sources[j], Wanted(sources, roots, errorSchema, j), stages[j], stages[j + 1], ext,
            layers[i].rename[name]);
        assert false;
      }
    }
  }

  lemma MentionedIsSaid(layer: Layer, source: Source, wanted: set<string>, before: Schemas, after: Schemas,
                        ext: Extensions, name: string)
    requires LayerBuilt(layer, source, wanted, before, after, ext) && Mentions(layer, name)
    ensures Says(source, wanted, ext, name)
  {
    hide Refs, Cleaned, Overlaid, Tainted, Unspelled, Namespaces;
    var g := CleanGraph(source.available, ext);
    if name in wanted {
    } else if name in layer.defs {
      var path :| IsPath(g, path) && path[0] in wanted && path[|path| - 1] == name;
      assert name in Successors(g, path[|path| - 2]);
    } else {
      var from :| from in layer.defs && name in Refs(layer.defs[from]);
      EmptyRefs();
      assert from in source.available;
    }
  }

  lemma ClosureIsSaid(closure: Schemas, source: Source, wanted: set<string>, merged: set<string>, ext: Extensions,
                      name: string)
    requires IsClosure(closure, source.available, wanted, merged, ext) && name in closure
    ensures Says(source, wanted, ext, name)
  {
    hide Refs, Cleaned;
    var g := CleanGraph(source.available, ext);
    if name !in wanted {
      var path :| IsPath(g, path) && path[0] in wanted && path[|path| - 1] == name;
      assert name in Successors(g, path[|path| - 2]);
    }
  }

  // ----- no name is taken

  // No name that a source says is spelled after a label and a name, and no two labels make one name.
  ghost predicate NamesApart(sources: seq<Source>, roots: map<nat, set<string>>, errorSchema: Option<string>,
                             ext: Extensions) {
    forall i, j, a, b ::
      && 0 <= i < |sources| && Says(sources[i], Wanted(sources, roots, errorSchema, i), ext, a)
      && 0 <= j < |sources| && Says(sources[j], Wanted(sources, roots, errorSchema, j), ext, b)
      ==> && sources[i].tag + "." + a != b
          && (i != j ==> sources[i].tag + "." + a != sources[j].tag + "." + b)
  }

  /** Then none is ever found taken. */
  lemma NeverTaken(layers: seq<Layer>, stages: seq<Schemas>, sources: seq<Source>, roots: map<nat, set<string>>,
                   errorSchema: Option<string>, ext: Extensions, name: string)
    requires Built(layers, stages, sources, roots, errorSchema, ext) && |layers| < |sources|
    requires Taken(sources[|layers|], Wanted(sources, roots, errorSchema, |layers|), stages[|layers|], name, ext)
    ensures !NamesApart(sources, roots, errorSchema, ext)
  {
    hide Says, LayerBuilt, IsClosure, Lists, Holds, Conflicts, AsCompared, Wanted, Rewrite, NamesApart;
    var n := |layers|;
    var source, wanted := sources[n], Wanted(sources, roots, errorSchema, n);
    var layer, order, renamed :| TakenBy(source, wanted, stages[n], name, ext, layer, order, renamed);
    var was :| was in layer.rename && layer.rename[was] == name;
    ClosureIsSaid(layer.defs, source, wanted, stages[n].Keys, ext, was);
    var m, earlier := StageOrigin(layers, stages, sources, roots, errorSchema, ext, n, name);
    HeldIsSaid(layers, stages, sources, roots, errorSchema, ext, m, earlier);
    RenameSpelled(layers, stages, sources, roots, errorSchema, ext, m, earlier);
    SpelledApart(sources, roots, errorSchema, ext, n, m, was, earlier);
  }

  lemma HeldIsSaid(layers: seq<Layer>, stages: seq<Schemas>, sources: seq<Source>, roots: map<nat, set<string>>,
                   errorSchema: Option<string>, ext: Extensions, m: nat, name: string)
    requires Built(layers, stages, sources, roots, errorSchema, ext) && m < |layers| && name in layers[m].defs
    ensures Says(sources[m], Wanted(sources, roots, errorSchema, m), ext, name)
  {
    hide Says, IsClosure, Overlaid, Wanted, Namespaces, Unspelled, Tainted;
    var wanted := Wanted(sources, roots, errorSchema, m);
    assert LayerBuilt(layers[m], sources[m], wanted, stages[m], stages[m + 1], ext);
    ClosureIsSaid(layers[m].defs, sources[m], wanted, stages[m].Keys, ext, name);
  }

  lemma RenameSpelled(layers: seq<Layer>, stages: seq<Schemas>, sources: seq<Source>, roots: map<nat, set<string>>,
                      errorSchema: Option<string>, ext: Extensions, m: nat, name: string)
    requires Built(layers, stages, sources, roots, errorSchema, ext) && m < |layers|
    ensures name in layers[m].rename ==> layers[m].rename[name] == sources[m].tag + "." + name
  {
    hide IsClosure, Overlaid, Wanted, Unspelled, Tainted;
    assert LayerBuilt(layers[m], sources[m], Wanted(sources, roots, errorSchema, m), stages[m], stages[m + 1], ext);
  }

  lemma SpelledApart(sources: seq<Source>, roots: map<nat, set<string>>, errorSchema: Option<string>, ext: Extensions,
                     n: nat, m: nat, was: string, earlier: string)
    requires m < n < |sources| && Says(sources[n], Wanted(sources, roots, errorSchema, n), ext, was)
    requires Says(sources[m], Wanted(sources, roots, errorSchema, m), ext, earlier)
    ensures NamesApart(sources, roots, errorSchema, ext) ==>
              && sources[n].tag + "." + was != earlier
              && sources[n].tag + "." + was != sources[m].tag + "." + earlier
  {
    hide Says, Wanted;
  }

  // Distinct labels without a dot make no name twice.
  lemma LabelsApart(a: string, b: string, x: string, y: string)
    requires a != b && '.' !in a && '.' !in b
    ensures a + "." + x != b + "." + y
  {
    var s, t := a + "." + x, b + "." + y;
    assert s[|a|] == '.' && t[|b|] == '.';
    assert |a| < |b| ==> t[|a|] == b[|a|];
    assert |b| < |a| ==> s[|b|] == a[|b|];
    assert |a| == |b| ==> s[..|a|] == a && t[..|a|] == b;
  }

  /** So with distinct labels without a dot, names are apart when none is spelled after a label and a name. */
  lemma NamesApartWhenLabelled(sources: seq<Source>, roots: map<nat, set<string>>, errorSchema: Option<string>,
                               ext: Extensions)
    requires forall i :: 0 <= i < |sources| ==> '.' !in sources[i].tag
    requires forall i, j :: 0 <= i < j < |sources| ==> sources[i].tag != sources[j].tag
    requires forall i, j, a, b ::
      && 0 <= i < |sources| && Says(sources[i], Wanted(sources, roots, errorSchema, i), ext, a)
      && 0 <= j < |sources| && Says(sources[j], Wanted(sources, roots, errorSchema, j), ext, b)
      ==> sources[i].tag + "." + a != b
    ensures NamesApart(sources, roots, errorSchema, ext)
  {
    hide Says, Wanted;
    forall i, j, a: string, b: string | 0 <= i < |sources| && 0 <= j < |sources| && i != j
      ensures sources[i].tag + "." + a != sources[j].tag + "." + b
    {
      LabelsApart(sources[i].tag, sources[j].tag, a, b);
    }
  }

  lemma EmptyRefs()
    ensures Refs(Obj(map[])) == {}
  {
  }

  lemma NothingReached(g: Graph, name: string)
    ensures !Reachable(g, {}, name)
  {
  }

  lemma NothingLinked()
    ensures Linked([], map[])
  {
  }

  lemma NothingMerged(stubbed: set<string>, stripped: set<string>, sources: seq<Source>, ext: Extensions)
    ensures AllStubbed(stubbed, [], sources) == stubbed && AllStripped(stripped, [], sources, ext) == stripped
  {
  }

  lemma NothingRecorded()
    ensures Recorded([], map[], map[])
  {
  }

  lemma SkippedBuilt(layer: Layer, source: Source, schemas: Schemas, ext: Extensions)
    requires layer == Layer(source.tag, {}, map[], map[])
    ensures LayerBuilt(layer, source, {}, schemas, schemas, ext)
  {
  }

  lemma BuiltMore(layers: seq<Layer>, layer: Layer, stages: seq<Schemas>, after: Schemas, sources: seq<Source>,
                  roots: map<nat, set<string>>, errorSchema: Option<string>, ext: Extensions)
    requires Built(layers, stages, sources, roots, errorSchema, ext) && |layers| < |sources|
    requires var i := |layers|;
             LayerBuilt(layer, sources[i], Wanted(sources, roots, errorSchema, i), stages[i], after, ext)
    ensures Built(layers + [layer], stages + [after], sources, roots, errorSchema, ext)
  {
    hide LayerBuilt, Wanted;
  }

  // The ledgers after one more source; a skipped one records nothing.
  lemma RecordedMore(layers: seq<Layer>, layer: Layer, renames: map<nat, map<string, string>>,
                     namespaced: map<string, string>)
    requires Recorded(layers, renames, namespaced)
    ensures layer.rename == map[] ==> Recorded(layers + [layer], renames, namespaced)
    ensures Recorded(layers + [layer], renames[|layers| := layer.rename], WithNamespaced(namespaced, layer))
  {
    var all := layers + [layer];
    var more := WithNamespaced(namespaced, layer);
    forall key | key in namespaced ensures NamespacedBy(all, key, namespaced[key]) {
      assert NamespacedBy(layers, key, namespaced[key]);
      var i :| 0 <= i < |layers| && key in layers[i].rename.Values && namespaced[key] == layers[i].tag;
      assert all[i] == layers[i];
    }
    forall key | key in more ensures NamespacedBy(all, key, more[key]) {
      if key in layer.rename.Values { assert all[|layers|] == layer; }
    }
    forall i, key | 0 <= i < |all| && key in all[i].rename.Values
      ensures key in more && (layer.rename == map[] ==> key in namespaced)
    {
      if i < |layers| { assert all[i] == layers[i]; }
    }
    hide NamespacedBy, WithNamespaced;
  }

  // `key` is the namespaced name some source labelled `tag` gave a definition.
  ghost predicate NamespacedBy(layers: seq<Layer>, key: string, tag: string) {
    exists i :: 0 <= i < |layers| && key in layers[i].rename.Values && tag == layers[i].tag
  }

  function WithNamespaced(namespaced: map<string, string>, layer: Layer): map<string, string> {
    namespaced + map key | key in layer.rename.Values :: layer.tag
  }

  /** `_merge_schemas`. The ghost results are what each source contributed and what had been merged before it. */
  method MergeSchemas(cut: Cut, sources: seq<Source>, roots: map<nat, set<string>>, errorSchema: Option<string>)
    returns (result: Result<Merge, CutError>, ghost layers: seq<Layer>, ghost stages: seq<Schemas>)
    requires cut.Valid()
    modifies cut
    ensures result.Ok? ==>
              && Built(layers, stages, sources, roots, errorSchema, cut.ext)
              && |layers| == |sources| && |stages| == |sources| + 1 && stages[|sources|] == result.value.schemas
              && Recorded(layers, result.value.renames, result.value.namespaced)
              && cut.stubbed == AllStubbed(old(cut.stubbed), layers, sources)
              && cut.stripped == AllStripped(old(cut.stripped), layers, sources, cut.ext)
              && (forall n :: 0 <= n < |stages| ==> Shut(stages[n]))
              && (forall i, name :: 0 <= i < |sources| ==>
                    (name in layers[i].roots
                     <==> (i in roots && name in roots[i])
                          || (errorSchema == Some(name) && name in sources[i].available)))
              && (errorSchema.Some? ==> errorSchema.value in result.value.schemas)
              && (forall i :: 0 <= i < |sources| && errorSchema.Some? && errorSchema.value in sources[i].available ==>
                    ErrorSchemaLaid(layers[i], sources[i], result.value.schemas, errorSchema.value, cut.ext))
              && (NamesFree(layers) ==> Linked(layers, result.value.schemas))
    ensures result.Ok? && errorSchema.Some? ==>
              exists i :: 0 <= i < |sources| && errorSchema.value in sources[i].available
    ensures result.Err? ==> !result.error.NoSources? && !result.error.PartUndefined?
    ensures result.Err? && result.error.NameTaken? ==>
              && |layers| < |sources| && Built(layers, stages, sources, roots, errorSchema, cut.ext)
              && Taken(sources[|layers|], Wanted(sources, roots, errorSchema, |layers|), stages[|layers|],
                  result.error.name, cut.ext)
              && !NamesApart(sources, roots, errorSchema, cut.ext)
    ensures errorSchema.Some? && (forall i :: 0 <= i < |sources| ==> errorSchema.value !in sources[i].available) ==>
              result.Err? && (result.error == ErrorSchemaUndefined(errorSchema.value) || result.error.NameTaken?)
    ensures result.Err? && result.error.ErrorSchemaUndefined? ==>
              && errorSchema == Some(result.error.name)
              && forall i :: 0 <= i < |sources| ==> errorSchema.value !in sources[i].available
  {
    hide LayerBuilt, NamesFree, Linked, Recorded, WithNamespaced, AllStubbed, AllStripped, StubbedAfter, StrippedAfter,
        Shut, Taken, NamesApart, ErrorSchemaLaid;
    NothingRecorded();
    NothingMerged(cut.stubbed, cut.stripped, sources, cut.ext);
    var schemas: Schemas, namespaced: map<string, string> := map[], map[];
    var renames: map<nat, map<string, string>> := map[];
    var errorDefined := false;
    layers, stages := [], [map[]];
    for position := 0 to |sources|
      invariant |layers| == position
      invariant Built(layers, stages, sources, roots, errorSchema, cut.ext) && stages[position] == schemas
      invariant Recorded(layers, renames, namespaced)
      invariant cut.stubbed == AllStubbed(old(cut.stubbed), layers, sources)
      invariant cut.stripped == AllStripped(old(cut.stripped), layers, sources, cut.ext)
      invariant errorDefined <==>
        errorSchema.Some? && exists i :: 0 <= i < position && errorSchema.value in sources[i].available
    {
      var source := sources[position];
      var wanted := Wanted(sources, roots, errorSchema, position);
      if errorSchema.Some? && errorSchema.value in source.available { errorDefined := true; }
      if wanted == {} {
        var layer := Layer(source.tag, {}, map[], map[]);
        LedgersMoreLayers(old(cut.stubbed), old(cut.stripped), layers, layer, sources, cut.ext);
        SkippedBuilt(layer, source, schemas, cut.ext);
        RecordedMore(layers, layer, renames, namespaced);
        BuiltMore(layers, layer, stages, schemas, sources, roots, errorSchema, cut.ext);
        layers, stages := layers + [layer], stages + [schemas];
      } else {
        var taken, layer, after := MergeSource(cut, source, wanted, schemas);
        if taken.Some? {
          if NamesApart(sources, roots, errorSchema, cut.ext) {
            NeverTaken(layers, stages, sources, roots, errorSchema, cut.ext, taken.value);
          }
          result := Err(NameTaken(taken.value));
          return;
        }
        LedgersMoreLayers(old(cut.stubbed), old(cut.stripped), layers, layer, sources, cut.ext);
        RecordedMore(layers, layer, renames, namespaced);
        BuiltMore(layers, layer, stages, after, sources, roots, errorSchema, cut.ext);
        schemas := after;
        namespaced := WithNamespaced(namespaced, layer);
        renames := renames[position := layer.rename];
        layers, stages := layers + [layer], stages + [schemas];
      }
    }
    if errorSchema.Some? && !errorDefined {
      result := Err(ErrorSchemaUndefined(errorSchema.value));
      return;
    }
    forall n: nat | n < |stages| ensures Shut(stages[n]) {
      MergedIsClosed(layers, stages, sources, roots, errorSchema, cut.ext, n);
    }
    if NamesFree(layers) { BuiltLinks(layers, stages, sources, roots, errorSchema, cut.ext); }
    forall i: nat | i < |sources|
      ensures layers[i].roots == Wanted(sources, roots, errorSchema, i)
      ensures errorSchema.Some? && errorSchema.value in sources[i].available ==>
          errorSchema.value in schemas
              && ErrorSchemaLaid(layers[i], sources[i], schemas, errorSchema.value, cut.ext)
    {
      RootsAreWanted(layers, stages, sources, roots, errorSchema, cut.ext, i);
      if errorSchema.Some? && errorSchema.value in sources[i].available {
        ErrorSchemaStands(layers, stages, sources, roots, errorSchema, cut.ext, i);
      }
    }
    result := Ok(Merge(schemas, namespaced, renames));
  }
}
