/** The cutter's two halves together: what a validator accepts over the merged schemas is what the vendors mean. */
module Meaning {
  import opened Wrappers
  import opened JsonTree
  import opened Reachability
  import opened References
  import opened Cleaning
  import opened Closures
  import opened Merging
  import opened Resolving
  import opened Twins
  import opened Routes
  import opened Operations
  import opened Places
  import opened Cutting
  import opened Acceptance

  /**
   A name space where each place has its own renames, beside one merged name space: `find` leads from a place and a
   name to a schema and its place, and what it leads to stands in `schemas` under the name's new name. `met` are the
   names that come up at a place. What stands there is the same to the letter, or only to Python's `==`.
   */
  datatype Bridge = Bridge(find: Finder, rename: nat -> map<string, string>, schemas: Schemas,
                           met: (nat, string) -> bool, exact: bool)

  ghost predicate Same(g: Bridge, a: Json, b: Json) {
    if g.exact then a == b else PyEqual(a, b)
  }

  // Python's `==` between two objects does not make a difference to the keywords that hold no schema.
  ghost predicate Indifferent(o: Validator) {
    forall a, b, v :: PyEqual(Obj(a), Obj(b)) ==> (o.holds(a, v) <==> o.holds(b, v))
  }

  // No keyword that holds no schema, an `enum` say, has in its value a reference that the rename would rewrite.
  predicate LeavesFree(node: Json, rename: map<string, string>) {
    match node
    case Obj(fields) =>
      ("$ref" in fields && fields["$ref"].Str?)
      || forall key :: key in fields ==>
           && (HoldingOf(key) == Plain ==> RefsAt(key, fields[key]) !! rename.Keys)
           && (HoldingOf(key) == Single || HoldingOf(key) == List ==> LeavesFree(fields[key], rename))
           && (HoldingOf(key) == Named && fields[key].Obj? ==>
                 forall name :: name in fields[key].fields ==> LeavesFree(fields[key].fields[name], rename))
    case Arr(items) => forall i :: 0 <= i < |items| ==> LeavesFree(items[i], rename)
    case _ => true
  }

  // What a node at a place becomes in the merged name space.
  ghost predicate Alike(g: Bridge, at: nat, a: Json, b: Json) {
    && Same(g, Rewrite(a, g.rename(at)), b) && LeavesFree(a, g.rename(at))
    && forall name :: name in Refs(a) ==> g.met(at, name)
  }

  // Every step that a reference takes on one side leads to what it leads to on the other; nothing answers a hole.
  ghost predicate Sturdy(g: Bridge) {
    forall at, name :: g.met(at, name) ==> Leads(g, at, name)
  }

  ghost predicate Leads(g: Bridge, at: nat, name: string) {
    var to, key := g.find(at, name), NewName(name, g.rename(at));
    if to.None? then key in g.schemas ==> g.schemas[key] == Obj(map[])
    else key in g.schemas && Alike(g, to.value.1, to.value.0, g.schemas[key])
  }

  // Where only Python's `==` is known of the two sides, the validator must not tell more.
  ghost predicate Crossing(g: Bridge, o: Validator) {
    Sturdy(g) && Sane(o) && (g.exact || Indifferent(o))
  }

  // ----- a node and what it becomes accept the same

  lemma {:induction false} AcceptAlike(k: nat, g: Bridge, at: nat, a: Json, b: Json, v: Json, o: Validator)
    requires Crossing(g, o) && Alike(g, at, a, b)
    ensures Accepts(k, a, v, Env(g.find, at), o, Standard) <==> Accepts(k, b, v, Whole(g.schemas), o, Standard)
    decreases k, 1, a, 1
  {
    match a
    case Obj(fields) =>
      hide Accepts, Crossing, LeavesFree, Rewrite, Refs, AsCompared;
      FieldsAlike(g, at, a, b);
      ObjectAlike(k, g, at, fields, b.fields, v, o);
    case Arr(items) => PyEqualArr(Rewrite(a, g.rename(at)), b);
    case _ => LeafAlike(k, g, at, a, b, v, o);
  }

  lemma LeafAlike(k: nat, g: Bridge, at: nat, a: Json, b: Json, v: Json, o: Validator)
    requires !a.Obj? && !a.Arr? && Alike(g, at, a, b)
    ensures Accepts(k, a, v, Env(g.find, at), o, Standard) <==> Accepts(k, b, v, Whole(g.schemas), o, Standard)
  {
  }

  // An object's members become those of what it becomes.
  lemma FieldsAlike(g: Bridge, at: nat, a: Json, b: Json)
    requires Alike(g, at, a, b) && a.Obj?
    ensures b.Obj? && b.fields.Keys == a.fields.Keys
    ensures forall key :: key in a.fields ==> Same(g, RewriteAt(key, a.fields[key], g.rename(at)), b.fields[key])
  {
    hide AsCompared, RewriteAt, LeavesFree, Refs;
    PyEqualObj(Rewrite(a, g.rename(at)), b);
    assert Rewrite(a, g.rename(at)).fields.Keys == a.fields.Keys;
    assert forall key :: key in a.fields ==>
        Rewrite(a, g.rename(at)).fields[key] == RewriteAt(key, a.fields[key], g.rename(at));
  }

  lemma ObjectAlike(k: nat, g: Bridge, at: nat, fields: map<string, Json>, out: map<string, Json>, v: Json,
                    o: Validator)
    requires Crossing(g, o) && Alike(g, at, Obj(fields), Obj(out)) && fields.Keys == out.Keys
    requires forall key :: key in fields ==> Same(g, RewriteAt(key, fields[key], g.rename(at)), out[key])
    ensures Accepts(k, Obj(fields), v, Env(g.find, at), o, Standard)
       <==> Accepts(k, Obj(out), v, Whole(g.schemas), o, Standard)
    decreases k, 1, Obj(fields), 0
  {
    hide Accepts, LeavesFree, Rewrite, Refs, AsCompared, RewriteAt, Sturdy, KeywordAccepts, TargetAccepts, Alike,
        HoldingOf, Indifferent;
    SeenByStandard(fields);
    SeenByStandard(out);
    RefAlike(g, at, fields, out);
    if "$ref" in fields && fields["$ref"].Str? {
      RefObjectAccepts(k, fields, v, Env(g.find, at), o, Standard);
      RefObjectAccepts(k, out, v, Whole(g.schemas), o, Standard);
      TargetAlike(k, g, at, fields["$ref"], out["$ref"], v, o);
    } else {
      ObjectAccepts(k, fields, v, Env(g.find, at), o, Standard);
      ObjectAccepts(k, out, v, Whole(g.schemas), o, Standard);
      LeavesAlike(g, at, fields, out, v, o);
      forall key | key in fields && HoldingOf(key) != Plain
        ensures KeywordAccepts(k, key, fields[key], fields, v, Env(g.find, at), o, Standard)
           <==> KeywordAccepts(k, key, out[key], out, v, Whole(g.schemas), o, Standard)
      {
        KeywordAlike(k, g, at, key, fields, out, v, o);
      }
    }
  }

  // A reference stays one, to the new name.
  lemma RefAlike(g: Bridge, at: nat, fields: map<string, Json>, out: map<string, Json>)
    requires Alike(g, at, Obj(fields), Obj(out)) && fields.Keys == out.Keys
    requires forall key :: key in fields ==> Same(g, RewriteAt(key, fields[key], g.rename(at)), out[key])
    ensures "$ref" in fields ==> (fields["$ref"].Str? <==> out["$ref"].Str?)
    ensures "$ref" in fields && fields["$ref"].Str? ==>
              && out["$ref"] == Str(Namespaced(fields["$ref"].text, g.rename(at)))
              && (IsSchemaRef("$ref", fields["$ref"]) ==> g.met(at, RefName(fields["$ref"])))
  {
    hide LeavesFree, Namespaced;
    if "$ref" in fields {
      assert Same(g, RewriteAt("$ref", fields["$ref"], g.rename(at)), out["$ref"]);
      if IsSchemaRef("$ref", fields["$ref"]) {
        MemberRefs(Obj(fields), "$ref");
        assert RefName(fields["$ref"]) in RefsAt("$ref", fields["$ref"]);
      }
    }
  }

  lemma TargetAlike(k: nat, g: Bridge, at: nat, ref: Json, out: Json, v: Json, o: Validator)
    requires Crossing(g, o) && ref.Str? && out == Str(Namespaced(ref.text, g.rename(at)))
    requires IsSchemaRef("$ref", ref) ==> g.met(at, RefName(ref))
    ensures TargetAccepts(k, ref, v, Env(g.find, at), o, Standard)
       <==> TargetAccepts(k, out, v, Whole(g.schemas), o, Standard)
    decreases k, 0
  {
    hide Accepts, Alike, Indifferent, Sane;
    if IsSchemaRef("$ref", ref) {
      var name := RefName(ref);
      var key := NewName(name, g.rename(at));
      assert Leads(g, at, name);
      assert out == RefTo(key) && IsSchemaRef("$ref", out) && RefName(out) == key;
      assert Whole(g.schemas).find(0, key) == if key in g.schemas then Some((g.schemas[key], 0)) else None;
      assert Env(Whole(g.schemas).find, 0) == Whole(g.schemas);
      if k > 0 {
        if g.find(at, name).Some? {
          var to := g.find(at, name).value;
          AcceptAlike(k - 1, g, to.1, to.0, g.schemas[key], v, o);
        } else {
          EmptyAccepts(k - 1, v, Whole(g.schemas), o);
        }
      }
    }
  }

  lemma EmptyAccepts(k: nat, v: Json, env: Env, o: Validator)
    requires Sane(o)
    ensures Accepts(k, Obj(map[]), v, env, o, Standard)
  {
    var none: map<string, Json> := map[];
    assert LeafKeywords(none) == none;
  }

  // The keywords that hold no schema are the same up to Python's `==`.
  lemma LeavesAlike(g: Bridge, at: nat, fields: map<string, Json>, out: map<string, Json>, v: Json, o: Validator)
    requires (g.exact || Indifferent(o)) && Alike(g, at, Obj(fields), Obj(out)) && fields.Keys == out.Keys
    requires !("$ref" in fields && fields["$ref"].Str?)
    requires forall key :: key in fields ==> Same(g, RewriteAt(key, fields[key], g.rename(at)), out[key])
    ensures o.holds(LeafKeywords(fields), v) <==> o.holds(LeafKeywords(out), v)
  {
    hide AsCompared, HoldingOf, Rewrite, Refs;
    var a, b := LeafKeywords(fields), LeafKeywords(out);
    assert a.Keys == b.Keys;
    forall key | key in a ensures PyEqual(a[key], b[key]) && (g.exact ==> a[key] == b[key]) {
      assert HoldingOf(key) == Plain && RefsAt(key, fields[key]) !! g.rename(at).Keys;
      UntouchedMember(key, fields[key], g.rename(at));
      assert Same(g, RewriteAt(key, fields[key], g.rename(at)), out[key]);
    }
    PyEqualIfFields(Obj(a), Obj(b));
    if g.exact { assert a == b; }
  }

  lemma UntouchedMember(key: string, value: Json, rename: map<string, string>)
    requires RefsAt(key, value) !! rename.Keys && !(key == "$ref" && value.Str?)
    ensures RewriteAt(key, value, rename) == value
  {
    RewriteIdle(value, rename);
  }

  // What stands under a keyword that holds schemas.
  lemma HeldAlike(g: Bridge, at: nat, key: string, fields: map<string, Json>, out: map<string, Json>)
    requires Alike(g, at, Obj(fields), Obj(out)) && fields.Keys == out.Keys
    requires !("$ref" in fields && fields["$ref"].Str?) && key in fields && HoldingOf(key) != Plain
    requires forall other :: other in fields ==> Same(g, RewriteAt(other, fields[other], g.rename(at)), out[other])
    ensures Same(g, Rewrite(fields[key], g.rename(at)), out[key])
    ensures forall name :: name in Refs(fields[key]) ==> g.met(at, name)
    ensures HoldingOf(key) != Named ==> LeavesFree(fields[key], g.rename(at))
    ensures HoldingOf(key) == Named && fields[key].Obj? ==>
              forall name :: name in fields[key].fields ==> LeavesFree(fields[key].fields[name], g.rename(at))
  {
    hide AsCompared, Rewrite, Refs;
    PlainRef();
    MemberRefs(Obj(fields), key);
    assert key != "$ref";
    assert Same(g, RewriteAt(key, fields[key], g.rename(at)), out[key]);
  }

  lemma KeywordAlike(k: nat, g: Bridge, at: nat, key: string, fields: map<string, Json>, out: map<string, Json>,
                     v: Json, o: Validator)
    requires Crossing(g, o) && Alike(g, at, Obj(fields), Obj(out)) && fields.Keys == out.Keys
    requires !("$ref" in fields && fields["$ref"].Str?) && key in fields && HoldingOf(key) != Plain
    requires forall other :: other in fields ==> Same(g, RewriteAt(other, fields[other], g.rename(at)), out[other])
    ensures KeywordAccepts(k, key, fields[key], fields, v, Env(g.find, at), o, Standard)
       <==> KeywordAccepts(k, key, out[key], out, v, Whole(g.schemas), o, Standard)
    decreases k, 1, Obj(fields), 0, 0
  {
    hide AsCompared, Rewrite, Refs, LeavesFree, Crossing, Accepts, RewriteAt;
    HeldAlike(g, at, key, fields, out);
    var value := fields[key];
    match HoldingOf(key)
    case Named => NamedAlike(k, g, at, key, value, out[key], fields, out, v, o);
    case Single =>
      forall member ensures Spoken(fields, member, o) <==> Spoken(out, member, o) {
        SpokenAlike(g, at, fields, out, member, o);
      }
      assert Alike(g, at, value, out[key]);
      hide Spoken, Alike;
      SingleAlike(k, g, at, key, value, out[key], fields, out, v, o);
    case List =>
      assert Alike(g, at, value, out[key]);
      ListsAlike(k, g, at, key, value, out[key], fields, out, v, o);
  }

  lemma SpokenAlike(g: Bridge, at: nat, fields: map<string, Json>, out: map<string, Json>, member: string,
                    o: Validator)
    requires Alike(g, at, Obj(fields), Obj(out)) && fields.Keys == out.Keys
    requires forall other :: other in fields ==> Same(g, RewriteAt(other, fields[other], g.rename(at)), out[other])
    ensures Spoken(fields, member, o) <==> Spoken(out, member, o)
  {
    hide Alike;
    NamesAlike("properties", fields, out, g.rename(at));
    NamesAlike("patternProperties", fields, out, g.rename(at));
  }

  lemma NamesAlike(key: string, fields: map<string, Json>, out: map<string, Json>, rename: map<string, string>)
    requires key != "$ref" && fields.Keys == out.Keys
    requires forall other :: other in fields ==> PyEqual(RewriteAt(other, fields[other], rename), out[other])
    ensures key in fields ==> (fields[key].Obj? <==> out[key].Obj?)
    ensures key in fields && fields[key].Obj? ==> fields[key].fields.Keys == out[key].fields.Keys
  {
    hide RewriteAt, AsCompared;
    if key in fields {
      var value := fields[key];
      assert PyEqual(RewriteAt(key, value, rename), out[key]);
      HeldRewritten(key, value, rename);
      if value.Obj? { PyEqualObj(Rewrite(value, rename), out[key]); }
      if out[key].Obj? { PyEqualObj(out[key], Rewrite(value, rename)); }
    }
  }

  lemma HeldRewritten(key: string, value: Json, rename: map<string, string>)
    requires key != "$ref"
    ensures RewriteAt(key, value, rename) == Rewrite(value, rename)
    ensures Rewrite(value, rename).Obj? <==> value.Obj?
    ensures value.Obj? ==> Rewrite(value, rename).fields.Keys == value.fields.Keys
  {
  }

  lemma NamedAlike(k: nat, g: Bridge, at: nat, key: string, value: Json, b: Json, fields: map<string, Json>,
                   out: map<string, Json>, v: Json, o: Validator)
    requires Crossing(g, o) && HoldingOf(key) == Named && Same(g, Rewrite(value, g.rename(at)), b)
    requires forall name :: name in Refs(value) ==> g.met(at, name)
    requires value.Obj? ==> forall name :: name in value.fields ==> LeavesFree(value.fields[name], g.rename(at))
    ensures KeywordAccepts(k, key, value, fields, v, Env(g.find, at), o, Standard)
       <==> KeywordAccepts(k, key, b, out, v, Whole(g.schemas), o, Standard)
    decreases k, 1, value, 3
  {
    hide HoldingOf, Accepts, AsCompared, LeavesFree, Crossing, RewriteAt, Refs;
    if value.Obj? {
      PyEqualObj(Rewrite(value, g.rename(at)), b);
      if v.Obj? {
        forall name, member | name in value.fields && member in v.fields
          ensures Accepts(k, value.fields[name], v.fields[member], Env(g.find, at), o, Standard)
             <==> Accepts(k, b.fields[name], v.fields[member], Whole(g.schemas), o, Standard)
        {
          assert Same(g, RewriteAt(name, value.fields[name], g.rename(at)), b.fields[name]);
          MemberRefs(value, name);
          MemberAlike(k, g, at, name, value.fields[name], b.fields[name], v.fields[member], o);
        }
      }
    } else if b.Obj? {
      PyEqualObj(b, Rewrite(value, g.rename(at)));
      assert false;
    }
  }

  // A named schema; under the name `$ref` it may be a string, which any value satisfies.
  lemma MemberAlike(k: nat, g: Bridge, at: nat, name: string, a: Json, b: Json, v: Json, o: Validator)
    requires Crossing(g, o) && Same(g, RewriteAt(name, a, g.rename(at)), b) && LeavesFree(a, g.rename(at))
    requires forall ref :: ref in RefsAt(name, a) ==> g.met(at, ref)
    ensures Accepts(k, a, v, Env(g.find, at), o, Standard) <==> Accepts(k, b, v, Whole(g.schemas), o, Standard)
    decreases k, 1, a, 2
  {
    if name == "$ref" && a.Str? {
      assert b.Str?;
    } else {
      hide Accepts, LeavesFree, Crossing;
      AcceptAlike(k, g, at, a, b, v, o);
    }
  }

  lemma SingleAlike(k: nat, g: Bridge, at: nat, key: string, value: Json, b: Json, fields: map<string, Json>,
                    out: map<string, Json>, v: Json, o: Validator)
    requires Crossing(g, o) && HoldingOf(key) == Single && Alike(g, at, value, b)
    requires forall member :: Spoken(fields, member, o) <==> Spoken(out, member, o)
    ensures KeywordAccepts(k, key, value, fields, v, Env(g.find, at), o, Standard)
       <==> KeywordAccepts(k, key, b, out, v, Whole(g.schemas), o, Standard)
    decreases k, 1, value, 3
  {
    hide HoldingOf, Accepts, Spoken, ItemAccepts, Crossing, Alike, KeywordAccepts;
    SingleKeyword(k, key, value, fields, v, Env(g.find, at), o, Standard);
    SingleKeyword(k, key, b, out, v, Whole(g.schemas), o, Standard);
    if key == "not" {
      AcceptAlike(k, g, at, value, b, v, o);
    } else if key == "items" {
      if v.Arr? {
        forall i | 0 <= i < |v.items|
          ensures ItemAccepts(k, value, i, v.items[i], Env(g.find, at), o, Standard)
             <==> ItemAccepts(k, b, i, v.items[i], Whole(g.schemas), o, Standard)
        {
          ItemAlike(k, g, at, value, b, i, v.items[i], o);
        }
      }
    } else if v.Obj? {
      forall member | member in v.fields
        ensures Accepts(k, value, v.fields[member], Env(g.find, at), o, Standard)
           <==> Accepts(k, b, v.fields[member], Whole(g.schemas), o, Standard)
      {
        AcceptAlike(k, g, at, value, b, v.fields[member], o);
      }
    }
  }

  lemma ItemAlike(k: nat, g: Bridge, at: nat, value: Json, b: Json, i: nat, v: Json, o: Validator)
    requires Crossing(g, o) && Alike(g, at, value, b)
    ensures ItemAccepts(k, value, i, v, Env(g.find, at), o, Standard)
       <==> ItemAccepts(k, b, i, v, Whole(g.schemas), o, Standard)
    decreases k, 1, value, 2
  {
    hide Accepts, Crossing;
    ItemsAlike(g, at, value, b);
    hide Alike;
    if !value.Arr? {
      AcceptAlike(k, g, at, value, b, v, o);
    } else if i < |value.items| {
      AcceptAlike(k, g, at, value.items[i], b.items[i], v, o);
    }
  }

  // A list's items become those of what it becomes.
  lemma ItemsAlike(g: Bridge, at: nat, value: Json, b: Json)
    requires Alike(g, at, value, b)
    ensures value.Arr? <==> b.Arr?
    ensures value.Arr? ==> |value.items| == |b.items|
    ensures value.Arr? ==> forall i :: 0 <= i < |value.items| ==> Alike(g, at, value.items[i], b.items[i])
  {
    hide AsCompared, RewriteAt, Refs;
    var rewritten := Rewrite(value, g.rename(at));
    if value.Arr? {
      PyEqualArr(rewritten, b);
      forall i | 0 <= i < |value.items| ensures Alike(g, at, value.items[i], b.items[i]) {
        ItemRefs(value, i);
        assert rewritten.items[i] == Rewrite(value.items[i], g.rename(at));
      }
    } else if b.Arr? {
      PyEqualArr(b, rewritten);
      assert false;
    }
  }

  lemma ListsAlike(k: nat, g: Bridge, at: nat, key: string, value: Json, b: Json, fields: map<string, Json>,
                   out: map<string, Json>, v: Json, o: Validator)
    requires Crossing(g, o) && HoldingOf(key) == List && Alike(g, at, value, b)
    ensures KeywordAccepts(k, key, value, fields, v, Env(g.find, at), o, Standard)
       <==> KeywordAccepts(k, key, b, out, v, Whole(g.schemas), o, Standard)
    decreases k, 1, value, 3
  {
    hide HoldingOf, ListAccepts, Crossing;
    ItemsAlike(g, at, value, b);
    hide Alike;
    if value.Arr? { ListAlike(k, g, at, key, value.items, b.items, v, o); }
  }

  lemma ListAlike(k: nat, g: Bridge, at: nat, key: string, items: seq<Json>, out: seq<Json>, v: Json, o: Validator)
    requires Crossing(g, o) && |items| == |out| && forall i :: 0 <= i < |items| ==> Alike(g, at, items[i], out[i])
    ensures ListAccepts(k, key, items, v, Env(g.find, at), o, Standard)
       <==> ListAccepts(k, key, out, v, Whole(g.schemas), o, Standard)
    decreases k, 1, Arr(items), 0
  {
    hide Accepts, ListAccepts, Crossing, Alike;
    forall i | 0 <= i < |items|
      ensures Accepts(k, items[i], v, Env(g.find, at), o, Standard)
         <==> Accepts(k, out[i], v, Whole(g.schemas), o, Standard)
    {
      assert items[i] < Arr(items);
      AcceptAlike(k, g, at, items[i], out[i], v, o);
    }
    ListChosen(k, key, items, v, Env(g.find, at), o, Standard);
    ListChosen(k, key, out, v, Whole(g.schemas), o, Standard);
    assert Verdicts(k, items, v, Env(g.find, at), o, Standard) == Verdicts(k, out, v, Whole(g.schemas), o, Standard);
  }

  // ----- the vendors' documents, and the merge

  // Names as the documents mean them.
  function VendorFinder(sources: seq<Source>): Finder {
    (at: nat, name: string) => Meant(sources, at, name)
  }

  // The rename of the source a place stands for.
  function RenameAt(layers: seq<Layer>): nat -> map<string, string> {
    (at: nat) => if at < |layers| then layers[at].rename else map[]
  }

  // From the documents' cleaned definitions to the merged ones, by the names that the sources so far reach.
  ghost function MergeBridge(layers: seq<Layer>, sources: seq<Source>, roots: map<nat, set<string>>,
                             errorSchema: Option<string>, ext: Extensions, schemas: Schemas, exact: bool): Bridge {
    Bridge(CleanedFinder(VendorFinder(sources), ext), RenameAt(layers), schemas,
           (at: nat, name: string) => Met(layers, sources, roots, errorSchema, ext, at, name), exact)
  }

  ghost predicate Met(layers: seq<Layer>, sources: seq<Source>, roots: map<nat, set<string>>,
                      errorSchema: Option<string>, ext: Extensions, at: nat, name: string) {
    && at < |layers| && Asked(sources, roots, errorSchema, ext, at, name)
    && Traceable(layers, sources, roots, errorSchema, ext, at, name)
  }

  // Of these names, seen from these places, each is handed on, and its definition has among its data no reference that
  // the merge rewrites; what the definition refers to is among them.
  ghost predicate TracedAmong(layers: seq<Layer>, sources: seq<Source>, roots: map<nat, set<string>>,
                              errorSchema: Option<string>, ext: Extensions, among: set<(nat, string)>) {
    forall m, name :: (m, name) in among ==>
      && HandedOn(sources, roots, errorSchema, ext, m, name)
      && var meant := Meant(sources, m, name);
         meant.Some? ==>
           && LeavesFree(Cleaned(meant.value.0, ext), RenameAt(layers)(meant.value.1))
           && forall ref :: ref in Refs(Cleaned(meant.value.0, ext)) ==> (meant.value.1, ref) in among
  }

  // Wherever the name leads, every name met on the way is such.
  ghost predicate Traceable(layers: seq<Layer>, sources: seq<Source>, roots: map<nat, set<string>>,
                            errorSchema: Option<string>, ext: Extensions, i: nat, name: string) {
    exists among :: (i, name) in among && TracedAmong(layers, sources, roots, errorSchema, ext, among)
  }

  lemma TraceStep(layers: seq<Layer>, sources: seq<Source>, roots: map<nat, set<string>>, errorSchema: Option<string>,
                  ext: Extensions, i: nat, name: string)
    requires Traceable(layers, sources, roots, errorSchema, ext, i, name)
    ensures HandedOn(sources, roots, errorSchema, ext, i, name)
    ensures var meant := Meant(sources, i, name);
            meant.Some? ==>
              && LeavesFree(Cleaned(meant.value.0, ext), RenameAt(layers)(meant.value.1))
              && forall ref :: ref in Refs(Cleaned(meant.value.0, ext)) ==>
                 Traceable(layers, sources, roots, errorSchema, ext, meant.value.1, ref)
  {
    hide HandedOn, Meant, Refs, Cleaned, LeavesFree;
    var among :| (i, name) in among && TracedAmong(layers, sources, roots, errorSchema, ext, among);
  }

  // The sources after a name's own do not matter.
  lemma TracedEarlier(layers: seq<Layer>, sources: seq<Source>, roots: map<nat, set<string>>,
                      errorSchema: Option<string>, ext: Extensions, n: nat, i: nat, name: string)
    requires i < n <= |layers| && Traceable(layers, sources, roots, errorSchema, ext, i, name)
    ensures Traceable(layers[..n], sources, roots, errorSchema, ext, i, name)
  {
    hide HandedOn, Refs, Cleaned, LeavesFree, Definer;
    var among :| (i, name) in among && TracedAmong(layers, sources, roots, errorSchema, ext, among);
    var early := set place: (nat, string) | place in among && place.0 < n;
    forall m, other | (m, other) in early
      ensures var meant := Meant(sources, m, other);
              meant.Some? ==>
                && LeavesFree(Cleaned(meant.value.0, ext), RenameAt(layers[..n])(meant.value.1))
                && forall ref :: ref in Refs(Cleaned(meant.value.0, ext)) ==> (meant.value.1, ref) in early
    {
      assert (m, other) in among;
      if Meant(sources, m, other).Some? {
        var j := Meant(sources, m, other).value.1;
        assert j <= m < n && RenameAt(layers[..n])(j) == RenameAt(layers)(j);
      }
    }
    assert TracedAmong(layers[..n], sources, roots, errorSchema, ext, early);
    assert (i, name) in early;
  }

  lemma BridgeParts(layers: seq<Layer>, sources: seq<Source>, roots: map<nat, set<string>>,
                    errorSchema: Option<string>, ext: Extensions, schemas: Schemas, exact: bool)
    ensures var g := MergeBridge(layers, sources, roots, errorSchema, ext, schemas, exact);
            && g.schemas == schemas && g.exact == exact
            && (forall at :: 0 <= at < |layers| ==> g.rename(at) == layers[at].rename)
            && (forall at: nat, name :: g.met(at, name) <==>
                  Met(layers, sources, roots, errorSchema, ext, at, name))
            && (forall at: nat, name :: g.find(at, name) == var meant := Meant(sources, at, name);
                  if meant.Some? then Some((Cleaned(meant.value.0, ext), meant.value.1)) else None)
  {
    hide Met, Meant, Cleaned;
  }

  // The merge is such a bridge.
  lemma MergeIsSturdy(layers: seq<Layer>, stages: seq<Schemas>, sources: seq<Source>, roots: map<nat, set<string>>,
                      errorSchema: Option<string>, ext: Extensions, exact: bool)
    requires Built(layers, stages, sources, roots, errorSchema, ext) && NamesFree(layers)
    requires exact ==> Identical(layers)
    ensures Sturdy(MergeBridge(layers, sources, roots, errorSchema, ext, stages[|layers|], exact))
  {
    hide LayerBuilt, NamesFree, Identical, MergeBridge, Met, Leads;
    var g := MergeBridge(layers, sources, roots, errorSchema, ext, stages[|layers|], exact);
    BridgeParts(layers, sources, roots, errorSchema, ext, stages[|layers|], exact);
    forall at, name | g.met(at, name) ensures Leads(g, at, name) {
      StepLeads(layers, stages, sources, roots, errorSchema, ext, exact, at, name);
    }
  }

  lemma StepLeads(layers: seq<Layer>, stages: seq<Schemas>, sources: seq<Source>, roots: map<nat, set<string>>,
                  errorSchema: Option<string>, ext: Extensions, exact: bool, at: nat, name: string)
    requires Built(layers, stages, sources, roots, errorSchema, ext) && NamesFree(layers)
    requires exact ==> Identical(layers)
    requires Met(layers, sources, roots, errorSchema, ext, at, name)
    ensures Leads(MergeBridge(layers, sources, roots, errorSchema, ext, stages[|layers|], exact), at, name)
  {
    hide LayerBuilt, NamesFree, HandedOn, Identical, MergeBridge, Asked, Linked, Defined, Rewrite, Refs, AsCompared,
        LeavesFree, Cleaned, Meant, Traceable;
    TraceStep(layers, sources, roots, errorSchema, ext, at, name);
    var schemas := stages[|layers|];
    var g := MergeBridge(layers, sources, roots, errorSchema, ext, schemas, exact);
    BridgeParts(layers, sources, roots, errorSchema, ext, schemas, exact);
    assert layers[..|layers|] == layers;
    FreeEarlier(layers, at + 1, |layers|);
    FoundAsMeant(layers, stages, sources, roots, errorSchema, ext, at, name);
    BuiltLinks(layers, stages, sources, roots, errorSchema, ext);
    InPlace(layers, at, name);
    OwnerPlaced(layers, at, schemas, name);
    var j, key := Owner(layers, at, name), NewName(name, layers[at].rename);
    OwnerRename(layers, at, schemas, name);
    if exact { PlacedIdentically(layers, stages, sources, roots, errorSchema, ext, |layers|, j, name); }
    if Meant(sources, at, name).Some? {
      forall ref | ref in Refs(layers[j].defs[name]) ensures g.met(j, ref) {
        AskedThrough(sources, roots, errorSchema, ext, j, name, ref);
      }
    } else {
      HoleStays(layers[j].rename, schemas[key]);
    }
  }

  lemma OwnerRename(layers: seq<Layer>, i: nat, schemas: Schemas, name: string)
    requires Linked(layers, schemas) && Defined(layers, i, name)
    ensures NewName(name, layers[i].rename) == NewName(name, layers[Owner(layers, i, name)].rename)
  {
    hide Placed, Mentions;
    assert Resolved(layers, i) && Resolved(layers, Owner(layers, i, name));
  }

  lemma HoleStays(rename: map<string, string>, out: Json)
    requires PyEqual(Rewrite(Obj(map[]), rename), out)
    ensures out == Obj(map[])
  {
    PyEqualObj(Rewrite(Obj(map[]), rename), out);
  }

  lemma InPlace(layers: seq<Layer>, at: nat, name: string)
    requires Defined(layers, at, name)
    ensures Owner(layers, at, name) <= at < |layers|
    ensures name in layers[Owner(layers, at, name)].defs
  {
  }

  // So are the merged schemas at one stage and at a later one.
  function StageBridge(before: Schemas, after: Schemas, exact: bool): Bridge {
    Bridge(Whole(before).find, (at: nat) => map[], after, (at: nat, name: string) => name in before, exact)
  }

  lemma {:induction false} LeavesFreeOfNothing(node: Json)
    ensures LeavesFree(node, map[])
  {
    match node
    case Obj(fields) =>
      forall key | key in fields
        ensures HoldingOf(key) == Single || HoldingOf(key) == List ==> LeavesFree(fields[key], map[])
        ensures HoldingOf(key) == Named && fields[key].Obj? ==>
              forall name :: name in fields[key].fields ==> LeavesFree(fields[key].fields[name], map[])
      {
        LeavesFreeOfNothing(fields[key]);
        if fields[key].Obj? {
          forall name | name in fields[key].fields ensures LeavesFree(fields[key].fields[name], map[]) {
            LeavesFreeOfNothing(fields[key].fields[name]);
          }
        }
      }
    case Arr(items) =>
      forall i | 0 <= i < |items| ensures LeavesFree(items[i], map[]) { LeavesFreeOfNothing(items[i]); }
    case _ =>
  }

  lemma StaysAlike(before: Schemas, after: Schemas, exact: bool, at: nat, a: Json, b: Json)
    requires PyEqual(a, b) && (exact ==> a == b) && Refs(a) <= before.Keys
    ensures Alike(StageBridge(before, after, exact), at, a, b)
  {
    hide Refs, AsCompared;
    LeavesFreeOfNothing(a);
    RewriteNothingAt(a);
  }

  lemma RewriteNothingAt(node: Json)
    ensures Rewrite(node, map[]) == node
  {
    RewriteIdle(node, map[]);
  }

  lemma StageIsSturdy(before: Schemas, after: Schemas, exact: bool)
    requires Shut(before) && Keeps(before, after) && (exact ==> KeepsIdentically(before, after))
    ensures Sturdy(StageBridge(before, after, exact))
  {
    hide Refs, AsCompared, Alike, StageBridge;
    var g := StageBridge(before, after, exact);
    StageParts(before, after, exact);
    forall at, name | g.met(at, name) ensures Leads(g, at, name) {
      StaysAlike(before, after, exact, 0, before[name], after[name]);
    }
  }

  lemma StageParts(before: Schemas, after: Schemas, exact: bool)
    ensures var g := StageBridge(before, after, exact);
            && g.schemas == after && g.find == Whole(before).find && (forall at :: g.rename(at) == map[])
            && (forall at, name :: g.met(at, name) <==> name in before)
            && forall at, name :: g.find(at, name) == if name in before then Some((before[name], 0)) else None
  {
  }

  // What is merged by one stage is accepted alike at every later one.
  lemma AcceptedAtTheEnd(k: nat, node: Json, out: Json, v: Json, o: Validator, layers: seq<Layer>,
                         stages: seq<Schemas>, sources: seq<Source>, roots: map<nat, set<string>>,
                         errorSchema: Option<string>, ext: Extensions, n: nat, exact: bool)
    requires Built(layers, stages, sources, roots, errorSchema, ext) && n <= |layers| && Sane(o)
    requires if exact then Identical(layers) else Indifferent(o)
    requires PyEqual(node, out) && (exact ==> node == out) && Refs(node) <= stages[n].Keys
    ensures Accepts(k, node, v, Whole(stages[n]), o, Standard)
       <==> Accepts(k, out, v, Whole(stages[|layers|]), o, Standard)
  {
    hide LayerBuilt, Refs, AsCompared, Accepts, Shut, Keeps, Sturdy, Alike, Indifferent, Identical, KeepsIdentically,
        Sane;
    var before, after := stages[n], stages[|layers|];
    MergedIsClosed(layers, stages, sources, roots, errorSchema, ext, n);
    StagesKeep(layers, stages, sources, roots, errorSchema, ext, n, |layers|);
    if exact { StagesKeepIdentically(layers, stages, sources, roots, errorSchema, ext, n, |layers|); }
    StageIsSturdy(before, after, exact);
    StaysAlike(before, after, exact, 0, node, out);
    AcceptAlike(k, StageBridge(before, after, exact), 0, node, out, v, o);
    assert Env(Whole(before).find, 0) == Whole(before);
  }

  // ----- the whole cut

  // What the theorem asks of a validator and of the extension map: where not all that comes together is identical, that
  // the validator does not tell what Python does not.
  ghost predicate Fit(o: Validator, ext: Extensions, layers: seq<Layer>) {
    Sound(o, ext) && (Identical(layers) || Indifferent(o))
  }

  // A standard validator accepts of the merged schema what the vendor's, at its source, means over the documents.
  ghost predicate MeansTheSame(k: nat, node: Json, v: Json, o: Validator, sources: seq<Source>, i: nat,
                               ext: Extensions, merged: Json, schemas: Schemas) {
    Accepts(k, merged, v, Whole(schemas), o, Standard)
    <==> Accepts(k, node, v, Env(VendorFinder(sources), i), o, Vendor(ext))
  }

  // A cleaned schema that is linked by the end of its own source, and what it has become at the end of the merge.
  lemma CutSchemaMeansTheSame(k: nat, node: Json, merged: Json, out: Json, v: Json, o: Validator, layers: seq<Layer>,
                              stages: seq<Schemas>, sources: seq<Source>, roots: map<nat, set<string>>,
                              errorSchema: Option<string>, ext: Extensions, i: nat, exact: bool)
    requires Built(layers, stages, sources, roots, errorSchema, ext) && i < |layers| && Sound(o, ext)
    requires if exact then Identical(layers) else Indifferent(o)
    requires NamesFree(layers[..i + 1])
    requires Alike(MergeBridge(layers[..i + 1], sources, roots, errorSchema, ext, stages[i + 1], exact), i,
        Cleaned(node, ext), merged)
    requires PyEqual(merged, out) && (exact ==> merged == out) && Refs(merged) <= stages[i + 1].Keys
    ensures MeansTheSame(k, node, v, o, sources, i, ext, out, stages[|layers|])
  {
    hide LayerBuilt, Refs, AsCompared, Accepts, Sturdy, Alike, Indifferent, NamesFree, Identical, Cleaned,
        VendorFinder, CleanedFinder, Whole, Met, Sane, Silent, Declared, TargetsPlain;
    var front := layers[..i + 1];
    var g := MergeBridge(front, sources, roots, errorSchema, ext, stages[i + 1], exact);
    FrontBuilt(layers, stages, sources, roots, errorSchema, ext, i + 1);
    if exact { IdenticalEarlier(layers, i + 1); }
    MergeIsSturdy(front, stages[..i + 2], sources, roots, errorSchema, ext, exact);
    CleaningPreservesAcceptance(k, node, v, Env(VendorFinder(sources), i), o, ext);
    AcceptAlike(k, g, i, Cleaned(node, ext), merged, v, o);
    AcceptedAtTheEnd(k, merged, out, v, o, layers, stages, sources, roots, errorSchema, ext, i + 1, exact);
  }

  /**
   The linker and the cleaner as one: for every source, every definition its roots reach, every value and every depth,
   a standard validator accepts of the merged definition, over the merged schemas, what the vendor's own definition
   means over the documents, with annotations silent and extensions as keywords.
   */
  lemma DefinitionMeansTheSame(k: nat, name: string, v: Json, o: Validator, layers: seq<Layer>, stages: seq<Schemas>,
                               sources: seq<Source>, roots: map<nat, set<string>>, errorSchema: Option<string>,
                               ext: Extensions, i: nat)
    requires Built(layers, stages, sources, roots, errorSchema, ext) && i < |layers| && Fit(o, ext, layers)
    requires NamesFree(layers[..i + 1]) && Traceable(layers, sources, roots, errorSchema, ext, i, name)
    requires Asked(sources, roots, errorSchema, ext, i, name) && name in sources[i].available
    ensures var schemas := stages[|layers|]; var key := NewName(name, layers[i].rename);
            key in schemas && MeansTheSame(k, sources[i].available[name], v, o, sources, i, ext, schemas[key], schemas)
  {
    hide LayerBuilt, Refs, AsCompared, Accepts, Indifferent, NamesFree, Identical, Cleaned, Shut, Keeps,
        MeansTheSame, MergeBridge, Sound, Asked, Alike, Traceable, KeepsIdentically;
    var exact := Identical(layers);
    var front, early, late := layers[..i + 1], stages[i + 1], stages[|layers|];
    var key := NewName(name, layers[i].rename);
    FrontBuilt(layers, stages, sources, roots, errorSchema, ext, i + 1);
    if exact { IdenticalEarlier(layers, i + 1); }
    TracedEarlier(layers, sources, roots, errorSchema, ext, i + 1, i, name);
    StepLeads(front, stages[..i + 2], sources, roots, errorSchema, ext, exact, i, name);
    OwnLeads(front, sources, roots, errorSchema, ext, early, exact, i, name);
    MergedIsClosed(layers, stages, sources, roots, errorSchema, ext, i + 1);
    StagesKeep(layers, stages, sources, roots, errorSchema, ext, i + 1, |layers|);
    if exact { StagesKeepIdentically(layers, stages, sources, roots, errorSchema, ext, i + 1, |layers|); }
    StageHolds(early, late, exact, key);
    CutSchemaMeansTheSame(k, sources[i].available[name], early[key], late[key], v, o, layers, stages,
        sources, roots, errorSchema, ext, i, exact);
  }

  /**
   The error schema stands in the merge under its own name, and for every document that defines it, under its new name
   it accepts what that document's own definition means; nothing else has to refer to it.
   */
  lemma ErrorSchemaMeansTheSame(k: nat, v: Json, o: Validator, layers: seq<Layer>, stages: seq<Schemas>,
                                sources: seq<Source>, roots: map<nat, set<string>>, errorSchema: string,
                                ext: Extensions, i: nat)
    requires Built(layers, stages, sources, roots, Some(errorSchema), ext) && i < |layers| && Fit(o, ext, layers)
    requires NamesFree(layers[..i + 1]) && errorSchema in sources[i].available
    requires Traceable(layers, sources, roots, Some(errorSchema), ext, i, errorSchema)
    ensures errorSchema in stages[|layers|]
    ensures var schemas := stages[|layers|]; var key := NewName(errorSchema, layers[i].rename);
            && key in schemas
            && MeansTheSame(k, sources[i].available[errorSchema], v, o, sources, i, ext, schemas[key], schemas)
  {
    hide LayerBuilt, NamesFree, Fit, Traceable, MeansTheSame, ErrorSchemaLaid, Reachable;
    ErrorSchemaStands(layers, stages, sources, roots, Some(errorSchema), ext, i);
    RootReachable(CleanGraph(sources[i].available, ext), Wanted(sources, roots, Some(errorSchema), i), errorSchema);
    DefinitionMeansTheSame(k, errorSchema, v, o, layers, stages, sources, roots, Some(errorSchema), ext, i);
  }

  lemma StageHolds(before: Schemas, after: Schemas, exact: bool, key: string)
    requires Shut(before) && Keeps(before, after) && (exact ==> KeepsIdentically(before, after)) && key in before
    ensures key in after && PyEqual(before[key], after[key]) && (exact ==> before[key] == after[key])
    ensures Refs(before[key]) <= before.Keys
  {
    hide Refs, AsCompared;
  }

  // A definition of a source is what its own place leads to under its name.
  lemma OwnLeads(layers: seq<Layer>, sources: seq<Source>, roots: map<nat, set<string>>, errorSchema: Option<string>,
                 ext: Extensions, schemas: Schemas, exact: bool, i: nat, name: string)
    requires i < |layers| <= |sources| && name in sources[i].available
    requires Leads(MergeBridge(layers, sources, roots, errorSchema, ext, schemas, exact), i, name)
    ensures var key := NewName(name, layers[i].rename);
            && key in schemas
            && Alike(MergeBridge(layers, sources, roots, errorSchema, ext, schemas, exact), i,
                Cleaned(sources[i].available[name], ext), schemas[key])
  {
    hide Alike, Cleaned, MergeBridge;
    BridgeParts(layers, sources, roots, errorSchema, ext, schemas, exact);
  }

  // A schema of a source, in itself and wherever it leads.
  ghost predicate SchemaTraceable(node: Json, layers: seq<Layer>, sources: seq<Source>, roots: map<nat, set<string>>,
                                  errorSchema: Option<string>, ext: Extensions, i: nat) {
    && LeavesFree(Cleaned(node, ext), RenameAt(layers)(i))
    && forall ref :: ref in Refs(Cleaned(node, ext)) ==> Traceable(layers, sources, roots, errorSchema, ext, i, ref)
  }

  /** The same for any schema a kept operation holds, once its references follow the source's renames. */
  lemma KeptSchemaMeansTheSame(k: nat, node: Json, v: Json, o: Validator, layers: seq<Layer>, stages: seq<Schemas>,
                               sources: seq<Source>, roots: map<nat, set<string>>, errorSchema: Option<string>,
                               ext: Extensions, i: nat)
    requires Built(layers, stages, sources, roots, errorSchema, ext) && i < |layers| && Fit(o, ext, layers)
    requires NamesFree(layers[..i + 1]) && SchemaTraceable(node, layers, sources, roots, errorSchema, ext, i)
    requires Refs(Cleaned(node, ext)) <= layers[i].roots
    ensures MeansTheSame(k, node, v, o, sources, i, ext, Rewrite(Cleaned(node, ext), layers[i].rename),
        stages[|layers|])
  {
    hide LayerBuilt, Refs, AsCompared, Accepts, Indifferent, NamesFree, Linked, Cleaned, Rewrite, Asked,
        MeansTheSame, MergeBridge, Sound, LeavesFree, Traceable, Identical;
    var exact := Identical(layers);
    var front, early := layers[..i + 1], stages[i + 1];
    var cleaned := Cleaned(node, ext);
    var merged := Rewrite(cleaned, layers[i].rename);
    FrontBuilt(layers, stages, sources, roots, errorSchema, ext, i + 1);
    BuiltLinks(front, stages[..i + 2], sources, roots, errorSchema, ext);
    OperationPreserved(0, cleaned, front, i, early);
    BridgeParts(front, sources, roots, errorSchema, ext, early, exact);
    forall ref | ref in Refs(cleaned) ensures Met(front, sources, roots, errorSchema, ext, i, ref) {
      RootIsAsked(layers, stages, sources, roots, errorSchema, ext, i, ref);
      TracedEarlier(layers, sources, roots, errorSchema, ext, i + 1, i, ref);
    }
    CutSchemaMeansTheSame(k, node, merged, merged, v, o, layers, stages, sources, roots, errorSchema, ext, i, exact);
  }

  // ----- the extract as it is read

  // An extract cut for these routes from these documents, read back, with what the merge left.
  ghost predicate CutAndRead(c: Cuts, loaded: seq<Loaded>, routes: seq<Route>, layers: seq<Layer>, stages: seq<Schemas>,
                            roots: map<nat, set<string>>, errorSchema: Option<string>, ext: Extensions,
                            document: Document, byShape: ByShape) {
    && CutsOf(c, Upstreams(loaded), routes, Cutter(loaded, ext)) && Followed(c, layers, document.paths)
    && Reads(byShape, document.paths) && BraceFree(Upstreams(loaded)) && |layers| == |loaded|
    && Built(layers, stages, Definitions(loaded), roots, errorSchema, ext) && stages[|layers|] == document.schemas
  }

  // A route that the reader finds.
  ghost predicate Legible(loaded: seq<Loaded>, routes: seq<Route>, route: Route) {
    && route in routes && MatchOf(Upstreams(loaded), route).Some? && RouteFine(loaded, route)
    && !ThroughBare(Upstreams(loaded), route) && !Overruled(Upstreams(loaded), routes, route)
  }

  /**
   From the vendors' documents to what is read at run time: for a modeled route, every body it takes or answers with,
   every value and every depth, the extract has a schema exactly where the first matching source's operation has one,
   and a standard validator accepts of it, over the extract's schemas, what the vendor's schema means.
   */
  lemma ReadSchemaMeansTheSame(k: nat, v: Json, o: Validator, c: Cuts, loaded: seq<Loaded>, routes: seq<Route>,
                               layers: seq<Layer>, stages: seq<Schemas>, roots: map<nat, set<string>>,
                               errorSchema: Option<string>, ext: Extensions, document: Document, byShape: ByShape,
                               route: Route, place: Place, whole: Json)
    requires CutAndRead(c, loaded, routes, layers, stages, roots, errorSchema, ext, document, byShape)
    requires Legible(loaded, routes, route) && Fit(o, ext, layers)
    requires NamesFree(layers[..MatchOf(Upstreams(loaded), route).value.position + 1])
    ensures Lookup(byShape, route.verb, route.specPath).Some?
    ensures var found := MatchOf(Upstreams(loaded), route).value;
            var schema := SchemaAt(loaded[found.position].document, found.raw, place);
            var read := SchemaAt(whole, Lookup(byShape, route.verb, route.specPath).value.raw, place);
            && (schema.Some? <==> read.Some?)
            && (schema.Some? && SchemaTraceable(schema.value, layers, Definitions(loaded), roots, errorSchema, ext,
                    found.position) ==>
                  MeansTheSame(k, schema.value, v, o, Definitions(loaded), found.position, ext, read.value,
                      document.schemas))
  {
    hide Refs, MatchOf, OutPath, Rewrite, AsCompared, LayerBuilt, CutsOf, Reads, ThroughBare, Overruled, NamesFree,
        BraceFree, Lookup, Cleaned, OperationCut, SchemaAt, MeansTheSame, PartsDefined, Fit, Definitions,
        Upstreams, SchemaTraceable;
    var found := MatchOf(Upstreams(loaded), route).value;
    CutterAndReaderAgree(c, Upstreams(loaded), routes, Cutter(loaded, ext), document.paths, byShape, route);
    StandsRecorded(c, Upstreams(loaded), routes, Cutter(loaded, ext), OutPath(Upstreams(loaded), found), route.verb);
    UpstreamsLength(loaded);
    PlaceMeansTheSame(k, v, o, loaded, found.position, found.raw, layers, stages, roots, errorSchema, ext, place,
        whole);
  }

  // At every place of an operation that was cut and follows its source's renames.
  lemma PlaceMeansTheSame(k: nat, v: Json, o: Validator, loaded: seq<Loaded>, at: nat, raw: Json, layers: seq<Layer>,
                          stages: seq<Schemas>, roots: map<nat, set<string>>, errorSchema: Option<string>,
                          ext: Extensions, place: Place, whole: Json)
    requires Built(layers, stages, Definitions(loaded), roots, errorSchema, ext) && at < |layers| == |loaded|
    requires Fit(o, ext, layers) && NamesFree(layers[..at + 1]) && PartsDefined(loaded[at].document, raw)
    requires Refs(OperationCut(loaded[at].document, raw, ext)) <= layers[at].roots
    ensures var schema := SchemaAt(loaded[at].document, raw, place);
            var read := SchemaAt(whole, Rewrite(OperationCut(loaded[at].document, raw, ext), layers[at].rename), place);
            && (schema.Some? <==> read.Some?)
            && (schema.Some? && SchemaTraceable(schema.value, layers, Definitions(loaded), roots, errorSchema, ext,
                    at) ==>
                  MeansTheSame(k, schema.value, v, o, Definitions(loaded), at, ext, read.value, stages[|layers|]))
  {
    hide Refs, Rewrite, LayerBuilt, NamesFree, Cleaned, OperationCut, SchemaAt, MeansTheSame, PartsDefined, Fit,
        Definitions, SchemaTraceable;
    var vendor := loaded[at].document;
    PlaceKept(vendor, whole, raw, place, ext);
    PlaceRewritten(vendor, whole, raw, place, ext, layers[at].rename);
    var schema := SchemaAt(vendor, raw, place);
    if schema.Some? && SchemaTraceable(schema.value, layers, Definitions(loaded), roots, errorSchema, ext, at) {
      KeptSlots(vendor, raw, place, ext);
      PlaceRefs(whole, OperationCut(vendor, raw, ext), place);
      KeptSchemaMeansTheSame(k, schema.value, v, o, layers, stages, Definitions(loaded), roots, errorSchema, ext, at);
    }
  }

  /** The same for a named webhooks entry: what judges a delivery means what the first document that has it means. */
  lemma HookSchemaMeansTheSame(k: nat, v: Json, o: Validator, h: Hooks, loaded: seq<Loaded>, names: seq<string>,
                               layers: seq<Layer>, stages: seq<Schemas>, roots: map<nat, set<string>>,
                               errorSchema: Option<string>, ext: Extensions, document: Document, name: string,
                               place: Place, whole: Json)
    requires HooksOf(h, Sections(loaded), names, Cutter(loaded, ext)) && HooksFollowed(h, layers, document.hooks)
    requires Built(layers, stages, Definitions(loaded), roots, errorSchema, ext) && stages[|layers|] == document.schemas
    requires |layers| == |loaded| && name in names && FirstHook(Sections(loaded), name, 0).Some?
    requires HookFine(loaded, name) && Fit(o, ext, layers)
    requires NamesFree(layers[..FirstHook(Sections(loaded), name, 0).value + 1])
    ensures name in document.hooks
    ensures var at := FirstHook(Sections(loaded), name, 0).value;
            var schema := SchemaAt(loaded[at].document, Sections(loaded)[at][name], place);
            var read := SchemaAt(whole, document.hooks[name], place);
            && (schema.Some? <==> read.Some?)
            && (schema.Some? && SchemaTraceable(schema.value, layers, Definitions(loaded), roots, errorSchema, ext,
                    at) ==>
                  MeansTheSame(k, schema.value, v, o, Definitions(loaded), at, ext, read.value, document.schemas))
  {
    hide Refs, Rewrite, AsCompared, LayerBuilt, NamesFree, Cleaned, OperationCut, SchemaAt, MeansTheSame, PartsDefined,
        Fit, Definitions, SchemaTraceable, FirstHook, Sections, Undefined;
    var at := FirstHook(Sections(loaded), name, 0).value;
    assert HookKept(h, Sections(loaded), Cutter(loaded, ext), name);
    PlaceMeansTheSame(k, v, o, loaded, at, Sections(loaded)[at][name], layers, stages, roots, errorSchema, ext, place,
        whole);
  }

  lemma UpstreamsLength(loaded: seq<Loaded>)
    ensures |Upstreams(loaded)| == |loaded|
  {
  }

  // Such validators there are.
  lemma SomeValidatorFits(ext: Extensions, layers: seq<Layer>)
    requires Declared(ext) && TargetsPlain(ext)
    ensures Fit(LENIENT, ext, layers)
  {
    LenientIsSane();
    hide Declared, TargetsPlain, Silent, Sane, Identical;
    forall a, b, v | PyEqual(Obj(a), Obj(b)) ensures LENIENT.holds(a, v) <==> LENIENT.holds(b, v) {
      NullOnlyEither(a, b);
      NullOnlyEither(b, a);
    }
  }

  lemma NullOnlyEither(a: map<string, Json>, b: map<string, Json>)
    requires PyEqual(Obj(a), Obj(b))
    ensures NullOnly(a) ==> NullOnly(b)
  {
    if NullOnly(a) {
      PyEqualObj(Obj(a), Obj(b));
      assert PyEqual(a["enum"], b["enum"]);
      PyEqualArr(a["enum"], b["enum"]);
      assert PyEqual(a["enum"].items[0], b["enum"].items[0]);
      assert b["enum"].items == [Null];
    }
  }

  lemma LoneEnum(a: map<string, Json>, b: map<string, Json>)
    requires a == map["enum" := Arr([Null])] && PyEqual(Obj(a), Obj(b))
    ensures a == b
  {
    assert "enum" in a && NullOnly(a);
    PyEqualObj(Obj(a), Obj(b));
    NullOnlyEither(a, b);
  }

  // A validator that takes `enum` at its word (section 5.5.1 of draft 4 of the validation specification).
  ghost predicate Conforming(o: Validator) {
    forall items, v :: o.holds(map["enum" := Arr(items)], v) <==> v in items
  }

  const ENUMERATING := Validator((fields: map<string, Json>, v: Json) => EnumHolds(fields, v),
                                 (pattern: string, name: string) => pattern == name, (ref: string, v: Json) => true)

  predicate EnumHolds(fields: map<string, Json>, v: Json) {
    "enum" in fields && fields["enum"].Arr? ==> v in fields["enum"].items
  }

  lemma EnumeratingConforms()
    ensures Sane(ENUMERATING) && Silent(ENUMERATING) && Conforming(ENUMERATING)
  {
    var none: map<string, Json> := map[];
    assert "enum" !in none;
    PlainRef();
    forall items: seq<Json>, v ensures ENUMERATING.holds(map["enum" := Arr(items)], v) <==> v in items {
      assert "enum" in map["enum" := Arr(items)];
    }
  }

  /** A conforming validator tells `true` from 1, so it is what is merged that has to be identical; then it fits. */
  lemma ConformingFits(o: Validator, ext: Extensions, layers: seq<Layer>)
    requires Conforming(o) && Sound(o, ext)
    ensures !Indifferent(o) && (Fit(o, ext, layers) <==> Identical(layers))
  {
    hide Identical, Sane, Silent, Declared, TargetsPlain;
    var a, b := map["enum" := Arr([Bool(true)])], map["enum" := Arr([Num(1.0)])];
    OneIsTrue();
    assert o.holds(a, Bool(true)) && !o.holds(b, Bool(true));
  }

  lemma OneIsTrue()
    ensures PyEqual(Obj(map["enum" := Arr([Bool(true)])]), Obj(map["enum" := Arr([Num(1.0)])]))
  {
    assert PyEqual(Bool(true), Num(1.0));
    PyEqualIfItems(Arr([Bool(true)]), Arr([Num(1.0)]));
    PyEqualIfFields(Obj(map["enum" := Arr([Bool(true)])]), Obj(map["enum" := Arr([Num(1.0)])]));
  }

  // Of two such objects that Python finds equal, either may be laid over the other: every sane validator accepts the
  // same of both exactly when they are identical.
  lemma LaidOverExactlyWhen(a: map<string, Json>, b: map<string, Json>)
    requires OnlyPlain(a) && OnlyPlain(b) && PyEqual(Obj(a), Obj(b))
    ensures (forall k: nat, v, env, o :: Sane(o) ==>
               (Accepts(k, Obj(a), v, env, o, Standard) <==> Accepts(k, Obj(b), v, env, o, Standard)))
       <==> a == b
  {
    hide Accepts, AsCompared, OnlyPlain, Sane;
    if a != b {
      var o := Telling(a, b);
      TellingIsSane(a, b);
      PlainAccepts(0, a, Null, Whole(map[]), o);
      PlainAccepts(0, b, Null, Whole(map[]), o);
      assert Accepts(0, Obj(a), Null, Whole(map[]), o, Standard)
        != Accepts(0, Obj(b), Null, Whole(map[]), o, Standard);
    }
  }

  // A validator that tells the first from the second.
  function Telling(a: map<string, Json>, b: map<string, Json>): Validator {
    Validator((seen: map<string, Json>, v: Json) =>
                seen == map[] || (if seen == map["enum" := Arr([Null])] then v == Null else seen == a),
              (pattern: string, name: string) => true, (ref: string, v: Json) => true)
  }

  lemma TellingIsSane(a: map<string, Json>, b: map<string, Json>)
    requires a != b && PyEqual(Obj(a), Obj(b))
    ensures Sane(Telling(a, b)) && Telling(a, b).holds(a, Null) && !Telling(a, b).holds(b, Null)
  {
    hide AsCompared;
    var lone, none: map<string, Json> := map["enum" := Arr([Null])], map[];
    assert "enum" in lone && "enum" !in none;
    PyEqualObj(Obj(a), Obj(b));
    if b == lone {
      PyEqualObj(Obj(b), Obj(a));
      LoneEnum(b, a);
    }
    if a == lone { LoneEnum(a, b); }
  }

  // ----- references in data

  predicate OnlyPlain(fields: map<string, Json>) {
    && (forall key :: key in fields ==> HoldingOf(key) == Plain)
    && !("$ref" in fields && fields["$ref"].Str?)
  }

  // What is asked of the keywords that hold no schema is necessary: a reference in an `enum` is data, yet rewritten. It
  // is necessary even for validators that tell no more than Python does.
  lemma DataKeptExactlyWhen(fields: map<string, Json>, rename: map<string, string>)
    requires OnlyPlain(fields) && forall name :: name in rename ==> |rename[name]| > |name|
    ensures (forall k: nat, v, env, o :: Sane(o) ==>
               (Accepts(k, Obj(fields), v, env, o, Standard)
                <==> Accepts(k, Rewrite(Obj(fields), rename), v, env, o, Standard)))
       <==> LeavesFree(Obj(fields), rename)
    ensures (forall k: nat, v, env, o :: Sane(o) && Indifferent(o) ==>
               (Accepts(k, Obj(fields), v, env, o, Standard)
                <==> Accepts(k, Rewrite(Obj(fields), rename), v, env, o, Standard)))
       <==> LeavesFree(Obj(fields), rename)
  {
    hide Accepts, Refs, Rewrite, AsCompared, RewriteAt, RefsAt, Sane, HoldingOf, OnlyPlain, LeavesFree;
    var out := FieldsRewritten(fields, rename);
    PlainRewritten(fields, rename);
    PlainLeaves(fields, rename);
    if LeavesFree(Obj(fields), rename) {
      forall key | key in fields ensures out[key] == fields[key] { UntouchedField(fields, rename, key); }
      assert out == fields;
    } else {
      var key, name :| key in fields && name in RefsAt(key, fields[key]) && name in rename;
      DataRewritten(fields, rename, key, name);
      MarksApart(fields, out, key);
      var o := Marking(fields);
      PlainAccepts(0, fields, Null, Whole(map[]), o);
      PlainAccepts(0, out, Null, Whole(map[]), o);
      assert Accepts(0, Obj(fields), Null, Whole(map[]), o, Standard)
        && !Accepts(0, Rewrite(Obj(fields), rename), Null, Whole(map[]), o, Standard);
    }
  }

  function FieldsRewritten(fields: map<string, Json>, rename: map<string, string>): map<string, Json> {
    map key | key in fields.Keys :: RewriteAt(key, fields[key], rename)
  }

  lemma PlainRewritten(fields: map<string, Json>, rename: map<string, string>)
    requires OnlyPlain(fields)
    ensures var out := FieldsRewritten(fields, rename); Rewrite(Obj(fields), rename) == Obj(out) && OnlyPlain(out)
  {
    hide HoldingOf;
    var out := FieldsRewritten(fields, rename);
    assert forall key :: key in out ==> key in fields;
    if "$ref" in fields { StringsStay(fields["$ref"], rename); }
  }

  lemma StringsStay(value: Json, rename: map<string, string>)
    ensures Rewrite(value, rename).Str? <==> value.Str?
  {
  }

  lemma PlainLeaves(fields: map<string, Json>, rename: map<string, string>)
    requires OnlyPlain(fields)
    ensures LeavesFree(Obj(fields), rename) <==> forall key :: key in fields ==> RefsAt(key, fields[key]) !! rename.Keys
  {
    hide HoldingOf, Refs, RefsAt;
  }

  lemma UntouchedField(fields: map<string, Json>, rename: map<string, string>, key: string)
    requires OnlyPlain(fields) && key in fields && RefsAt(key, fields[key]) !! rename.Keys
    ensures RewriteAt(key, fields[key], rename) == fields[key]
  {
    hide HoldingOf;
    UntouchedMember(key, fields[key], rename);
  }

  lemma PlainAccepts(k: nat, fields: map<string, Json>, v: Json, env: Env, o: Validator)
    requires OnlyPlain(fields)
    ensures Accepts(k, Obj(fields), v, env, o, Standard) <==> o.holds(fields, v)
  {
    hide Accepts, KeywordAccepts, HoldingOf;
    SeenByStandard(fields);
    assert LeafKeywords(fields) == fields;
    ObjectAccepts(k, fields, v, env, o, Standard);
  }

  lemma DataRewritten(fields: map<string, Json>, rename: map<string, string>, key: string, name: string)
    requires OnlyPlain(fields) && key in fields && name in RefsAt(key, fields[key]) && name in rename
    requires forall n :: n in rename ==> |rename[n]| > |n|
    ensures !PyEqual(RewriteAt(key, fields[key], rename), fields[key])
    ensures Refs(fields[key]) != {} && Refs(RewriteAt(key, fields[key], rename)) != {}
  {
    hide Refs, Rewrite, AsCompared, HoldingOf;
    RewriteDiffers(fields[key], rename, name);
    RewriteRefs(fields[key], rename, NewName(name, rename));
  }

  // A validator that tells these keywords from all others.
  ghost function Marking(fields: map<string, Json>): Validator {
    Validator((seen: map<string, Json>, v: Json) => MarkedHolds(fields, seen, v),
              (pattern: string, name: string) => true, (ref: string, v: Json) => true)
  }

  predicate MarkedHolds(fields: map<string, Json>, seen: map<string, Json>, v: Json) {
    seen == map[] || (if seen == map["enum" := Arr([Null])] then v == Null else PyEqual(Obj(seen), Obj(fields)))
  }

  lemma MarksApart(fields: map<string, Json>, out: map<string, Json>, key: string)
    requires key in fields && out.Keys == fields.Keys && !PyEqual(out[key], fields[key])
    requires Refs(fields[key]) != {} && Refs(out[key]) != {}
    ensures var o := Marking(fields); Sane(o) && Indifferent(o) && o.holds(fields, Null) && !o.holds(out, Null)
  {
    hide AsCompared, Refs;
    var o, lone, none: map<string, Json> := Marking(fields), map["enum" := Arr([Null])], map[];
    assert "enum" in lone && "enum" !in none;
    forall a, b, v | PyEqual(Obj(a), Obj(b)) ensures o.holds(a, v) <==> o.holds(b, v) {
      PyEqualObj(Obj(a), Obj(b));
      PyEqualObj(Obj(b), Obj(a));
      if a == lone { LoneEnum(a, b); }
      if b == lone { LoneEnum(b, a); }
      assert a == none <==> a.Keys == {};
      assert b == none <==> b.Keys == {};
    }
    if PyEqual(Obj(out), Obj(fields)) { PyEqualObj(Obj(out), Obj(fields)); assert false; }
    assert fields != none && out != none;
    LoneHasNoRefs();
    assert fields != lone && out != lone;
  }

  lemma LoneHasNoRefs()
    ensures Refs(Arr([Null])) == {}
  {
  }
}
