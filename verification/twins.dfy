/**
 Definitions that come together at one name. The merge asks only that Python find them equal, so `true` may be laid over
 `1`; where they are identical, every definition stands in the merged schemas to the letter.
 */
module Twins {
  import opened Wrappers
  import opened JsonTree
  import opened References
  import opened Cleaning
  import opened Closures
  import opened Namespacing
  import opened Merging
  import opened Resolving

  // Definitions that come to one name, each with its references rewritten, are the same to the letter.
  ghost predicate Identical(layers: seq<Layer>) {
    forall i, j, a, b ::
      && 0 <= i < |layers| && a in layers[i].defs && 0 <= j < |layers| && b in layers[j].defs
      && NewName(a, layers[i].rename) == NewName(b, layers[j].rename)
      ==> Rewrite(layers[i].defs[a], layers[i].rename) == Rewrite(layers[j].defs[b], layers[j].rename)
  }

  ghost predicate KeepsIdentically(before: Schemas, after: Schemas) {
    forall key :: key in before ==> key in after && before[key] == after[key]
  }

  lemma IdenticalEarlier(layers: seq<Layer>, n: nat)
    requires Identical(layers) && n <= |layers|
    ensures Identical(layers[..n])
  {
    hide Rewrite;
  }

  // A source's definition is laid under its new name, and the name stays.
  lemma DefinitionLaid(layers: seq<Layer>, stages: seq<Schemas>, sources: seq<Source>, roots: map<nat, set<string>>,
                       errorSchema: Option<string>, ext: Extensions, n: nat, i: nat, name: string)
    requires Built(layers, stages, sources, roots, errorSchema, ext) && i < n <= |layers| && name in layers[i].defs
    ensures NewName(name, layers[i].rename) in stages[n]
  {
    hide IsClosure, Namespaces, Unspelled, Tainted, Renamed, Rewrite, AsCompared, Agreeing;
    var layer, wanted := layers[i], Wanted(sources, roots, errorSchema, i);
    assert LayerBuilt(layer, sources[i], wanted, stages[i], stages[i + 1], ext);
    var order, renamed :| Lists(order, layer.defs.Keys) && Holds(order, layer.defs, layer.rename, renamed)
      && Agreeing(stages[i], renamed) && stages[i + 1] == stages[i] + renamed;
    RenamedKeys(order, layer.defs, layer.rename, NewName(name, layer.rename));
    StagesGrow(layers, stages, sources, roots, errorSchema, ext, i + 1, n);
  }

  lemma PlacedIdentically(layers: seq<Layer>, stages: seq<Schemas>, sources: seq<Source>, roots: map<nat, set<string>>,
                          errorSchema: Option<string>, ext: Extensions, n: nat, i: nat, name: string)
    requires Built(layers, stages, sources, roots, errorSchema, ext) && Identical(layers)
    requires i < n <= |layers| && name in layers[i].defs
    ensures var key := NewName(name, layers[i].rename);
            key in stages[n] && stages[n][key] == Rewrite(layers[i].defs[name], layers[i].rename)
  {
    hide LayerBuilt, Rewrite;
    DefinitionLaid(layers, stages, sources, roots, errorSchema, ext, n, i, name);
    var m, other := StageOrigin(layers, stages, sources, roots, errorSchema, ext, n, NewName(name, layers[i].rename));
  }

  lemma StagesKeepIdentically(layers: seq<Layer>, stages: seq<Schemas>, sources: seq<Source>,
                              roots: map<nat, set<string>>, errorSchema: Option<string>, ext: Extensions,
                              m: nat, n: nat)
    requires Built(layers, stages, sources, roots, errorSchema, ext) && Identical(layers) && m <= n <= |layers|
    ensures KeepsIdentically(stages[m], stages[n])
  {
    hide LayerBuilt, Rewrite, Identical;
    forall key | key in stages[m] ensures key in stages[n] && stages[m][key] == stages[n][key] {
      var i, name := StageOrigin(layers, stages, sources, roots, errorSchema, ext, m, key);
      PlacedIdentically(layers, stages, sources, roots, errorSchema, ext, n, i, name);
    }
  }

  // ----- known beforehand

  // A document without its strings: what tells `true` from `1` in it, and no reference.
  function Bared(node: Json): Json {
    match node
    case Str(_) => Null
    case Arr(items) => Arr(seq(|items|, i requires 0 <= i < |items| => Bared(items[i])))
    case Obj(fields) => Obj(map key | key in fields.Keys :: Bared(fields[key]))
    case _ => node
  }

  lemma {:induction false} BaredRewritten(node: Json, rename: map<string, string>)
    ensures Bared(Rewrite(node, rename)) == Bared(node)
  {
    match node
    case Obj(fields) =>
      forall key | key in fields ensures Bared(RewriteAt(key, fields[key], rename)) == Bared(fields[key]) {
        if !(key == "$ref" && fields[key].Str?) { BaredRewritten(fields[key], rename); }
      }
      assert Bared(Rewrite(node, rename)).fields == Bared(node).fields;
    case Arr(items) =>
      forall i | 0 <= i < |items| ensures Bared(Rewrite(items[i], rename)) == Bared(items[i]) {
        BaredRewritten(items[i], rename);
      }
      assert Bared(Rewrite(node, rename)).items == Bared(node).items;
    case _ =>
  }

  // Documents that Python finds equal are identical exactly when they are so without their strings.
  lemma {:induction false} BaredDecides(a: Json, b: Json)
    requires PyEqual(a, b)
    ensures PyEqual(Bared(a), Bared(b))
    ensures Bared(a) == Bared(b) <==> a == b
  {
    match a
    case Obj(fields) =>
      PyEqualObj(a, b);
      forall key | key in fields
        ensures PyEqual(Bared(fields[key]), Bared(b.fields[key]))
        ensures Bared(fields[key]) == Bared(b.fields[key]) <==> fields[key] == b.fields[key]
      {
        BaredDecides(fields[key], b.fields[key]);
      }
      PyEqualIfFields(Bared(a), Bared(b));
      if Bared(a) == Bared(b) {
        forall key | key in fields ensures fields[key] == b.fields[key] {
          assert Bared(a).fields[key] == Bared(b).fields[key];
        }
        assert fields == b.fields;
      }
    case Arr(items) =>
      PyEqualArr(a, b);
      forall i | 0 <= i < |items|
        ensures PyEqual(Bared(items[i]), Bared(b.items[i]))
        ensures Bared(items[i]) == Bared(b.items[i]) <==> items[i] == b.items[i]
      {
        BaredDecides(items[i], b.items[i]);
      }
      PyEqualIfItems(Bared(a), Bared(b));
      if Bared(a) == Bared(b) {
        forall i | 0 <= i < |items| ensures items[i] == b.items[i] {
          assert Bared(a).items[i] == Bared(b).items[i];
        }
        assert items == b.items;
      }
    case _ =>
  }

  // No two reached definitions differ in nothing but strings and `true` against `1`, or `false` against `0`.
  ghost predicate NoTwins(sources: seq<Source>, roots: map<nat, set<string>>, errorSchema: Option<string>,
                          ext: Extensions) {
    forall i, j, a, b ::
      && 0 <= i < |sources| && Asked(sources, roots, errorSchema, ext, i, a)
      && 0 <= j < |sources| && Asked(sources, roots, errorSchema, ext, j, b)
      ==> SameBared(Collected(a, sources[i].available, ext), Collected(b, sources[j].available, ext))
  }

  ghost predicate SameBared(x: Json, y: Json) {
    PyEqual(Bared(x), Bared(y)) ==> Bared(x) == Bared(y)
  }

  /** Then whatever comes together is identical: a condition on the documents and the roots alone. */
  lemma IdenticalBeforehand(layers: seq<Layer>, stages: seq<Schemas>, sources: seq<Source>,
                            roots: map<nat, set<string>>, errorSchema: Option<string>, ext: Extensions)
    requires Built(layers, stages, sources, roots, errorSchema, ext) && NamesFree(layers)
    requires NoTwins(sources, roots, errorSchema, ext)
    ensures Identical(layers)
  {
    hide LayerBuilt, NamesFree, Rewrite, AsCompared, Asked, Collected, Bared, Linked, Resolved, SameBared;
    BuiltLinks(layers, stages, sources, roots, errorSchema, ext);
    forall i, j, a, b | 0 <= i < |layers| && a in layers[i].defs && 0 <= j < |layers| && b in layers[j].defs
      && NewName(a, layers[i].rename) == NewName(b, layers[j].rename)
      ensures Rewrite(layers[i].defs[a], layers[i].rename) == Rewrite(layers[j].defs[b], layers[j].rename)
    {
      LinkedGives(layers, stages[|layers|], i);
      LinkedGives(layers, stages[|layers|], j);
      Held(layers, stages, sources, roots, errorSchema, ext, i, a);
      Held(layers, stages, sources, roots, errorSchema, ext, j, b);
      assert SameBared(layers[i].defs[a], layers[j].defs[b]);
      RewrittenAlike(layers[i].defs[a], layers[i].rename, layers[j].defs[b], layers[j].rename);
    }
  }

  lemma RewrittenAlike(x: Json, r: map<string, string>, y: Json, s: map<string, string>)
    requires SameBared(x, y) && PyEqual(Rewrite(x, r), Rewrite(y, s))
    ensures Rewrite(x, r) == Rewrite(y, s)
  {
    hide Rewrite, AsCompared, Bared;
    BaredDecides(Rewrite(x, r), Rewrite(y, s));
    BaredRewritten(x, r);
    BaredRewritten(y, s);
  }
}
