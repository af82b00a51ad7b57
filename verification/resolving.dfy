/**
 Names as the vendors' documents mean them: a source's own definition, else the first earlier document's. The cut
 resolves them so exactly when what a source lacks was handed on by the document that defines it.
 */
module Resolving {
  import opened Wrappers
  import opened JsonTree
  import opened References
  import opened Reachability
  import opened Cleaning
  import opened Closures
  import opened Namespacing
  import opened Merging

  // ----- over the documents alone

  // The document that defines a name for source `i`.
  function Definer(sources: seq<Source>, i: nat, name: string): (found: Option<nat>)
    ensures found.Some? ==> found.value <= i && found.value < |sources| && name in sources[found.value].available
  {
    if i < |sources| && name in sources[i].available then Some(i) else FirstDefiner(sources, 0, i, name)
  }

  function FirstDefiner(sources: seq<Source>, j: nat, n: nat, name: string): (found: Option<nat>)
    ensures found.Some? ==>
              && j <= found.value < n && found.value < |sources| && name in sources[found.value].available
              && forall m :: j <= m < found.value ==> name !in sources[m].available
    ensures found.None? ==> forall m :: j <= m < n && m < |sources| ==> name !in sources[m].available
    decreases n - j
  {
    if j >= n || j >= |sources| then None
    else if name in sources[j].available then Some(j)
    else FirstDefiner(sources, j + 1, n, name)
  }

  // The definition as the document spells it.
  function Meant(sources: seq<Source>, i: nat, name: string): (meant: Option<(Json, nat)>) {
    var found := Definer(sources, i, name);
    if found.Some? then Some((sources[found.value].available[name], found.value)) else None
  }

  /**
   What a cleaned node of source `i` says, with references followed through the documents to depth `k`. A name that no
   document up to the source's defines says nothing.
   */
  ghost function UnfoldFrom(k: nat, node: Json, sources: seq<Source>, ext: Extensions, i: nat): Json
    decreases k, node, 0
  {
    match node
    case Obj(fields) => Obj(map key | key in fields.Keys :: UnfoldMemberFrom(k, key, fields[key], sources, ext, i))
    case Arr(items) => Arr(seq(|items|, n requires 0 <= n < |items| => UnfoldFrom(k, items[n], sources, ext, i)))
    case _ => node
  }

  ghost function UnfoldMemberFrom(k: nat, key: string, value: Json, sources: seq<Source>, ext: Extensions,
                                  i: nat): Json
    decreases k, value, 1
  {
    if !IsSchemaRef(key, value) then UnfoldFrom(k, value, sources, ext, i)
    else if k == 0 then Null
    else
      var meant := Meant(sources, i, RefName(value));
      if meant.None? then Obj(map[])
      else UnfoldFrom(k - 1, Cleaned(meant.value.0, ext), sources, ext, meant.value.1)
  }

  // The roots of source `i` reach the name in its document.
  ghost predicate Asked(sources: seq<Source>, roots: map<nat, set<string>>, errorSchema: Option<string>,
                        ext: Extensions, i: nat, name: string) {
    i < |sources|
    && Reachable(CleanGraph(sources[i].available, ext), Wanted(sources, roots, errorSchema, i), name)
  }

  ghost predicate AskedFirst(sources: seq<Source>, roots: map<nat, set<string>>, errorSchema: Option<string>,
                             ext: Extensions, j: nat, name: string) {
    Asked(sources, roots, errorSchema, ext, j, name)
    && forall m :: 0 <= m < j ==> !Asked(sources, roots, errorSchema, ext, m, name)
  }

  // What a source reaches and lacks is reached first by the roots of the document that defines it, if any does.
  ghost predicate HandedOn(sources: seq<Source>, roots: map<nat, set<string>>, errorSchema: Option<string>,
                           ext: Extensions, i: nat, name: string) {
    Asked(sources, roots, errorSchema, ext, i, name) && name !in sources[i].available ==>
      var found := Definer(sources, i, name);
      found.Some? ==> AskedFirst(sources, roots, errorSchema, ext, found.value, name)
  }

  // Of these names, seen from these places, each is handed on, and what its definition refers to is among them.
  ghost predicate HandedAmong(sources: seq<Source>, roots: map<nat, set<string>>, errorSchema: Option<string>,
                              ext: Extensions, among: set<(nat, string)>) {
    forall m, name :: (m, name) in among ==>
      && HandedOn(sources, roots, errorSchema, ext, m, name)
      && var meant := Meant(sources, m, name);
         meant.Some? ==> forall ref :: ref in Refs(Cleaned(meant.value.0, ext)) ==> (meant.value.1, ref) in among
  }

  // Wherever the name leads, every name met on the way is handed on.
  ghost predicate Followable(sources: seq<Source>, roots: map<nat, set<string>>, errorSchema: Option<string>,
                             ext: Extensions, i: nat, name: string) {
    exists among :: (i, name) in among && HandedAmong(sources, roots, errorSchema, ext, among)
  }

  lemma FollowStep(sources: seq<Source>, roots: map<nat, set<string>>, errorSchema: Option<string>, ext: Extensions,
                   i: nat, name: string)
    requires Followable(sources, roots, errorSchema, ext, i, name)
    ensures HandedOn(sources, roots, errorSchema, ext, i, name)
    ensures var meant := Meant(sources, i, name);
            meant.Some? ==> forall ref :: ref in Refs(Cleaned(meant.value.0, ext)) ==>
                Followable(sources, roots, errorSchema, ext, meant.value.1, ref)
  {
    hide HandedOn, Meant, Refs, Cleaned;
    var among :| (i, name) in among && HandedAmong(sources, roots, errorSchema, ext, among);
  }

  // ----- what the closures hold

  lemma Held(layers: seq<Layer>, stages: seq<Schemas>, sources: seq<Source>, roots: map<nat, set<string>>,
                errorSchema: Option<string>, ext: Extensions, m: nat, name: string)
    requires Built(layers, stages, sources, roots, errorSchema, ext) && m < |layers|
    ensures name in layers[m].defs
       <==> Asked(sources, roots, errorSchema, ext, m, name)
            && (name in sources[m].available || name !in stages[m])
    ensures name in layers[m].defs ==> layers[m].defs[name] == Collected(name, sources[m].available, ext)
  {
    hide Refs, Cleaned, Overlaid, Unspelled, Tainted, Namespaces, CleanGraph, Collected;
    var wanted := Wanted(sources, roots, errorSchema, m);
    assert LayerBuilt(layers[m], sources[m], wanted, stages[m], stages[m + 1], ext);
    if wanted == {} { NothingReached(CleanGraph(sources[m].available, ext), name); }
  }

  // What a source's roots reach, its layer mentions.
  lemma AskedIsMentioned(layers: seq<Layer>, stages: seq<Schemas>, sources: seq<Source>, roots: map<nat, set<string>>,
                         errorSchema: Option<string>, ext: Extensions, m: nat, name: string)
    requires Built(layers, stages, sources, roots, errorSchema, ext) && m < |layers|
    requires Asked(sources, roots, errorSchema, ext, m, name)
    ensures Mentions(layers[m], name)
  {
    hide Refs, Cleaned, Overlaid, Unspelled, Tainted, Namespaces;
    var wanted := Wanted(sources, roots, errorSchema, m);
    assert LayerBuilt(layers[m], sources[m], wanted, stages[m], stages[m + 1], ext);
    var g := CleanGraph(sources[m].available, ext);
    if wanted == {} { NothingReached(g, name); }
    var path :| IsPath(g, path) && path[0] in wanted && path[|path| - 1] == name;
    if |path| > 1 {
      var from := path[|path| - 2];
      PrefixReachable(g, wanted, path, |path| - 2);
      assert name in Successors(g, from) && from in sources[m].available;
      Held(layers, stages, sources, roots, errorSchema, ext, m, from);
    }
  }

  lemma FreeEarlier(layers: seq<Layer>, n: nat, i: nat)
    requires n <= i <= |layers| && NamesFree(layers[..i])
    ensures NamesFree(layers[..n])
    decreases i - n
  {
    hide Mentions;
    var all, front := layers[..i], layers[..n];
    assert forall j :: 0 <= j < n ==> front[j] == all[j];
    forall a, b, name | 0 <= a <= b < |front| && name in front[a].rename
      ensures !Mentions(front[b], front[a].rename[name])
    {
      assert all[a] == front[a] && all[b] == front[b];
    }
  }

  // What had been merged under a name that a source mentions are the closures' definitions of that name.
  lemma MergedIsHeld(layers: seq<Layer>, stages: seq<Schemas>, sources: seq<Source>, roots: map<nat, set<string>>,
                     errorSchema: Option<string>, ext: Extensions, n: nat, name: string)
    requires Built(layers, stages, sources, roots, errorSchema, ext) && n < |layers| && NamesFree(layers[..n + 1])
    requires Mentions(layers[n], name)
    ensures name in stages[n] <==> exists m :: 0 <= m < n && name in layers[m].defs
  {
    hide LayerBuilt, NamesFree, Linked, Mentions;
    var front := layers[..n];
    FrontBuilt(layers, stages, sources, roots, errorSchema, ext, n);
    assert layers[..n + 1] == front + [layers[n]];
    NamesStayFree(front, layers[n]);
    BuiltLinks(front, stages[..n + 1], sources, roots, errorSchema, ext);
    if name in stages[n] {
      var m := MergedNameDefined(front, layers[n], stages[n], name);
      assert name in layers[m].defs;
    } else if m :| 0 <= m < n && name in layers[m].defs {
      HeldIsMerged(front, stages[n], m, name);
      assert false;
    }
  }

  // The first closure that holds a name does not rename it.
  lemma {:induction false} HeldIsMerged(layers: seq<Layer>, schemas: Schemas, m: nat, name: string)
    requires Linked(layers, schemas) && m < |layers| && name in layers[m].defs
    ensures name in schemas
    decreases m
  {
    hide Rewrite, AsCompared, Mentions;
    LinkedGives(layers, schemas, m);
    if name in layers[m].rename {
      var j :| 0 <= j < m && name in layers[j].defs;
      HeldIsMerged(layers, schemas, j, name);
    }
  }

  // Before any source that asks for a name, a closure holds it exactly when an earlier source asked for it.
  lemma {:induction false} HeldWhenAsked(layers: seq<Layer>, stages: seq<Schemas>, sources: seq<Source>,
                                         roots: map<nat, set<string>>, errorSchema: Option<string>, ext: Extensions,
                                         m: nat, name: string)
    returns (l: nat)
    requires Built(layers, stages, sources, roots, errorSchema, ext) && m < |layers| && NamesFree(layers[..m + 1])
    requires Asked(sources, roots, errorSchema, ext, m, name)
    ensures l <= m && name in layers[l].defs
  {
    hide LayerBuilt, NamesFree, Mentions, Asked;
    Held(layers, stages, sources, roots, errorSchema, ext, m, name);
    if name in layers[m].defs {
      l := m;
    } else {
      AskedIsMentioned(layers, stages, sources, roots, errorSchema, ext, m, name);
      MergedIsHeld(layers, stages, sources, roots, errorSchema, ext, m, name);
      l :| 0 <= l < m && name in layers[l].defs;
    }
  }

  // Where the merge finds a name that a source lacks: in the closure of the first source that asked for it.
  lemma OwnerAskedFirst(layers: seq<Layer>, stages: seq<Schemas>, sources: seq<Source>, roots: map<nat, set<string>>,
                        errorSchema: Option<string>, ext: Extensions, i: nat, name: string)
    requires Built(layers, stages, sources, roots, errorSchema, ext) && i < |layers| && NamesFree(layers[..i + 1])
    requires Asked(sources, roots, errorSchema, ext, i, name) && name !in sources[i].available
    ensures Defined(layers, i, name)
    ensures AskedFirst(sources, roots, errorSchema, ext, Owner(layers, i, name), name)
  {
    hide LayerBuilt, NamesFree, Mentions, Asked, Owner;
    var l := HeldWhenAsked(layers, stages, sources, roots, errorSchema, ext, i, name);
    var o := Owner(layers, i, name);
    Held(layers, stages, sources, roots, errorSchema, ext, o, name);
    Held(layers, stages, sources, roots, errorSchema, ext, i, name);
    AskedIsMentioned(layers, stages, sources, roots, errorSchema, ext, i, name);
    MergedIsHeld(layers, stages, sources, roots, errorSchema, ext, i, name);
    OwnerIs(layers, i, name);
    forall m | 0 <= m < o ensures !Asked(sources, roots, errorSchema, ext, m, name) {
      if Asked(sources, roots, errorSchema, ext, m, name) {
        FreeEarlier(layers, m + 1, i + 1);
        var earlier := HeldWhenAsked(layers, stages, sources, roots, errorSchema, ext, m, name);
        assert false;
      }
    }
  }

  lemma OwnerOfOwn(layers: seq<Layer>, stages: seq<Schemas>, sources: seq<Source>, roots: map<nat, set<string>>,
                   errorSchema: Option<string>, ext: Extensions, i: nat, name: string)
    requires Built(layers, stages, sources, roots, errorSchema, ext) && i < |layers|
    requires Asked(sources, roots, errorSchema, ext, i, name) && name in sources[i].available
    ensures Defined(layers, i, name) && Owner(layers, i, name) == i
    ensures layers[i].defs[name] == Cleaned(sources[i].available[name], ext)
  {
    hide LayerBuilt, Asked, Cleaned;
    Held(layers, stages, sources, roots, errorSchema, ext, i, name);
  }

  /**
   A name that a source reaches and lacks is found by the merge where the documents define it exactly when the defining
   document's own roots reach it, and no roots before those do.
   */
  lemma ResolvedAsMeantExactlyWhen(layers: seq<Layer>, stages: seq<Schemas>, sources: seq<Source>,
                                   roots: map<nat, set<string>>, errorSchema: Option<string>, ext: Extensions, i: nat,
                                   name: string)
    requires Built(layers, stages, sources, roots, errorSchema, ext) && i < |layers| && NamesFree(layers[..i + 1])
    requires Asked(sources, roots, errorSchema, ext, i, name) && name !in sources[i].available
    requires Definer(sources, i, name).Some?
    ensures var j := Definer(sources, i, name).value;
            && Defined(layers, i, name)
            && (Owner(layers, i, name) == j <==> AskedFirst(sources, roots, errorSchema, ext, j, name))
            && (Owner(layers, i, name) == j ==>
                  layers[j].defs[name] == Cleaned(sources[j].available[name], ext))
  {
    hide LayerBuilt, NamesFree, Asked, Cleaned, Owner;
    OwnerAskedFirst(layers, stages, sources, roots, errorSchema, ext, i, name);
    var o, j := Owner(layers, i, name), Definer(sources, i, name).value;
    Held(layers, stages, sources, roots, errorSchema, ext, o, name);
    if AskedFirst(sources, roots, errorSchema, ext, j, name) {
      assert !(o < j) && !(j < o);
    }
  }

  // What nobody defines is a hole in the closure where the merge finds it.
  lemma UndefinedIsHole(layers: seq<Layer>, stages: seq<Schemas>, sources: seq<Source>, roots: map<nat, set<string>>,
                        errorSchema: Option<string>, ext: Extensions, i: nat, name: string)
    requires Built(layers, stages, sources, roots, errorSchema, ext) && i < |layers| && NamesFree(layers[..i + 1])
    requires Asked(sources, roots, errorSchema, ext, i, name) && Definer(sources, i, name).None?
    ensures Defined(layers, i, name) && layers[Owner(layers, i, name)].defs[name] == Obj(map[])
  {
    hide LayerBuilt, NamesFree, Asked, Cleaned, Owner;
    OwnerAskedFirst(layers, stages, sources, roots, errorSchema, ext, i, name);
    Held(layers, stages, sources, roots, errorSchema, ext, Owner(layers, i, name), name);
  }

  // Handed on, a name leads where the documents say.
  lemma FoundAsMeant(layers: seq<Layer>, stages: seq<Schemas>, sources: seq<Source>, roots: map<nat, set<string>>,
                     errorSchema: Option<string>, ext: Extensions, i: nat, name: string)
    requires Built(layers, stages, sources, roots, errorSchema, ext) && i < |layers| && NamesFree(layers[..i + 1])
    requires Asked(sources, roots, errorSchema, ext, i, name) && HandedOn(sources, roots, errorSchema, ext, i, name)
    ensures Defined(layers, i, name)
    ensures var o := Owner(layers, i, name);
            var meant := Meant(sources, i, name);
            && (meant.None? ==> layers[o].defs[name] == Obj(map[]))
            && (meant.Some? ==>
                  && meant.value.1 == o <= i && layers[o].defs[name] == Cleaned(meant.value.0, ext)
                  && Asked(sources, roots, errorSchema, ext, o, name) && name in sources[o].available
                  && meant.value.0 == sources[o].available[name])
  {
    hide LayerBuilt, NamesFree, Asked, Cleaned, Owner, AskedFirst;
    if name in sources[i].available {
      OwnerOfOwn(layers, stages, sources, roots, errorSchema, ext, i, name);
    } else if Definer(sources, i, name).Some? {
      ResolvedAsMeantExactlyWhen(layers, stages, sources, roots, errorSchema, ext, i, name);
      FirstIsAsked(sources, roots, errorSchema, ext, Definer(sources, i, name).value, name);
    } else {
      UndefinedIsHole(layers, stages, sources, roots, errorSchema, ext, i, name);
    }
  }

  lemma FirstIsAsked(sources: seq<Source>, roots: map<nat, set<string>>, errorSchema: Option<string>, ext: Extensions,
                     j: nat, name: string)
    requires AskedFirst(sources, roots, errorSchema, ext, j, name)
    ensures Asked(sources, roots, errorSchema, ext, j, name)
  {
    hide Asked;
  }

  // What a reached definition refers to is reached.
  lemma AskedThrough(sources: seq<Source>, roots: map<nat, set<string>>, errorSchema: Option<string>, ext: Extensions,
                     j: nat, name: string, ref: string)
    requires Asked(sources, roots, errorSchema, ext, j, name) && name in sources[j].available
    requires ref in Refs(Cleaned(sources[j].available[name], ext))
    ensures Asked(sources, roots, errorSchema, ext, j, ref)
  {
    hide Refs, Cleaned;
    ReachableStep(CleanGraph(sources[j].available, ext), Wanted(sources, roots, errorSchema, j), name, ref);
  }

  // ----- what the documents say is what the merge says

  lemma {:induction false} UnfoldedAsMeant(k: nat, node: Json, layers: seq<Layer>, stages: seq<Schemas>,
                                           sources: seq<Source>, roots: map<nat, set<string>>,
                                           errorSchema: Option<string>, ext: Extensions, i: nat)
    requires Built(layers, stages, sources, roots, errorSchema, ext) && i < |layers| && NamesFree(layers[..i + 1])
    requires forall ref :: ref in Refs(node) ==>
               Asked(sources, roots, errorSchema, ext, i, ref) && Followable(sources, roots, errorSchema, ext, i, ref)
    ensures UnfoldFrom(k, node, sources, ext, i) == UnfoldAt(k, node, layers, i)
    decreases k, node, 0
  {
    hide Built, NamesFree, Followable, Asked, UnfoldMemberAt, UnfoldMemberFrom, Refs;
    match node
    case Obj(fields) =>
      forall key | key in fields
        ensures UnfoldMemberFrom(k, key, fields[key], sources, ext, i) == UnfoldMemberAt(k, key, fields[key], layers, i)
      {
        MemberRefs(node, key);
        MemberUnfoldedAsMeant(k, key, fields[key], layers, stages, sources, roots, errorSchema, ext, i);
      }
      assert UnfoldFrom(k, node, sources, ext, i).fields == UnfoldAt(k, node, layers, i).fields;
    case Arr(items) =>
      forall n | 0 <= n < |items| ensures UnfoldFrom(k, items[n], sources, ext, i) == UnfoldAt(k, items[n], layers, i) {
        ItemRefs(node, n);
        UnfoldedAsMeant(k, items[n], layers, stages, sources, roots, errorSchema, ext, i);
      }
      assert UnfoldFrom(k, node, sources, ext, i).items == UnfoldAt(k, node, layers, i).items;
    case _ =>
  }

  lemma {:induction false} MemberUnfoldedAsMeant(k: nat, key: string, value: Json, layers: seq<Layer>,
                                                 stages: seq<Schemas>, sources: seq<Source>,
                                                 roots: map<nat, set<string>>, errorSchema: Option<string>,
                                                 ext: Extensions, i: nat)
    requires Built(layers, stages, sources, roots, errorSchema, ext) && i < |layers| && NamesFree(layers[..i + 1])
    requires forall ref :: ref in RefsAt(key, value) ==>
               Asked(sources, roots, errorSchema, ext, i, ref) && Followable(sources, roots, errorSchema, ext, i, ref)
    ensures UnfoldMemberFrom(k, key, value, sources, ext, i) == UnfoldMemberAt(k, key, value, layers, i)
    decreases k, value, 1
  {
    hide Built, NamesFree, Asked, UnfoldAt, UnfoldFrom, Refs, HandedOn, Owner, Defined, Cleaned, Meant, Followable;
    if !IsSchemaRef(key, value) {
      UnfoldedAsMeant(k, value, layers, stages, sources, roots, errorSchema, ext, i);
    } else if k > 0 {
      var name := RefName(value);
      assert name in RefsAt(key, value);
      FollowStep(sources, roots, errorSchema, ext, i, name);
      FoundAsMeant(layers, stages, sources, roots, errorSchema, ext, i, name);
      if Meant(sources, i, name).Some? {
        var definition, j := Meant(sources, i, name).value.0, Meant(sources, i, name).value.1;
        FreeEarlier(layers, j + 1, i + 1);
        forall ref | ref in Refs(Cleaned(definition, ext)) ensures Asked(sources, roots, errorSchema, ext, j, ref) {
          AskedThrough(sources, roots, errorSchema, ext, j, name, ref);
        }
        UnfoldedAsMeant(k - 1, Cleaned(definition, ext), layers, stages, sources, roots, errorSchema, ext, j);
      } else {
        HoleSaysNothing(k - 1, layers, Owner(layers, i, name));
      }
    }
  }

  lemma HoleSaysNothing(k: nat, layers: seq<Layer>, i: nat)
    ensures UnfoldAt(k, Obj(map[]), layers, i) == Obj(map[])
  {
  }

  /**
   The merge as a whole: for every source, every definition its roots reach, and every depth, the merged document says
   under the definition's new name what the cleaned definition says in the documents, when every name it leads to is
   handed on.
   */
  lemma SourcePreserved(k: nat, layers: seq<Layer>, stages: seq<Schemas>, sources: seq<Source>,
                        roots: map<nat, set<string>>, errorSchema: Option<string>, ext: Extensions, i: nat,
                        name: string)
    requires Built(layers, stages, sources, roots, errorSchema, ext) && i < |layers| && NamesFree(layers[..i + 1])
    requires Asked(sources, roots, errorSchema, ext, i, name) && name in sources[i].available
    requires Followable(sources, roots, errorSchema, ext, i, name)
    ensures var schemas := stages[|layers|];
            var key := NewName(name, layers[i].rename);
            && key in schemas
            && PyEqual(UnfoldFrom(k, Cleaned(sources[i].available[name], ext), sources, ext, i),
               UnfoldIn(k, schemas[key], schemas))
  {
    hide LayerBuilt, NamesFree, UnfoldAt, UnfoldFrom, UnfoldIn, Refs, Cleaned, AsCompared, Followable, Wanted;
    FollowStep(sources, roots, errorSchema, ext, i, name);
    var node := Cleaned(sources[i].available[name], ext);
    forall ref | ref in Refs(node) ensures Asked(sources, roots, errorSchema, ext, i, ref) {
      AskedThrough(sources, roots, errorSchema, ext, i, name, ref);
    }
    UnfoldedAsMeant(k, node, layers, stages, sources, roots, errorSchema, ext, i);
    SourceSaysAsMerged(k, layers, stages, sources, roots, errorSchema, ext, i, name);
  }

  /** The same for a kept operation. */
  lemma OperationSaysTheSame(k: nat, operation: Json, layers: seq<Layer>, stages: seq<Schemas>, sources: seq<Source>,
                             roots: map<nat, set<string>>, errorSchema: Option<string>, ext: Extensions, i: nat)
    requires Built(layers, stages, sources, roots, errorSchema, ext) && i < |layers| && NamesFree(layers[..i + 1])
    requires Refs(operation) <= layers[i].roots
    requires forall ref :: ref in Refs(operation) ==> Followable(sources, roots, errorSchema, ext, i, ref)
    ensures PyEqual(UnfoldFrom(k, operation, sources, ext, i),
        UnfoldIn(k, Rewrite(operation, layers[i].rename), stages[|layers|]))
  {
    hide LayerBuilt, NamesFree, UnfoldAt, UnfoldFrom, UnfoldIn, Refs, Rewrite, AsCompared, Followable;
    forall ref | ref in Refs(operation) ensures Asked(sources, roots, errorSchema, ext, i, ref) {
      RootIsAsked(layers, stages, sources, roots, errorSchema, ext, i, ref);
    }
    UnfoldedAsMeant(k, operation, layers, stages, sources, roots, errorSchema, ext, i);
    OperationSaysAsMerged(k, operation, layers, stages, sources, roots, errorSchema, ext, i);
  }

  lemma RootIsAsked(layers: seq<Layer>, stages: seq<Schemas>, sources: seq<Source>, roots: map<nat, set<string>>,
                    errorSchema: Option<string>, ext: Extensions, i: nat, name: string)
    requires Built(layers, stages, sources, roots, errorSchema, ext) && i < |layers| && name in layers[i].roots
    ensures Asked(sources, roots, errorSchema, ext, i, name)
  {
    hide CleanGraph, IsClosure, Overlaid, Unspelled, Namespaces, Wanted;
    var wanted := Wanted(sources, roots, errorSchema, i);
    assert LayerBuilt(layers[i], sources[i], wanted, stages[i], stages[i + 1], ext);
    RootReachable(CleanGraph(sources[i].available, ext), wanted, name);
  }

  // ----- stubs

  // Some source is the first to reach the name, and lacks it.
  ghost predicate AskedInVain(sources: seq<Source>, roots: map<nat, set<string>>, errorSchema: Option<string>,
                              ext: Extensions, i: nat, name: string) {
    i < |sources| && AskedFirst(sources, roots, errorSchema, ext, i, name) && name !in sources[i].available
  }

  lemma StubbedByExactly(layers: seq<Layer>, stages: seq<Schemas>, sources: seq<Source>, roots: map<nat, set<string>>,
                         errorSchema: Option<string>, ext: Extensions, i: nat, name: string)
    requires Built(layers, stages, sources, roots, errorSchema, ext) && i < |layers| && NamesFree(layers[..i + 1])
    ensures StubbedBy(stages, sources, roots, errorSchema, ext, i, name)
       <==> AskedInVain(sources, roots, errorSchema, ext, i, name)
  {
    hide LayerBuilt, NamesFree, Mentions, CleanGraph, Wanted, Reachable;
    if Asked(sources, roots, errorSchema, ext, i, name) && name !in sources[i].available {
      Held(layers, stages, sources, roots, errorSchema, ext, i, name);
      OwnerAskedFirst(layers, stages, sources, roots, errorSchema, ext, i, name);
      OwnerIs(layers, i, name);
      if AskedFirst(sources, roots, errorSchema, ext, i, name) {
        var o := Owner(layers, i, name);
        assert o == i;
        assert name in layers[i].defs;
      }
    }
  }

  /** The stubs of the whole extract: the names that the first source to reach them lacks. */
  lemma StubbedExactly(layers: seq<Layer>, stages: seq<Schemas>, sources: seq<Source>, roots: map<nat, set<string>>,
                       errorSchema: Option<string>, ext: Extensions, name: string)
    requires Built(layers, stages, sources, roots, errorSchema, ext) && NamesFree(layers)
    ensures name in AllStubbed({}, layers, sources)
       <==> exists i :: 0 <= i < |layers| && AskedInVain(sources, roots, errorSchema, ext, i, name)
  {
    hide LayerBuilt, NamesFree, AllStubbed, StubbedBy, AskedInVain;
    StubbedAtItsStage(layers, stages, sources, roots, errorSchema, ext, name);
    forall i | 0 <= i < |layers|
      ensures StubbedBy(stages, sources, roots, errorSchema, ext, i, name)
         <==> AskedInVain(sources, roots, errorSchema, ext, i, name)
    {
      assert layers[..|layers|] == layers;
      FreeEarlier(layers, i + 1, |layers|);
      StubbedByExactly(layers, stages, sources, roots, errorSchema, ext, i, name);
    }
  }

  /** A stub is what it is taken for, a name that no document so far defines, exactly when the name was handed on. */
  lemma StubIsUndefinedExactlyWhen(layers: seq<Layer>, stages: seq<Schemas>, sources: seq<Source>,
                                   roots: map<nat, set<string>>, errorSchema: Option<string>, ext: Extensions, i: nat,
                                   name: string)
    requires Built(layers, stages, sources, roots, errorSchema, ext) && i < |layers| && NamesFree(layers[..i + 1])
    requires StubbedBy(stages, sources, roots, errorSchema, ext, i, name)
    ensures (forall m :: 0 <= m <= i ==> name !in sources[m].available)
       <==> HandedOn(sources, roots, errorSchema, ext, i, name)
  {
    hide Built, NamesFree, Asked, StubbedBy;
    StubbedByExactly(layers, stages, sources, roots, errorSchema, ext, i, name);
  }
}
