/**
 What a cut takes from a document and what it writes down: its schemas and webhooks entries where they stand in it, and
 the whole ledger of stripped keys, in terms of the documents.
 */
module Records {
  import opened Wrappers
  import opened JsonTree
  import opened Cleaning
  import opened Closures
  import opened Routes
  import opened Merging
  import opened Operations
  import opened Cutting
  import opened Positions
  import Keeping
  import Pointers

  // ----- where things stand

  // The document has the member under these keys, each in an object.
  ghost predicate Has(document: Json, keys: seq<string>, value: Json)
    decreases |keys|
  {
    if keys == [] then document == value
    else document.Obj? && keys[0] in document.fields && Has(document.fields[keys[0]], keys[1..], value)
  }

  lemma HasTwo(document: Json, a: string, b: string, value: Json)
    ensures Has(document, [a, b], value) <==> Member(Member(Some(document), a), b) == Some(value)
  {
    assert [a, b][1..] == [b] && [b][1..] == [];
    if document.Obj? && a in document.fields {
      assert Has(document.fields[a], [b], value)
          <==> document.fields[a].Obj? && b in document.fields[a].fields && document.fields[a].fields[b] == value;
    }
  }

  // The text of a reference into the document, to anything but a schema.
  ghost predicate Local(ref: string) {
    HasPrefix(ref, "#/") && !HasPrefix(ref, "#/components/schemas/")
  }

  /**
   Such a reference stands for what its pointer leads to through the members of objects, and for nothing where it ends
   before; any other node stands for itself.
   */
  lemma TargetExactly(document: Json, node: Json, tokens: seq<string>, target: Json)
    ensures var ref := "#" + Pointers.PointerOf(tokens);
            Has(node, ["$ref"], Str(ref)) && Local(ref) ==>
              (Target(document, node) == Some(target) <==> Has(document, tokens, target))
    ensures (forall ref :: Has(node, ["$ref"], Str(ref)) ==> !Local(ref)) ==> Target(document, node) == Some(node)
  {
    hide Pointers.PointerOf, Has, Walk, Pointers.Tokens, Pointers.Split, Pointers.UnescapeAll;
    var pointer := Pointers.PointerOf(tokens);
    HasOne(node, "$ref", Str("#" + pointer));
    if Has(node, ["$ref"], Str("#" + pointer)) && Local("#" + pointer) {
      PointerTokens(tokens);
      assert ("#" + pointer)[2..] == pointer[1..];
      WalkHas(document, tokens, target);
    }
    if node.Obj? && "$ref" in node.fields && node.fields["$ref"].Str? {
      HasOne(node, "$ref", node.fields["$ref"]);
    }
  }

  lemma PointerTokens(tokens: seq<string>)
    requires HasPrefix("#" + Pointers.PointerOf(tokens), "#/")
    ensures Pointers.PointerOf(tokens) != ""
    ensures Pointers.UnescapeAll(Pointers.Split(Pointers.PointerOf(tokens)[1..])) == tokens
  {
    hide Pointers.PointerOf, Pointers.UnescapeAll, Pointers.Split;
    var pointer := Pointers.PointerOf(tokens);
    assert ("#" + pointer)[..2][1] == '/';
    Pointers.TokensOfPointer(tokens);
  }

  lemma {:induction false} WalkHas(document: Json, steps: seq<string>, target: Json)
    ensures Walk(document, steps) == Some(target) <==> Has(document, steps, target)
    decreases |steps|
  {
    if steps != [] && document.Obj? && steps[0] in document.fields {
      WalkHas(document.fields[steps[0]], steps[1..], target);
    }
  }

  /** A source's definitions are the schemas of its document's components. */
  lemma AvailableExactly(document: Json, name: string, schema: Json)
    ensures name in Available(document) && Available(document)[name] == schema
       <==> exists schemas: map<string, Json> ::
              Has(document, ["components", "schemas"], Obj(schemas)) && name in schemas && schemas[name] == schema
  {
    hide Has;
    var section := Member(Member(Some(document), "components"), "schemas");
    if section.Some? { HasTwo(document, "components", "schemas", section.value); }
    forall schemas: map<string, Json> | Has(document, ["components", "schemas"], Obj(schemas))
      ensures section == Some(Obj(schemas))
    {
      HasTwo(document, "components", "schemas", Obj(schemas));
    }
    if section.Some? && section.value.Obj? {
      assert Has(document, ["components", "schemas"], Obj(section.value.fields));
    }
  }

  // The document's webhooks entry of this name, its reference followed, has this operation under `post`.
  ghost predicate HasPost(document: Json, name: string, post: Json) {
    && post.Obj?
    && exists node :: Has(document, ["webhooks", name], node) && Target(document, node).Some?
         && Has(Target(document, node).value, ["post"], post)
  }

  lemma PostsExactly(document: Json, name: string, post: Json)
    ensures name in Posts(document) && Posts(document)[name] == post <==> HasPost(document, name, post)
  {
    hide Has, Target, Posts;
    PostsHave(document, name);
    var node := Member(Member(Some(document), "webhooks"), name);
    if node.Some? { HasTwo(document, "webhooks", name, node.value); }
    forall other | Has(document, ["webhooks", name], other) ensures node == Some(other) {
      HasTwo(document, "webhooks", name, other);
    }
    if node.Some? && Target(document, node.value).Some? { HasOne(Target(document, node.value).value, "post", post); }
  }

  lemma HasOne(node: Json, key: string, value: Json)
    ensures Has(node, [key], value) <==> Member(Some(node), key) == Some(value)
  {
    assert [key][1..] == [];
    if node.Obj? && key in node.fields { assert Has(node.fields[key], [], value) <==> node.fields[key] == value; }
  }

  // The first document that has the entry.
  ghost predicate FirstPost(loaded: seq<Loaded>, name: string, at: nat, post: Json) {
    && at < |loaded| && HasPost(loaded[at].document, name, post)
    && forall i :: 0 <= i < at ==> HasNone(loaded[i].document, name)
  }

  ghost predicate HasNone(document: Json, name: string) {
    forall post :: !HasPost(document, name, post)
  }

  lemma {:induction false} FirstHookFrom(sections: seq<map<string, Json>>, name: string, i: nat)
    requires i <= |sections| && forall j :: 0 <= j < i ==> name !in sections[j]
    ensures var at := FirstHook(sections, name, i);
            && (at.Some? ==> at.value < |sections| && name in sections[at.value]
                             && forall j :: 0 <= j < at.value ==> name !in sections[j])
            && (at.None? ==> forall j :: 0 <= j < |sections| ==> name !in sections[j])
    decreases |sections| - i
  {
    if i < |sections| && name !in sections[i] { FirstHookFrom(sections, name, i + 1); }
  }

  /** A webhooks entry comes from the first document that has it. */
  lemma HookExactly(loaded: seq<Loaded>, name: string)
    ensures var at := FirstHook(Sections(loaded), name, 0);
            && (at.Some? ==> FirstPost(loaded, name, at.value, Sections(loaded)[at.value][name]))
            && (at.None? <==> forall i :: 0 <= i < |loaded| ==> HasNone(loaded[i].document, name))
  {
    hide HasPost, Posts, FirstHook;
    FirstHookFrom(Sections(loaded), name, 0);
    forall i | 0 <= i < |loaded|
      ensures name !in Sections(loaded)[i] <==> HasNone(loaded[i].document, name)
      ensures name in Sections(loaded)[i] ==> HasPost(loaded[i].document, name, Sections(loaded)[i][name])
    {
      forall post { PostsExactly(loaded[i].document, name, post); }
      if name in Sections(loaded)[i] { PostsExactly(loaded[i].document, name, Sections(loaded)[i][name]); }
      if !HasNone(loaded[i].document, name) {
        var post :| HasPost(loaded[i].document, name, post);
        PostsExactly(loaded[i].document, name, post);
      }
    }
  }

  // What the document has under the name, if anything, stands for something.
  ghost predicate EntryDefined(document: Json, name: string) {
    forall node :: Has(document, ["webhooks", name], node) ==> Target(document, node) != None
  }

  /** An entry can be looked for and cut exactly when nothing undefined is met before it, nor in it. */
  lemma HookFineExactly(loaded: seq<Loaded>, name: string)
    ensures HookFine(loaded, name)
       <==> if forall i :: 0 <= i < |loaded| ==> HasNone(loaded[i].document, name) then
              forall i :: 0 <= i < |loaded| ==> EntryDefined(loaded[i].document, name)
            else
              exists at: nat, post :: FirstPost(loaded, name, at, post) && PartsDefined(loaded[at].document, post)
                && forall i :: 0 <= i < at ==> EntryDefined(loaded[i].document, name)
  {
    hide HasPost, Posts, FirstHook, PartsDefined, Target, EntryDefined, Undefined;
    HookExactly(loaded, name);
    forall i | 0 <= i < |loaded|
      ensures EntryDefined(loaded[i].document, name) <==> !Undefined(loaded[i].document, name)
    {
      EntryIs(loaded[i].document, name);
    }
    var at := FirstHook(Sections(loaded), name, 0);
    if at.Some? { OneFirst(loaded, name, at.value, Sections(loaded)[at.value][name]); }
  }

  lemma EntryIs(document: Json, name: string)
    ensures EntryDefined(document, name) <==> !Undefined(document, name)
  {
    hide Has, Target;
    var node := Member(Member(Some(document), "webhooks"), name);
    if node.Some? { HasTwo(document, "webhooks", name, node.value); }
    forall other | Has(document, ["webhooks", name], other) ensures node == Some(other) {
      HasTwo(document, "webhooks", name, other);
    }
  }

  // ----- the ledger of stripped keys

  ghost predicate RouteStrikes(loaded: seq<Loaded>, route: Route, name: string, ext: Extensions) {
    var found := MatchOf(Upstreams(loaded), route);
    found.Some? && Keeping.OperationStrikes(loaded[found.value.position].document, found.value.raw, name, ext)
  }

  // An entry's members other than its operation, and what is left out of that.
  ghost predicate HookStrikes(loaded: seq<Loaded>, hook: string, name: string, ext: Extensions) {
    exists at: nat, post :: FirstPost(loaded, hook, at, post)
      && (|| (name != "post" && EntryHas(loaded[at].document, hook, name))
          || Keeping.OperationStrikes(loaded[at].document, post, name, ext))
  }

  ghost predicate EntryHas(document: Json, hook: string, name: string) {
    exists node :: Has(document, ["webhooks", hook], node) && Target(document, node).Some?
      && Target(document, node).value.Obj? && name in Target(document, node).value.fields
  }

  // A definition that the merge took from some source shows the annotation.
  ghost predicate DefinitionStrikes(layers: seq<Layer>, sources: seq<Source>, name: string, ext: Extensions)
    requires |layers| <= |sources|
  {
    exists i, taken :: 0 <= i < |layers| && taken in layers[i].defs && taken in sources[i].available
      && ShownIn(sources[i].available[taken], name, ext)
  }

  lemma {:induction false} RoutesDropExactly(loaded: seq<Loaded>, routes: seq<Route>, name: string, ext: Extensions)
    requires Declared(ext) && forall route :: route in routes ==> RouteFine(loaded, route)
    ensures name in RoutesDrops(loaded, routes, ext)
       <==> exists route :: route in routes && RouteStrikes(loaded, route, name, ext)
  {
    hide Declared, OperationDrops, MatchOf, PartsDefined, Keeping.OperationStrikes, Upstreams;
    if routes != [] {
      var front, last := routes[..|routes| - 1], routes[|routes| - 1];
      assert routes == front + [last];
      RoutesDropExactly(loaded, front, name, ext);
      assert RouteFine(loaded, last);
      OneRouteDrops(loaded, last, name, ext);
      hide RouteStrikes;
      if route :| route in routes && RouteStrikes(loaded, route, name, ext) { assert route in front || route == last; }
    }
  }

  lemma OneRouteDrops(loaded: seq<Loaded>, route: Route, name: string, ext: Extensions)
    requires Declared(ext) && RouteFine(loaded, route)
    ensures var found := MatchOf(Upstreams(loaded), route);
            (RouteStrikes(loaded, route, name, ext)
             <==> && found.Some?
                  && name in OperationDrops(loaded[found.value.position].document, found.value.raw, ext))
  {
    hide Declared, OperationDrops, MatchOf, PartsDefined, Keeping.OperationStrikes;
    var found := MatchOf(Upstreams(loaded), route);
    if found.Some? {
      Keeping.DropsExactly(loaded[found.value.position].document, found.value.raw, name, ext);
    }
  }

  lemma EntryMembers(document: Json, hook: string, name: string)
    ensures name in Section(EntryOf(document, hook)).Keys <==> EntryHas(document, hook, name)
  {
    hide Has, Target;
    var node := Member(Member(Some(document), "webhooks"), hook);
    if node.Some? { HasTwo(document, "webhooks", hook, node.value); }
    forall other | Has(document, ["webhooks", hook], other) ensures node == Some(other) {
      HasTwo(document, "webhooks", hook, other);
    }
  }

  lemma OneHookDrops(loaded: seq<Loaded>, hook: string, name: string, ext: Extensions)
    requires Declared(ext) && HookFine(loaded, hook)
    ensures name in HookDrops(loaded, hook, ext) <==> HookStrikes(loaded, hook, name, ext)
  {
    hide Declared, OperationDrops, PartsDefined, Keeping.OperationStrikes, Posts, EntryOf, HasPost, FirstHook,
        EntryHas, Undefined;
    HookExactly(loaded, hook);
    var at := FirstHook(Sections(loaded), hook, 0);
    if at.Some? {
      var post := Sections(loaded)[at.value][hook];
      EntryMembers(loaded[at.value].document, hook, name);
      Keeping.DropsExactly(loaded[at.value].document, post, name, ext);
      OneFirst(loaded, hook, at.value, post);
    }
  }

  // There is no second first.
  lemma OneFirst(loaded: seq<Loaded>, hook: string, at: nat, post: Json)
    requires FirstPost(loaded, hook, at, post)
    ensures forall i: nat, other :: FirstPost(loaded, hook, i, other) ==> i == at && other == post
  {
    forall i: nat, other | FirstPost(loaded, hook, i, other) ensures i == at && other == post {
      hide HasPost;
      PostsExactly(loaded[at].document, hook, post);
      PostsExactly(loaded[at].document, hook, other);
    }
  }

  lemma {:induction false} HooksDropExactly(loaded: seq<Loaded>, hooks: seq<string>, name: string, ext: Extensions)
    requires Declared(ext) && forall hook :: hook in hooks ==> HookFine(loaded, hook)
    ensures name in HooksDrops(loaded, hooks, ext)
       <==> exists hook :: hook in hooks && HookStrikes(loaded, hook, name, ext)
  {
    hide Declared, HookDrops, HookFine, HookStrikes;
    if hooks != [] {
      var front, last := hooks[..|hooks| - 1], hooks[|hooks| - 1];
      assert hooks == front + [last];
      HooksDropExactly(loaded, front, name, ext);
      OneHookDrops(loaded, last, name, ext);
      if hook :| hook in hooks && HookStrikes(loaded, hook, name, ext) { assert hook in front || hook == last; }
    }
  }

  lemma {:induction false} DefinitionsStrip(stripped: set<string>, layers: seq<Layer>, sources: seq<Source>,
                                            name: string, ext: Extensions)
    requires Declared(ext) && |layers| <= |sources|
    ensures name in AllStripped(stripped, layers, sources, ext)
       <==> name in stripped || DefinitionStrikes(layers, sources, name, ext)
  {
    hide Declared, Stripped, ShownIn;
    if layers != [] {
      var n := |layers| - 1;
      var front := layers[..n];
      DefinitionsStrip(stripped, front, sources, name, ext);
      LayerStrips(AllStripped(stripped, front, sources, ext), layers[n], sources[n], name, ext);
      assert forall i :: 0 <= i < n ==> front[i] == layers[i];
      hide StrippedAfter;
      if DefinitionStrikes(front, sources, name, ext) {
        var i, taken :| 0 <= i < |front| && taken in front[i].defs && taken in sources[i].available
          && ShownIn(sources[i].available[taken], name, ext);
        assert taken in layers[i].defs;
      }
    }
  }

  lemma LayerStrips(stripped: set<string>, layer: Layer, source: Source, name: string, ext: Extensions)
    requires Declared(ext)
    ensures name in StrippedAfter(stripped, source.available, layer.defs.Keys, ext)
       <==> name in stripped
            || exists taken :: taken in layer.defs && taken in source.available
                 && ShownIn(source.available[taken], name, ext)
  {
    hide Declared, Stripped, ShownIn;
    forall taken | taken in source.available
      ensures name in Stripped(source.available[taken], ext) <==> ShownIn(source.available[taken], name, ext)
    {
      StrippedExactly(source.available[taken], ext, name);
    }
  }

  /**
   The ledger of a whole cut: the members left out of some kept operation or webhooks entry, and the annotations in some
   schema of one, or in some definition that was merged. Nothing else is in it, and nothing of this is missing.
   */
  lemma LedgerExactly(loaded: seq<Loaded>, modeled: seq<Route>, hooks: seq<string>, layers: seq<Layer>, name: string,
                      ext: Extensions)
    requires Declared(ext) && |layers| == |loaded|
    requires forall route :: route in modeled ==> RouteFine(loaded, route)
    requires forall hook :: hook in hooks ==> HookFine(loaded, hook)
    ensures name in AllStripped({} + RoutesDrops(loaded, modeled, ext) + HooksDrops(loaded, hooks, ext), layers,
        Definitions(loaded), ext)
       <==> || (exists route :: route in modeled && RouteStrikes(loaded, route, name, ext))
            || (exists hook :: hook in hooks && HookStrikes(loaded, hook, name, ext))
            || DefinitionStrikes(layers, Definitions(loaded), name, ext)
  {
    hide Declared, RouteFine, HookFine, RoutesDrops, HooksDrops, RouteStrikes, HookStrikes, DefinitionStrikes,
        AllStripped;
    RoutesDropExactly(loaded, modeled, name, ext);
    HooksDropExactly(loaded, hooks, name, ext);
    DefinitionsStrip({} + RoutesDrops(loaded, modeled, ext) + HooksDrops(loaded, hooks, ext), layers,
        Definitions(loaded), name, ext);
  }
}
