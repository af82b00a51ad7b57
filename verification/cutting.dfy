/** The cut as a whole (`cut_extract`), and the extract's reader (`Extract`). */
module Cutting {
  import opened Wrappers
  import opened JsonTree
  import opened References
  import opened Cleaning
  import opened Closures
  import opened Routes
  import opened Merging
  import opened Resolving
  import opened Operations

  type Paths = map<string, map<string, Json>>

  // ----- what is loaded

  // One loaded document: its label, all of it, and its operations in document order.
  datatype Loaded = Loaded(tag: string, document: Json, upstream: Upstream)

  function Section(node: Option<Json>): map<string, Json> {
    if node.Some? && node.value.Obj? then node.value.fields else map[]
  }

  /** `_available` */
  function Available(document: Json): Schemas {
    Section(Member(Member(Some(document), "components"), "schemas"))
  }

  // A webhooks entry with an operation under `post`.
  predicate IsEntry(entry: Option<Json>) {
    entry.Some? && Member(entry, "post").Some? && Member(entry, "post").value.Obj?
  }

  // What a document has under a webhooks name, its reference followed.
  function EntryOf(document: Json, name: string): Option<Json> {
    TargetOf(document, Member(Member(Some(document), "webhooks"), name))
  }

  // The `post` of each of a document's webhooks entries.
  function Posts(document: Json): map<string, Json> {
    map name | name in Section(Member(Some(document), "webhooks")).Keys && IsEntry(EntryOf(document, name))
      :: Member(EntryOf(document, name), "post").value
  }

  function Upstreams(loaded: seq<Loaded>): seq<Upstream> {
    seq(|loaded|, i requires 0 <= i < |loaded| => loaded[i].upstream)
  }

  function Sections(loaded: seq<Loaded>): seq<map<string, Json>> {
    seq(|loaded|, i requires 0 <= i < |loaded| => Posts(loaded[i].document))
  }

  function Definitions(loaded: seq<Loaded>): seq<Source> {
    seq(|loaded|, i requires 0 <= i < |loaded| => Source(loaded[i].tag, Available(loaded[i].document)))
  }

  // What is kept of an operation of source `i`; the lemmas hold of any such function.
  function Cutter(loaded: seq<Loaded>, ext: Extensions): (nat, Json) -> Json {
    (i: nat, raw: Json) => if i < |loaded| then OperationCut(loaded[i].document, raw, ext) else Null
  }

  // ----- the first loop

  ghost predicate Stands(paths: Paths, out: string, verb: string) {
    out in paths && verb in paths[out]
  }

  // What the first loop of the cut leaves: operations, where each came from, what they refer to, what was not found.
  datatype Cuts = Cuts(paths: Paths, origin: map<(string, string), nat>, roots: map<nat, set<string>>,
      missing: set<Route>)

  // This route's first match is put here.
  ghost predicate Puts(sources: seq<Upstream>, route: Route, out: string, verb: string) {
    route.verb == verb && MatchOf(sources, route).Some? && OutPath(sources, MatchOf(sources, route).value) == out
  }

  // What stands here is what the last modeled route that puts something here puts.
  ghost predicate CutFrom(sources: seq<Upstream>, routes: seq<Route>, cutOp: (nat, Json) -> Json,
                          out: string, verb: string, operation: Json, position: nat) {
    exists i :: 0 <= i < |routes| && LastToPut(sources, routes, i, out, verb)
      && (var found := MatchOf(sources, routes[i]).value;
          cutOp(found.position, found.raw) == operation && found.position == position)
  }

  ghost predicate LastToPut(sources: seq<Upstream>, routes: seq<Route>, i: nat, out: string, verb: string)
    requires i < |routes|
  {
    Puts(sources, routes[i], out, verb) && forall j :: i < j < |routes| ==> !Puts(sources, routes[j], out, verb)
  }

  ghost predicate CutsOf(c: Cuts, sources: seq<Upstream>, routes: seq<Route>, cutOp: (nat, Json) -> Json) {
    && (forall out, verb :: Stands(c.paths, out, verb) <==> (out, verb) in c.origin)
    && (forall out, verb :: Stands(c.paths, out, verb) ==>
          var at := c.origin[(out, verb)];
          && CutFrom(sources, routes, cutOp, out, verb, c.paths[out][verb], at)
          && at in c.roots && Refs(c.paths[out][verb]) <= c.roots[at])
    && (forall route :: route in routes && MatchOf(sources, route).Some? ==>
          Stands(c.paths, OutPath(sources, MatchOf(sources, route).value), route.verb))
    && (forall route :: route in c.missing <==> route in routes && MatchOf(sources, route).None?)
    && (forall at, name :: at in c.roots && name in c.roots[at] <==> RootOf(sources, routes, cutOp, at, name))
  }

  // The roots are what the matched operations refer to.
  ghost predicate RootOf(sources: seq<Upstream>, routes: seq<Route>, cutOp: (nat, Json) -> Json, at: nat,
                         name: string) {
    exists route :: route in routes && RootBy(sources, route, cutOp, at, name)
  }

  ghost predicate RootBy(sources: seq<Upstream>, route: Route, cutOp: (nat, Json) -> Json, at: nat, name: string) {
    && MatchOf(sources, route).Some? && MatchOf(sources, route).value.position == at
    && name in Refs(cutOp(at, MatchOf(sources, route).value.raw))
  }

  function KeepOperation(c: Cuts, out: string, verb: string, operation: Json, at: nat): Cuts {
    c.(paths := c.paths[out := (if out in c.paths then c.paths[out] else map[])[verb := operation]],
       origin := c.origin[(out, verb) := at],
       roots := c.roots[at := (if at in c.roots then c.roots[at] else {}) + Refs(operation)])
  }

  lemma RouteMissing(c: Cuts, sources: seq<Upstream>, routes: seq<Route>, cutOp: (nat, Json) -> Json, route: Route)
    requires CutsOf(c, sources, routes, cutOp) && MatchOf(sources, route).None?
    ensures CutsOf(c.(missing := c.missing + {route}), sources, routes + [route], cutOp)
  {
    hide Refs, MatchOf, CutFrom, RootOf;
    var next, all := c.(missing := c.missing + {route}), routes + [route];
    RootsStay(sources, routes, cutOp, route);
    forall out, verb | Stands(next.paths, out, verb)
      ensures CutFrom(sources, all, cutOp, out, verb, next.paths[out][verb], next.origin[(out, verb)])
    {
      EntryStays(sources, routes, cutOp, route, out, verb, c.paths[out][verb], c.origin[(out, verb)]);
    }
    forall at, name ensures !RootBy(sources, route, cutOp, at, name) {
    }
  }

  // What stands from some of the routes still stands after one more that puts nothing there.
  lemma EntryStays(sources: seq<Upstream>, routes: seq<Route>, cutOp: (nat, Json) -> Json, route: Route,
                   out: string, verb: string, operation: Json, at: nat)
    requires CutFrom(sources, routes, cutOp, out, verb, operation, at) && !Puts(sources, route, out, verb)
    ensures CutFrom(sources, routes + [route], cutOp, out, verb, operation, at)
  {
    hide MatchOf, OutPath;
    var all := routes + [route];
    var i :| 0 <= i < |routes| && LastToPut(sources, routes, i, out, verb)
      && (var found := MatchOf(sources, routes[i]).value;
          cutOp(found.position, found.raw) == operation && found.position == at);
    assert all[i] == routes[i] && LastToPut(sources, all, i, out, verb);
  }

  lemma RootsStay(sources: seq<Upstream>, routes: seq<Route>, cutOp: (nat, Json) -> Json, route: Route)
    ensures forall at, name ::
              RootOf(sources, routes + [route], cutOp, at, name)
              <==> RootOf(sources, routes, cutOp, at, name) || RootBy(sources, route, cutOp, at, name)
  {
    hide Refs, MatchOf;
    var all := routes + [route];
    forall at, name
      ensures RootOf(sources, all, cutOp, at, name)
         <==> RootOf(sources, routes, cutOp, at, name) || RootBy(sources, route, cutOp, at, name)
    {
      if r :| r in all && RootBy(sources, r, cutOp, at, name) { assert r in routes || r == route; }
      if r :| r in routes && RootBy(sources, r, cutOp, at, name) { assert r in all; }
      assert route in all;
    }
  }

  lemma RouteKept(c: Cuts, sources: seq<Upstream>, routes: seq<Route>, cutOp: (nat, Json) -> Json, route: Route)
    requires CutsOf(c, sources, routes, cutOp) && MatchOf(sources, route).Some?
    ensures var found := MatchOf(sources, route).value;
            CutsOf(KeepOperation(c, OutPath(sources, found), route.verb, cutOp(found.position, found.raw),
                found.position),
                   sources, routes + [route], cutOp)
  {
    hide Refs, MatchOf, OutPath, CutFrom, RootOf;
    var found := MatchOf(sources, route).value;
    var out, verb, op, at := OutPath(sources, found), route.verb, cutOp(found.position, found.raw), found.position;
    var next, all := KeepOperation(c, out, verb, op, at), routes + [route];
    RootsStay(sources, routes, cutOp, route);
    NewEntry(sources, routes, cutOp, route);
    forall o, v ensures Stands(next.paths, o, v) <==> Stands(c.paths, o, v) || (o == out && v == verb) {
    }
    forall o, v | Stands(next.paths, o, v)
      ensures CutFrom(sources, all, cutOp, o, v, next.paths[o][v], next.origin[(o, v)])
    {
      if !(o == out && v == verb) {
        EntryStays(sources, routes, cutOp, route, o, v, c.paths[o][v], c.origin[(o, v)]);
      }
    }
    forall r | r in all && MatchOf(sources, r).Some?
      ensures Stands(next.paths, OutPath(sources, MatchOf(sources, r).value), r.verb)
    {
    }
    forall a, name ensures a in next.roots && name in next.roots[a] <==> RootOf(sources, all, cutOp, a, name) {
      assert RootBy(sources, route, cutOp, a, name) <==> a == at && name in Refs(op);
    }
  }

  lemma NewEntry(sources: seq<Upstream>, routes: seq<Route>, cutOp: (nat, Json) -> Json, route: Route)
    requires MatchOf(sources, route).Some?
    ensures var found := MatchOf(sources, route).value;
            var all := routes + [route];
            && CutFrom(sources, all, cutOp, OutPath(sources, found), route.verb, cutOp(found.position, found.raw),
               found.position)
            && forall name :: name in Refs(cutOp(found.position, found.raw)) ==>
               RootOf(sources, all, cutOp, found.position, name)
  {
    hide Refs, MatchOf, OutPath;
    var all := routes + [route];
    assert all[|routes|] == route && route in all;
    assert LastToPut(sources, all, |routes|, OutPath(sources, MatchOf(sources, route).value), route.verb);
  }

  // Where the route is matched, everything its operation refers to is defined.
  predicate RouteFine(loaded: seq<Loaded>, route: Route) {
    var found := MatchOf(Upstreams(loaded), route);
    found.Some? ==> PartsDefined(loaded[found.value.position].document, found.value.raw)
  }

  // The keys that cutting the routes' operations drops.
  function RoutesDrops(loaded: seq<Loaded>, routes: seq<Route>, ext: Extensions): set<string> {
    if routes == [] then {}
    else
      var found := MatchOf(Upstreams(loaded), routes[|routes| - 1]);
      RoutesDrops(loaded, routes[..|routes| - 1], ext)
      + if found.Some? then OperationDrops(loaded[found.value.position].document, found.value.raw, ext) else {}
  }

  lemma RoutesDropsMore(loaded: seq<Loaded>, routes: seq<Route>, route: Route, ext: Extensions)
    ensures var found := MatchOf(Upstreams(loaded), route);
            RoutesDrops(loaded, routes + [route], ext) == RoutesDrops(loaded, routes, ext)
              + (if found.Some? then OperationDrops(loaded[found.value.position].document, found.value.raw, ext)
                 else {})
  {
    hide OperationDrops, MatchOf, Upstreams;
    assert (routes + [route])[..|routes|] == routes;
  }

  /**
   The first loop of the cut: each modeled route's operation from the first source that declares it. Not where some
   such operation refers to what its document does not define.
   */
  method CutRoutes(cut: Cut, loaded: seq<Loaded>, modeled: seq<Route>) returns (ok: bool, c: Cuts)
    requires cut.Valid()
    modifies cut`stripped
    ensures ok <==> forall route :: route in modeled ==> RouteFine(loaded, route)
    ensures ok ==> CutsOf(c, Upstreams(loaded), modeled, Cutter(loaded, cut.ext))
    ensures ok ==> cut.stripped == old(cut.stripped) + RoutesDrops(loaded, modeled, cut.ext)
  {
    hide CutsOf, Refs, OperationCut, OperationDrops, PartsDefined, RoutesDrops;
    var sources := Upstreams(loaded);
    ghost var cutOp := Cutter(loaded, cut.ext);
    var indexes := [];
    for i := 0 to |sources|
      invariant |indexes| == i && forall j :: 0 <= j < i ==> Indexes(indexes[j], sources[j].paths)
      invariant cut.stripped == old(cut.stripped)
    {
      var index := IndexPaths(sources[i].paths);
      indexes := indexes + [index];
    }
    c := Cuts(map[], map[], map[], {});
    NothingCut(sources, cutOp);
    NothingDropped(loaded, cut.ext);
    assert modeled[..0] == [];
    for n := 0 to |modeled|
      invariant CutsOf(c, sources, modeled[..n], cutOp)
      invariant forall j :: 0 <= j < n ==> RouteFine(loaded, modeled[j])
      invariant cut.stripped == old(cut.stripped) + RoutesDrops(loaded, modeled[..n], cut.ext)
    {
      var route := modeled[n];
      assert modeled[..n + 1] == modeled[..n] + [route];
      RoutesDropsMore(loaded, modeled[..n], route, cut.ext);
      var found := FindOperation(sources, indexes, route);
      if found.None? {
        RouteMissing(c, sources, modeled[..n], cutOp, route);
        c := c.(missing := c.missing + {route});
      } else {
        RouteKept(c, sources, modeled[..n], cutOp, route);
        var hit := found.value;
        var fine, operation := CutOperation(cut, loaded[hit.position].document, hit.raw);
        if !fine {
          assert route in modeled && !RouteFine(loaded, route);
          return false, c;
        }
        c := KeepOperation(c, OutPath(sources, hit), route.verb, operation, hit.position);
      }
    }
    assert modeled[..|modeled|] == modeled;
    ok := true;
  }

  lemma NothingDropped(loaded: seq<Loaded>, ext: Extensions)
    ensures RoutesDrops(loaded, [], ext) == {}
    ensures HooksDrops(loaded, [], ext) == {}
  {
  }

  lemma NothingCut(sources: seq<Upstream>, cutOp: (nat, Json) -> Json)
    ensures CutsOf(Cuts(map[], map[], map[], {}), sources, [], cutOp)
  {
  }

  /** The sources in declaration order, each through its index, until one has the operation. */
  method FindOperation(sources: seq<Upstream>, indexes: seq<PathIndex>, route: Route) returns (found: Option<Found>)
    requires |indexes| == |sources| && forall i :: 0 <= i < |sources| ==> Indexes(indexes[i], sources[i].paths)
    ensures found == MatchOf(sources, route)
  {
    for position := 0 to |sources|
      invariant MatchOf(sources, route) == FirstMatch(sources, route.verb, route.specPath, position)
    {
      var l := StripBase(sources[position].basePath, route.specPath);
      if l.Some? {
        var key := (route.verb, TemplateShape(l.value));
        assert FirstDeclared(sources[position].paths, key.0, key.1)
            == if key in indexes[position] then Some(indexes[position][key]) else None;
        if key in indexes[position] {
          var hit := indexes[position][key];
          return Some(Found(position, hit.path, hit.raw));
        }
      }
    }
    found := None;
  }

  // ----- reading the extract

  datatype Operation = Operation(verb: string, specPath: string, raw: Json)

  type ByShape = map<string, map<string, Operation>>

  ghost predicate IsOperationOf(operation: Operation, paths: Paths, shape: string, verb: string) {
    && operation.verb == verb && TemplateShape(operation.specPath) == shape
    && Stands(paths, operation.specPath, verb) && operation.raw == paths[operation.specPath][verb]
  }

  // Every operation can be looked up by its shape and method; of several, one of them is found.
  ghost predicate Reads(byShape: ByShape, paths: Paths) {
    && (forall path, verb :: Stands(paths, path, verb) ==>
          TemplateShape(path) in byShape && verb in byShape[TemplateShape(path)])
    && (forall shape, verb :: shape in byShape && verb in byShape[shape] ==>
          IsOperationOf(byShape[shape][verb], paths, shape, verb))
  }

  // One path's operations entered under its shape; what was entered before under the same key gives way.
  function Indexed(byShape: ByShape, path: string, operations: map<string, Json>): ByShape {
    var shape := TemplateShape(path);
    var entered := map verb | verb in operations.Keys :: Operation(verb, path, operations[verb]);
    byShape[shape := (if shape in byShape then byShape[shape] else map[]) + entered]
  }

  lemma ReadsMore(done: Paths, path: string, operations: map<string, Json>, byShape: ByShape)
    requires Reads(byShape, done) && path !in done
    ensures Reads(Indexed(byShape, path, operations), done[path := operations])
  {
    hide TemplateShape;
    var next, more := Indexed(byShape, path, operations), done[path := operations];
    forall p, verb | Stands(more, p, verb) ensures TemplateShape(p) in next && verb in next[TemplateShape(p)] {
      if p != path { assert Stands(done, p, verb); }
    }
    forall shape, verb | shape in next && verb in next[shape]
      ensures IsOperationOf(next[shape][verb], more, shape, verb)
    {
      if shape == TemplateShape(path) && verb in operations {
        assert next[shape][verb] == Operation(verb, path, operations[verb]);
      } else {
        assert IsOperationOf(byShape[shape][verb], done, shape, verb);
      }
    }
  }

  class Extract {
    var byShape: ByShape

    constructor (paths: Paths)
      ensures Reads(byShape, paths)
    {
      hide TemplateShape;
      byShape := map[];
      new;
      var left := paths.Keys;
      while left != {}
        invariant left <= paths.Keys
        invariant Reads(byShape, map path | path in paths && path !in left :: paths[path])
      {
        var path :| path in left;
        ghost var done := map p | p in paths && p !in left :: paths[p];
        ReadsMore(done, path, paths[path], byShape);
        byShape := Indexed(byShape, path, paths[path]);
        left := left - {path};
        assert (map p | p in paths && p !in left :: paths[p]) == done[path := paths[path]];
      }
      assert (map p | p in paths && p !in left :: paths[p]) == paths;
    }

    function Operation(verb: string, specPath: string): Option<Operation>
      reads this
    {
      Lookup(byShape, verb, specPath)
    }
  }

  function Lookup(byShape: ByShape, verb: string, specPath: string): Option<Operation> {
    var shape := TemplateShape(specPath);
    if shape in byShape && verb in byShape[shape] then Some(byShape[shape][verb]) else None
  }

  // ----- cutter and reader agree

  // The extract's paths, with the operations that stand where the cut put them.
  ghost predicate SamePlaces(c: Cuts, paths: Paths) {
    forall out, verb :: Stands(paths, out, verb) <==> Stands(c.paths, out, verb)
  }

  ghost predicate NoneThroughBare(sources: seq<Upstream>, routes: seq<Route>) {
    forall route :: route in routes ==> !ThroughBare(sources, route)
  }

  /**
   The route without its last slash is modeled too, matched through the bare base path of its source, and its
   operation stands where this route's is looked for: this route has none, or another that was put there before.
   */
  ghost predicate Overruled(sources: seq<Upstream>, routes: seq<Route>, route: Route) {
    exists i :: 0 <= i < |routes| && Overrules(sources, routes, i, route)
  }

  // The other route is this one without its last slash, and put at the path with the slash.
  predicate BareOf(sources: seq<Upstream>, other: Route, route: Route) {
    ThroughBare(sources, other) && other.verb == route.verb && other.specPath + "/" == route.specPath
  }

  ghost predicate Overrules(sources: seq<Upstream>, routes: seq<Route>, i: nat, route: Route)
    requires i < |routes|
  {
    && BareOf(sources, routes[i], route)
    && MatchOf(sources, routes[i]) != MatchOf(sources, route)
    && (MatchOf(sources, route).Some? ==> route !in routes[i + 1..])
  }

  // The one modeled route, or none, that put what stands at the shape a route is looked up by.
  lemma StandsForMatch(c: Cuts, sources: seq<Upstream>, routes: seq<Route>, cutOp: (nat, Json) -> Json, route: Route,
                       out: string)
    requires CutsOf(c, sources, routes, cutOp) && BraceFree(sources)
    requires !ThroughBare(sources, route) && !Overruled(sources, routes, route)
    requires route in routes && Stands(c.paths, out, route.verb) && TemplateShape(out) == TemplateShape(route.specPath)
    ensures MatchOf(sources, route).Some?
    ensures var found := MatchOf(sources, route).value;
            && OutPath(sources, found) == out && c.paths[out][route.verb] == cutOp(found.position, found.raw)
            && c.origin[(out, route.verb)] == found.position
  {
    hide Refs, MatchOf, OutPath, TemplateShape, BareBase, ThroughBare;
    var verb := route.verb;
    assert CutFrom(sources, routes, cutOp, out, verb, c.paths[out][verb], c.origin[(out, verb)]);
    var i :| 0 <= i < |routes| && LastToPut(sources, routes, i, out, verb)
      && (var found := MatchOf(sources, routes[i]).value;
          cutOp(found.position, found.raw) == c.paths[out][verb] && found.position == c.origin[(out, verb)]);
    if ThroughBare(sources, routes[i]) {
      BareStands(sources, routes[i], route, out);
      assert !Overrules(sources, routes, i, route);
      if MatchOf(sources, routes[i]) != MatchOf(sources, route) {
        var j :| i + 1 <= j < |routes| && routes[j] == route;
        MatchedStands(sources, route);
        PlainAlike(out, OutPath(sources, MatchOf(sources, route).value));
        assert false;
      }
    } else {
      MatchedStands(sources, routes[i]);
      ShapeDecides(sources, routes[i], route);
    }
  }

  lemma ShapeDecides(sources: seq<Upstream>, a: Route, b: Route)
    requires BraceFree(sources) && a.verb == b.verb && TemplateShape(a.specPath) == TemplateShape(b.specPath)
    ensures MatchOf(sources, a) == MatchOf(sources, b)
  {
    hide TemplateShape, FirstMatch;
    SameShapeSameMatch(sources, a.verb, a.specPath, b.specPath, 0);
  }

  lemma MatchedStands(sources: seq<Upstream>, route: Route)
    requires BraceFree(sources) && MatchOf(sources, route).Some? && !ThroughBare(sources, route)
    ensures TemplateShape(OutPath(sources, MatchOf(sources, route).value)) == TemplateShape(route.specPath)
  {
    hide TemplateShape, FirstMatch, OutPath;
    OutPathShape(sources, route.verb, route.specPath, 0);
  }

  // What is put through a bare base path is looked up by nothing but the path with the slash.
  lemma BareStands(sources: seq<Upstream>, bare: Route, route: Route, out: string)
    requires BraceFree(sources) && ThroughBare(sources, bare) && Puts(sources, bare, out, route.verb)
    requires TemplateShape(out) == TemplateShape(route.specPath)
    ensures bare.specPath + "/" == route.specPath == out == TemplateShape(out) && '{' !in out
  {
    hide TemplateShape, FirstMatch, OutPath;
    ThroughBareShape(sources, bare);
    assert '{' !in out;
    PlainFromShape(route.specPath);
  }

  lemma PlainAlike(a: string, b: string)
    requires '{' !in a && TemplateShape(a) == a == TemplateShape(b)
    ensures a == b
  {
    hide TemplateShape;
    PlainFromShape(b);
  }

  /**
   A modeled route is listed missing, or the reader finds its operation in the extract, never both; and what it
   finds is the operation of the first declared source that matches it.
   */
  ghost predicate Agrees(c: Cuts, sources: seq<Upstream>, cutOp: (nat, Json) -> Json, paths: Paths, byShape: ByShape,
                         route: Route) {
    var found := MatchOf(sources, route);
    var read := Lookup(byShape, route.verb, route.specPath);
    && (route in c.missing <==> read.None?)
    && (route in c.missing <==> found.None?)
    && (found.Some? ==>
          var out := OutPath(sources, found.value);
          && Stands(paths, out, route.verb) && Stands(c.paths, out, route.verb) && (out, route.verb) in c.origin
          && read == Some(Operation(route.verb, out, paths[out][route.verb]))
          && c.paths[out][route.verb] == cutOp(found.value.position, found.value.raw)
          && c.origin[(out, route.verb)] == found.value.position)
  }

  /**
   Cutter and reader agree on a modeled route exactly when it is neither matched through its own source's bare base
   path nor overruled by a route that is.
   */
  lemma CutterAndReaderAgree(c: Cuts, sources: seq<Upstream>, routes: seq<Route>, cutOp: (nat, Json) -> Json,
                             paths: Paths, byShape: ByShape, route: Route)
    requires CutsOf(c, sources, routes, cutOp) && SamePlaces(c, paths) && Reads(byShape, paths) && BraceFree(sources)
    requires route in routes
    ensures Agrees(c, sources, cutOp, paths, byShape, route)
       <==> !ThroughBare(sources, route) && !Overruled(sources, routes, route)
  {
    hide CutsOf, SamePlaces, Reads, Agrees, ThroughBare, BraceFree, Overruled;
    if ThroughBare(sources, route) {
      BareRouteMisplaced(c, sources, cutOp, paths, byShape, route);
    } else if Overruled(sources, routes, route) {
      OverruledMisread(c, sources, routes, cutOp, paths, byShape, route);
    } else {
      UndisturbedAgrees(c, sources, routes, cutOp, paths, byShape, route);
    }
  }

  /** So they agree on every modeled route exactly when none is matched through a bare base path. */
  lemma CutterAndReaderAgreeExactlyWhen(c: Cuts, sources: seq<Upstream>, routes: seq<Route>, cutOp: (nat, Json) -> Json,
                                        paths: Paths, byShape: ByShape)
    requires CutsOf(c, sources, routes, cutOp) && SamePlaces(c, paths) && Reads(byShape, paths) && BraceFree(sources)
    ensures (forall route :: route in routes ==> Agrees(c, sources, cutOp, paths, byShape, route))
       <==> NoneThroughBare(sources, routes)
  {
    hide CutsOf, SamePlaces, Reads, Agrees, ThroughBare, BraceFree;
    forall route | route in routes
      ensures Agrees(c, sources, cutOp, paths, byShape, route)
         <==> !ThroughBare(sources, route) && !Overruled(sources, routes, route)
    {
      CutterAndReaderAgree(c, sources, routes, cutOp, paths, byShape, route);
    }
  }

  // Code-point order on strings.
  predicate Below(a: string, b: string) {
    b != "" && (a == "" || a[0] < b[0] || (a[0] == b[0] && Below(a[1..], b[1..])))
  }

  lemma {:induction false} BelowOneWay(a: string, b: string)
    ensures !(Below(a, b) && Below(b, a))
  {
    if a != "" && b != "" { BelowOneWay(a[1..], b[1..]); }
  }

  lemma {:induction false} PrefixBelow(a: string, c: char)
    ensures Below(a, a + [c])
  {
    if a != "" {
      assert (a + [c])[1..] == a[1..] + [c];
      PrefixBelow(a[1..], c);
    }
  }

  // The order the modeled routes come in: by method, then by path.
  ghost predicate Sorted(routes: seq<Route>) {
    forall i, j :: 0 <= i < j < |routes| ==> Precedes(routes[i], routes[j])
  }

  predicate Precedes(a: Route, b: Route) {
    Below(a.verb, b.verb) || (a.verb == b.verb && Below(a.specPath, b.specPath))
  }

  /**
   In sorted order a path comes before the same path with a slash, so whatever some source declares is kept: only a
   route that no source declares can be overruled.
   */
  lemma SortedRoutesAgreeExactlyWhen(c: Cuts, sources: seq<Upstream>, routes: seq<Route>, cutOp: (nat, Json) -> Json,
                                     paths: Paths, byShape: ByShape, route: Route)
    requires CutsOf(c, sources, routes, cutOp) && SamePlaces(c, paths) && Reads(byShape, paths) && BraceFree(sources)
    requires route in routes && Sorted(routes)
    ensures Agrees(c, sources, cutOp, paths, byShape, route)
       <==> !ThroughBare(sources, route)
            && (MatchOf(sources, route).Some? || forall other :: other in routes ==> !BareOf(sources, other, route))
  {
    hide CutsOf, SamePlaces, Reads, Agrees, BraceFree, MatchOf, Sorted, ThroughBare;
    CutterAndReaderAgree(c, sources, routes, cutOp, paths, byShape, route);
    forall i | 0 <= i < |routes| && BareOf(sources, routes[i], route) ensures route in routes[i + 1..] {
      SlashComesLater(routes, i, route);
    }
    if MatchOf(sources, route).None? && !Overruled(sources, routes, route) {
      forall i | 0 <= i < |routes| ensures !BareOf(sources, routes[i], route) {
        assert !Overrules(sources, routes, i, route);
        BareIsMatched(sources, routes[i], route);
      }
    }
  }

  lemma BareIsMatched(sources: seq<Upstream>, other: Route, route: Route)
    ensures BareOf(sources, other, route) ==> MatchOf(sources, other).Some?
  {
    hide MatchOf;
  }

  lemma NoneOverruled(sources: seq<Upstream>, routes: seq<Route>, route: Route)
    requires NoneThroughBare(sources, routes) && route in routes
    ensures !ThroughBare(sources, route) && !Overruled(sources, routes, route)
  {
    hide MatchOf, ThroughBare;
  }

  lemma SlashComesLater(routes: seq<Route>, i: nat, route: Route)
    requires Sorted(routes) && route in routes
    requires i < |routes| && routes[i].verb == route.verb && routes[i].specPath + "/" == route.specPath
    ensures route in routes[i + 1..]
  {
    hide Below;
    var j :| 0 <= j < |routes| && routes[j] == route;
    PrefixBelow(routes[i].specPath, '/');
    BelowOneWay(routes[i].specPath, route.specPath);
    BelowOneWay(route.verb, route.verb);
    assert |routes[i].specPath + "/"| == |routes[i].specPath| + 1;
    assert !Precedes(routes[j], routes[i]);
    assert routes[i + 1..][j - i - 1] == route;
  }

  lemma UndisturbedAgrees(c: Cuts, sources: seq<Upstream>, routes: seq<Route>, cutOp: (nat, Json) -> Json,
                          paths: Paths, byShape: ByShape, route: Route)
    requires CutsOf(c, sources, routes, cutOp) && SamePlaces(c, paths) && Reads(byShape, paths)
    requires BraceFree(sources) && route in routes
    requires !ThroughBare(sources, route) && !Overruled(sources, routes, route)
    ensures Agrees(c, sources, cutOp, paths, byShape, route)
  {
    hide Refs, MatchOf, OutPath, TemplateShape, BareBase, ThroughBare, Overruled, CutFrom;
    if MatchOf(sources, route).Some? {
      var out := OutPath(sources, MatchOf(sources, route).value);
      MatchedStands(sources, route);
      assert Stands(c.paths, out, route.verb);
      StandsForMatch(c, sources, routes, cutOp, route, out);
      var o := Lookup(byShape, route.verb, route.specPath).value;
      assert IsOperationOf(o, paths, TemplateShape(route.specPath), route.verb);
      StandsForMatch(c, sources, routes, cutOp, route, o.specPath);
    } else if Lookup(byShape, route.verb, route.specPath).Some? {
      var o := Lookup(byShape, route.verb, route.specPath).value;
      assert IsOperationOf(o, paths, TemplateShape(route.specPath), route.verb);
      StandsForMatch(c, sources, routes, cutOp, route, o.specPath);
    }
  }

  // Where a route is overruled the other's operation stands: it is read for a missing route, or in the route's place.
  lemma OverruledMisread(c: Cuts, sources: seq<Upstream>, routes: seq<Route>, cutOp: (nat, Json) -> Json,
                         paths: Paths, byShape: ByShape, route: Route)
    requires CutsOf(c, sources, routes, cutOp) && SamePlaces(c, paths) && Reads(byShape, paths)
    requires BraceFree(sources) && route in routes
    requires !ThroughBare(sources, route) && Overruled(sources, routes, route)
    ensures !Agrees(c, sources, cutOp, paths, byShape, route)
  {
    hide Refs, MatchOf, OutPath, TemplateShape, BareBase, ThroughBare, CutFrom, RootOf, CutsOf, SamePlaces, Reads,
        Lookup;
    var i :| 0 <= i < |routes| && Overrules(sources, routes, i, route);
    BarePuts(sources, routes[i], route);
    StandsPut(c, sources, routes, cutOp, routes[i]);
    if MatchOf(sources, route).Some? {
      MatchedStands(sources, route);
      PlainAlike(route.specPath, OutPath(sources, MatchOf(sources, route).value));
      LastIsBare(sources, routes, cutOp, i, route, c.paths[route.specPath][route.verb],
          c.origin[(route.specPath, route.verb)]);
    } else {
      ReadWhereStands(c, paths, byShape, route);
    }
  }

  lemma StandsPut(c: Cuts, sources: seq<Upstream>, routes: seq<Route>, cutOp: (nat, Json) -> Json, route: Route)
    requires CutsOf(c, sources, routes, cutOp) && route in routes && MatchOf(sources, route).Some?
    ensures var out := OutPath(sources, MatchOf(sources, route).value);
            && Stands(c.paths, out, route.verb) && (out, route.verb) in c.origin
            && CutFrom(sources, routes, cutOp, out, route.verb, c.paths[out][route.verb], c.origin[(out, route.verb)])
  {
    hide Refs, MatchOf, OutPath, CutFrom, RootOf;
  }

  lemma ReadWhereStands(c: Cuts, paths: Paths, byShape: ByShape, route: Route)
    requires SamePlaces(c, paths) && Reads(byShape, paths) && Stands(c.paths, route.specPath, route.verb)
    ensures Lookup(byShape, route.verb, route.specPath).Some?
  {
    hide TemplateShape;
    assert Stands(paths, route.specPath, route.verb);
  }

  lemma BarePuts(sources: seq<Upstream>, bare: Route, route: Route)
    requires BraceFree(sources) && ThroughBare(sources, bare)
    requires bare.verb == route.verb && bare.specPath + "/" == route.specPath
    ensures MatchOf(sources, bare).Some?
    ensures var out := OutPath(sources, MatchOf(sources, bare).value);
            out == route.specPath == TemplateShape(out) && '{' !in out
  {
    hide TemplateShape, FirstMatch, OutPath;
    ThroughBareShape(sources, bare);
  }

  // Nothing but the overruling route is the last to put something there, and it comes from another source.
  lemma LastIsBare(sources: seq<Upstream>, routes: seq<Route>, cutOp: (nat, Json) -> Json, i: nat, route: Route,
                   operation: Json, at: nat)
    requires BraceFree(sources) && !ThroughBare(sources, route) && MatchOf(sources, route).Some?
    requires i < |routes| && Overrules(sources, routes, i, route)
    requires CutFrom(sources, routes, cutOp, route.specPath, route.verb, operation, at)
    ensures at != MatchOf(sources, route).value.position
  {
    hide MatchOf, OutPath, TemplateShape, BareBase, ThroughBare;
    BarePuts(sources, routes[i], route);
    var l :| 0 <= l < |routes| && LastToPut(sources, routes, l, route.specPath, route.verb)
      && MatchOf(sources, routes[l]).value.position == at;
    assert Puts(sources, routes[i], route.specPath, route.verb);
    NotLater(routes, i, l, route);
    if ThroughBare(sources, routes[l]) {
      BareStands(sources, routes[l], route, route.specPath);
      assert routes[l].specPath + "/" == routes[i].specPath + "/";
      assert (routes[l].specPath + "/")[..|routes[l].specPath|] == routes[l].specPath;
      assert routes[l] == routes[i];
      BareAndSlash(sources, routes[i], route);
    } else {
      MatchedStands(sources, routes[l]);
      PlainAlike(route.specPath, routes[l].specPath);
      assert false;
    }
  }

  lemma NotLater(routes: seq<Route>, i: nat, l: nat, route: Route)
    requires i <= l < |routes| && route !in routes[i + 1..] && routes[i] != route
    ensures routes[l] != route
  {
    assert l > i ==> routes[i + 1..][l - i - 1] == routes[l];
  }

  // In one source a bare base path and the path with the slash are one operation.
  lemma BareAndSlash(sources: seq<Upstream>, bare: Route, route: Route)
    requires ThroughBare(sources, bare) && MatchOf(sources, route).Some?
    requires bare.verb == route.verb && bare.specPath + "/" == route.specPath
    ensures MatchOf(sources, bare).value.position == MatchOf(sources, route).value.position
        ==> MatchOf(sources, bare) == MatchOf(sources, route)
  {
    hide TemplateShape, FirstMatch;
    FirstMatchShape(sources, bare.verb, bare.specPath, 0);
    FirstMatchShape(sources, route.verb, route.specPath, 0);
    assert route.specPath[|bare.specPath|..] == "/";
  }

  // A route matched through a bare base path is cut to "<base>/", where the reader never looks for it.
  lemma BareRouteMisplaced(c: Cuts, sources: seq<Upstream>, cutOp: (nat, Json) -> Json, paths: Paths, byShape: ByShape,
                           route: Route)
    requires Reads(byShape, paths) && BraceFree(sources) && ThroughBare(sources, route)
    ensures !Agrees(c, sources, cutOp, paths, byShape, route)
  {
    hide FirstMatch, TemplateShape, BareBase;
    ThroughBareShape(sources, route);
    var out := OutPath(sources, MatchOf(sources, route).value);
    var read := Lookup(byShape, route.verb, route.specPath);
    if read.Some? {
      assert IsOperationOf(read.value, paths, TemplateShape(route.specPath), route.verb);
      assert |out| == |route.specPath| + 1;
      assert read.value.specPath != out;
    }
  }

  function BareSources(a: Json, b: Json): seq<Upstream> {
    [Upstream("", [PathItem("/v1/", map["GET" := a])]), Upstream("/v1", [PathItem("/", map["GET" := b])])]
  }

  // And where it is cut to, the operation of another route may stand.
  lemma BareBaseMisplaced(a: Json, b: Json)
    ensures MatchOf(BareSources(a, b), Route("GET", "/v1/")) == Some(Found(0, "/v1/", a))
    ensures MatchOf(BareSources(a, b), Route("GET", "/v1")) == Some(Found(1, "/", b))
    ensures OutPath(BareSources(a, b), Found(0, "/v1/", a)) == OutPath(BareSources(a, b), Found(1, "/", b)) == "/v1/"
    ensures TemplateShape("/v1/") != TemplateShape("/v1")
  {
    BareShapes();
    SlashMatchesFirst(a, b);
    BareMatchesSecond(a, b);
    hide TemplateShape, MatchOf;
    assert |"/v1/"| != |"/v1"|;
    assert "" + "/v1/" == "/v1/" == "/v1" + "/";
  }

  lemma BareShapes()
    ensures TemplateShape("/v1/") == "/v1/" && TemplateShape("/v1") == "/v1" && TemplateShape("/") == "/"
  {
    hide TemplateShape;
    PlainShape("/v1/");
    PlainShape("/v1");
    PlainShape("/");
  }

  lemma SlashMatchesFirst(a: Json, b: Json)
    ensures MatchOf(BareSources(a, b), Route("GET", "/v1/")) == Some(Found(0, "/v1/", a))
  {
    BareShapes();
    hide TemplateShape, FirstMatch;
    MatchHere(BareSources(a, b), "GET", "/v1/", 0, "/v1/", Hit("/v1/", a));
  }

  lemma BareMatchesSecond(a: Json, b: Json)
    ensures MatchOf(BareSources(a, b), Route("GET", "/v1")) == Some(Found(1, "/", b))
  {
    BareShapes();
    hide TemplateShape, FirstMatch;
    var sources := BareSources(a, b);
    assert |"/v1/"| != |"/v1"|;
    assert FirstDeclared(sources[0].paths[1..], "GET", "/v1").None?;
    MatchLater(sources, "GET", "/v1", 0, "/v1");
    MatchHere(sources, "GET", "/v1", 1, "/", Hit("/", b));
  }

  lemma MatchHere(sources: seq<Upstream>, verb: string, specPath: string, i: nat, l: string, hit: Hit)
    requires i < |sources| && StripBase(sources[i].basePath, specPath) == Some(l)
    requires FirstDeclared(sources[i].paths, verb, TemplateShape(l)) == Some(hit)
    ensures FirstMatch(sources, verb, specPath, i) == Some(Found(i, hit.path, hit.raw))
  {
  }

  lemma MatchLater(sources: seq<Upstream>, verb: string, specPath: string, i: nat, l: string)
    requires i < |sources| && StripBase(sources[i].basePath, specPath) == Some(l)
    requires FirstDeclared(sources[i].paths, verb, TemplateShape(l)).None?
    ensures FirstMatch(sources, verb, specPath, i) == FirstMatch(sources, verb, specPath, i + 1)
  {
  }

  lemma PlainShape(path: string)
    requires '{' !in path
    ensures TemplateShape(path) == path
  {
    ShapeAfterBase(path, "");
    assert path + "" == path;
  }

  // ----- the whole cut

  datatype Document = Document(paths: Paths, schemas: Schemas, missing: set<Route>, namespaced: map<string, string>,
                               hooks: map<string, Json>, hooksMissing: set<string>, stubbed: set<string>)

  // Each kept operation's references follow the renames of the source it came from.
  ghost predicate Followed(c: Cuts, layers: seq<Layer>, paths: Paths) {
    && SamePlaces(c, paths)
    && forall out, verb :: Stands(c.paths, out, verb) && (out, verb) in c.origin ==>
         var at := c.origin[(out, verb)];
         && at < |layers| && Refs(c.paths[out][verb]) <= layers[at].roots
         && paths[out][verb] == Rewrite(c.paths[out][verb], layers[at].rename)
  }

  /**
   For a modeled route that some source matches, unless it is overruled or matched through a bare base path, the
   reader finds an operation, and at every depth it says in the extract what the first matching source says, when every
   name it leads to is handed on.
   */
  lemma ExtractFaithful(k: nat, c: Cuts, sources: seq<Upstream>, routes: seq<Route>, cutOp: (nat, Json) -> Json,
                        layers: seq<Layer>, stages: seq<Schemas>, definitions: seq<Source>,
                        roots: map<nat, set<string>>, errorSchema: Option<string>, ext: Extensions,
                        document: Document, byShape: ByShape, route: Route)
    requires CutsOf(c, sources, routes, cutOp) && Followed(c, layers, document.paths) && Reads(byShape, document.paths)
    requires Built(layers, stages, definitions, roots, errorSchema, ext) && stages[|layers|] == document.schemas
    requires BraceFree(sources) && |sources| == |layers| && route in routes && MatchOf(sources, route).Some?
    requires !ThroughBare(sources, route) && !Overruled(sources, routes, route)
    requires NamesFree(layers[..MatchOf(sources, route).value.position + 1])
    requires var found := MatchOf(sources, route).value;
             forall ref :: ref in Refs(cutOp(found.position, found.raw)) ==>
               Followable(definitions, roots, errorSchema, ext, found.position, ref)
    ensures var found := MatchOf(sources, route).value;
            var read := Lookup(byShape, route.verb, route.specPath);
            && read.Some?
            && PyEqual(UnfoldFrom(k, cutOp(found.position, found.raw), definitions, ext, found.position),
               UnfoldIn(k, read.value.raw, document.schemas))
            && Refs(read.value.raw) <= document.schemas.Keys
  {
    hide Refs, MatchOf, OutPath, TemplateShape, BareBase, UnfoldFrom, UnfoldIn, Rewrite, AsCompared, LayerBuilt,
        Followable, CutsOf, Reads, ThroughBare, Overruled, NamesFree, BraceFree, Lookup;
    CutterAndReaderAgree(c, sources, routes, cutOp, document.paths, byShape, route);
    var found := MatchOf(sources, route).value;
    var operation := cutOp(found.position, found.raw);
    StandsRecorded(c, sources, routes, cutOp, OutPath(sources, found), route.verb);
    OperationSaysTheSame(k, operation, layers, stages, definitions, roots, errorSchema, ext, found.position);
    OperationIsClosed(operation, layers, stages, definitions, roots, errorSchema, ext, found.position);
  }

  lemma StandsRecorded(c: Cuts, sources: seq<Upstream>, routes: seq<Route>, cutOp: (nat, Json) -> Json, out: string,
                       verb: string)
    requires CutsOf(c, sources, routes, cutOp) && Stands(c.paths, out, verb)
    ensures (out, verb) in c.origin
  {
  }

  // A named webhooks entry says at every depth what the first source that has it says.
  lemma HookFaithful(k: nat, h: Hooks, sections: seq<map<string, Json>>, names: seq<string>, cutOp: (nat, Json) -> Json,
                     layers: seq<Layer>, stages: seq<Schemas>, definitions: seq<Source>, roots: map<nat, set<string>>,
                     errorSchema: Option<string>, ext: Extensions, document: Document, name: string)
    requires HooksOf(h, sections, names, cutOp) && HooksFollowed(h, layers, document.hooks)
    requires Built(layers, stages, definitions, roots, errorSchema, ext) && stages[|layers|] == document.schemas
    requires name in names && |sections| == |layers| && FirstHook(sections, name, 0).Some?
    requires NamesFree(layers[..FirstHook(sections, name, 0).value + 1])
    requires var at := FirstHook(sections, name, 0).value;
             forall ref :: ref in Refs(cutOp(at, sections[at][name])) ==>
               Followable(definitions, roots, errorSchema, ext, at, ref)
    ensures var at := FirstHook(sections, name, 0).value;
            && name in document.hooks
            && PyEqual(UnfoldFrom(k, cutOp(at, sections[at][name]), definitions, ext, at),
               UnfoldIn(k, document.hooks[name], document.schemas))
            && Refs(document.hooks[name]) <= document.schemas.Keys
  {
    hide Refs, UnfoldFrom, UnfoldIn, Rewrite, AsCompared, LayerBuilt, FirstHook, NamesFree, Followable;
    OperationSaysTheSame(k, h.kept[name], layers, stages, definitions, roots, errorSchema, ext, h.origin[name]);
    OperationIsClosed(h.kept[name], layers, stages, definitions, roots, errorSchema, ext, h.origin[name]);
  }

  // Nothing in the document refers to a schema that it does not hold.
  ghost predicate SelfContained(document: Document) {
    && Shut(document.schemas)
    && (forall out, verb :: Stands(document.paths, out, verb) ==>
       Refs(document.paths[out][verb]) <= document.schemas.Keys)
    && (forall name :: name in document.hooks ==> Refs(document.hooks[name]) <= document.schemas.Keys)
  }

  // However names are spelled: every kept operation's references follow renames that leave none dangling.
  lemma KeptIsClosed(c: Cuts, h: Hooks, layers: seq<Layer>, stages: seq<Schemas>, definitions: seq<Source>,
                     roots: map<nat, set<string>>, errorSchema: Option<string>, ext: Extensions, document: Document)
    requires Built(layers, stages, definitions, roots, errorSchema, ext) && stages[|layers|] == document.schemas
    requires Followed(c, layers, document.paths) && HooksFollowed(h, layers, document.hooks) && Shut(document.schemas)
    requires forall out, verb :: Stands(c.paths, out, verb) ==> (out, verb) in c.origin
    ensures SelfContained(document)
  {
    hide Refs, Rewrite, Built, Shut;
    forall out, verb | Stands(document.paths, out, verb)
      ensures Refs(document.paths[out][verb]) <= document.schemas.Keys
    {
      assert Stands(c.paths, out, verb);
      OperationIsClosed(c.paths[out][verb], layers, stages, definitions, roots, errorSchema, ext,
          c.origin[(out, verb)]);
    }
    forall name | name in document.hooks ensures Refs(document.hooks[name]) <= document.schemas.Keys {
      OperationIsClosed(h.kept[name], layers, stages, definitions, roots, errorSchema, ext, h.origin[name]);
    }
  }

  /** `cut_extract`. The ghost results are what its parts left: operations, webhooks, and each source's layer. */
  method CutExtract(cut: Cut, loaded: seq<Loaded>, modeled: seq<Route>, names: seq<string>,
                    errorSchema: Option<string>)
    returns (result: Result<Document, CutError>, ghost c: Cuts, ghost h: Hooks, ghost layers: seq<Layer>,
        ghost stages: seq<Schemas>)
    requires cut.Valid()
    modifies cut
    ensures result == Err(NoSources) <==> loaded == []
    ensures result == Err(PartUndefined) <==>
              loaded != [] && !((forall route :: route in modeled ==> RouteFine(loaded, route))
                                && forall name :: name in names ==> HookFine(loaded, name))
    ensures result.Err? && result.error.NameTaken? ==>
              && CutsOf(c, Upstreams(loaded), modeled, Cutter(loaded, cut.ext))
              && HooksOf(h, Sections(loaded), names, Cutter(loaded, cut.ext))
              && |layers| < |loaded|
              && Built(layers, stages, Definitions(loaded), AllRoots(c.roots, h), errorSchema, cut.ext)
              && Taken(Definitions(loaded)[|layers|],
                  Wanted(Definitions(loaded), AllRoots(c.roots, h), errorSchema, |layers|), stages[|layers|],
                  result.error.name, cut.ext)
              && !NamesApart(Definitions(loaded), AllRoots(c.roots, h), errorSchema, cut.ext)
    ensures result.Err? && result.error.ErrorSchemaUndefined? ==>
              && errorSchema == Some(result.error.name)
              && forall i :: 0 <= i < |loaded| ==> errorSchema.value !in Definitions(loaded)[i].available
    ensures result.Ok? && errorSchema.Some? ==>
              exists i :: 0 <= i < |loaded| && errorSchema.value in Definitions(loaded)[i].available
    ensures result.Ok? ==>
              && CutsOf(c, Upstreams(loaded), modeled, Cutter(loaded, cut.ext)) && result.value.missing == c.missing
              && HooksOf(h, Sections(loaded), names, Cutter(loaded, cut.ext))
              && result.value.hooksMissing == h.missing
              && Built(layers, stages, Definitions(loaded), AllRoots(c.roots, h), errorSchema, cut.ext)
                 && |layers| == |loaded|
              && stages[|loaded|] == result.value.schemas
              && Followed(c, layers, result.value.paths) && HooksFollowed(h, layers, result.value.hooks)
              && (NamesFree(layers) ==> Linked(layers, result.value.schemas))
              && SelfContained(result.value)
              && (forall i, name :: 0 <= i < |loaded| ==>
                    (name in layers[i].roots
                     <==> RootOf(Upstreams(loaded), modeled, Cutter(loaded, cut.ext), i, name) || HookRoot(h, i, name)
                          || (errorSchema == Some(name) && name in Available(loaded[i].document))))
              && (errorSchema.Some? ==> errorSchema.value in result.value.schemas)
              && (errorSchema.Some? ==>
                    forall i :: 0 <= i < |loaded| && errorSchema.value in Available(loaded[i].document) ==>
                      ErrorSchemaLaid(layers[i], Definitions(loaded)[i], result.value.schemas, errorSchema.value,
                          cut.ext))
              && cut.stubbed == result.value.stubbed == AllStubbed(old(cut.stubbed), layers, Definitions(loaded))
              && cut.stripped == AllStripped(old(cut.stripped) + RoutesDrops(loaded, modeled, cut.ext)
                     + HooksDrops(loaded, names, cut.ext), layers, Definitions(loaded), cut.ext)
  {
    hide RouteFine, HookFine, RoutesDrops, HooksDrops, Cutter, Refs, Rewrite, CutsOf, Built, NamesFree, Linked,
        Recorded, HooksOf, HooksFollowed, AllRoots, Followed, AllStubbed, AllStripped, SelfContained, Shut, Taken,
        NamesApart, Wanted, RootOf, HookRoot, ErrorSchemaLaid, Available;
    c, h, layers, stages := Cuts(map[], map[], map[], {}), NO_HOOKS, [], [];
    if loaded == [] { return Err(NoSources), c, h, layers, stages; }
    ghost var cutOp := Cutter(loaded, cut.ext);
    var routesFine, cuts := CutRoutes(cut, loaded, modeled);
    c := cuts;
    if !routesFine { return Err(PartUndefined), c, h, layers, stages; }
    var hooksFine, hooks, roots := CutWebhooks(cut, loaded, names, cuts.roots);
    h := hooks;
    if !hooksFine { return Err(PartUndefined), c, h, layers, stages; }
    var merged, ls, ss := MergeSchemas(cut, Definitions(loaded), roots, errorSchema);
    layers, stages := ls, ss;
    if merged.Err? { return Err(merged.error), c, h, layers, stages; }
    OperationsRooted(c, h, Upstreams(loaded), modeled, cutOp, layers, stages, Definitions(loaded), errorSchema,
        cut.ext);
    HooksRooted(c, h, Sections(loaded), names, cutOp, layers, stages, Definitions(loaded), errorSchema, cut.ext);
    var paths := FollowRenames(cuts, merged.value.renames, layers, merged.value.namespaced);
    var kept := FollowHooks(hooks, merged.value.renames, layers, merged.value.namespaced);
    var document := Document(paths, merged.value.schemas, cuts.missing, merged.value.namespaced, kept, hooks.missing,
        cut.stubbed);
    assert Shut(stages[|layers|]) && stages[|layers|] == document.schemas;
    KeptIsClosed(c, h, layers, stages, Definitions(loaded), AllRoots(c.roots, h), errorSchema, cut.ext, document);
    RootsExactly(c, h, loaded, modeled, cutOp);
    forall i, name | 0 <= i < |loaded|
      ensures name in layers[i].roots
         <==> RootOf(Upstreams(loaded), modeled, cutOp, i, name) || HookRoot(h, i, name)
              || (errorSchema == Some(name) && name in Available(loaded[i].document))
    {
      assert Definitions(loaded)[i].available == Available(loaded[i].document);
      assert i in roots && name in roots[i]
          <==> RootOf(Upstreams(loaded), modeled, cutOp, i, name) || HookRoot(h, i, name);
    }
    result := Ok(document);
  }

  // A name that a webhooks entry kept from source `i` refers to.
  ghost predicate HookRoot(h: Hooks, i: nat, name: string) {
    exists hook :: hook in h.kept && hook in h.origin && h.origin[hook] == i && name in Refs(h.kept[hook])
  }

  // The roots of every source: what its matched operations and its kept entries refer to.
  lemma RootsExactly(c: Cuts, h: Hooks, loaded: seq<Loaded>, modeled: seq<Route>, cutOp: (nat, Json) -> Json)
    requires CutsOf(c, Upstreams(loaded), modeled, cutOp)
    ensures forall i, name ::
              i in AllRoots(c.roots, h) && name in AllRoots(c.roots, h)[i]
              <==> RootOf(Upstreams(loaded), modeled, cutOp, i, name) || HookRoot(h, i, name)
  {
    hide Refs, MatchOf, CutFrom, RootOf;
    forall i: nat, name
      ensures i in AllRoots(c.roots, h) && name in AllRoots(c.roots, h)[i]
         <==> RootOf(Upstreams(loaded), modeled, cutOp, i, name) || HookRoot(h, i, name)
    {
      if HookRoot(h, i, name) { assert i in h.origin.Values; }
    }
  }

  // Every kept operation's references are roots of the source it came from.
  lemma OperationsRooted(c: Cuts, h: Hooks, sources: seq<Upstream>, routes: seq<Route>, cutOp: (nat, Json) -> Json,
                         layers: seq<Layer>,
                         stages: seq<Schemas>, definitions: seq<Source>, errorSchema: Option<string>, ext: Extensions)
    requires CutsOf(c, sources, routes, cutOp) && |sources| == |definitions| == |layers|
    requires Built(layers, stages, definitions, AllRoots(c.roots, h), errorSchema, ext)
    ensures forall out, verb :: Stands(c.paths, out, verb) <==> (out, verb) in c.origin
    ensures forall out, verb :: Stands(c.paths, out, verb) ==>
              && c.origin[(out, verb)] < |layers|
              && Refs(c.paths[out][verb]) <= layers[c.origin[(out, verb)]].roots
  {
    hide Refs, MatchOf, Built, AllRoots;
    forall out, verb | Stands(c.paths, out, verb)
      ensures (out, verb) in c.origin && c.origin[(out, verb)] < |layers|
      ensures Refs(c.paths[out][verb]) <= layers[c.origin[(out, verb)]].roots
    {
      var at := c.origin[(out, verb)];
      assert CutFrom(sources, routes, cutOp, out, verb, c.paths[out][verb], at);
      AllRootsHold(c.roots, h);
      LayerRoots(layers, stages, definitions, AllRoots(c.roots, h), errorSchema, ext, at);
    }
  }

  // And so are a webhooks entry's.
  lemma HooksRooted(c: Cuts, h: Hooks, sections: seq<map<string, Json>>, names: seq<string>,
                    cutOp: (nat, Json) -> Json, layers: seq<Layer>,
                    stages: seq<Schemas>, definitions: seq<Source>, errorSchema: Option<string>, ext: Extensions)
    requires HooksOf(h, sections, names, cutOp) && |sections| == |definitions| == |layers|
    requires Built(layers, stages, definitions, AllRoots(c.roots, h), errorSchema, ext)
    ensures h.origin.Keys == h.kept.Keys
    ensures forall name :: name in h.kept ==>
        h.origin[name] < |layers| && Refs(h.kept[name]) <= layers[h.origin[name]].roots
  {
    hide Refs, Built, AllRoots;
    forall name | name in h.kept
      ensures h.origin[name] < |layers| && Refs(h.kept[name]) <= layers[h.origin[name]].roots
    {
      AllRootsHold(c.roots, h);
      LayerRoots(layers, stages, definitions, AllRoots(c.roots, h), errorSchema, ext, h.origin[name]);
    }
  }

  lemma LayerRoots(layers: seq<Layer>, stages: seq<Schemas>, definitions: seq<Source>, roots: map<nat, set<string>>,
                   errorSchema: Option<string>, ext: Extensions, at: nat)
    requires Built(layers, stages, definitions, roots, errorSchema, ext) && at < |layers| && at in roots
    ensures roots[at] <= layers[at].roots
  {
    hide IsClosure, Overlaid;
    assert LayerBuilt(layers[at], definitions[at], Wanted(definitions, roots, errorSchema, at), stages[at],
        stages[at + 1], ext);
  }

  /** The loop after the merge: an operation is rewritten when its source renamed anything. */
  method FollowRenames(c: Cuts, renames: map<nat, map<string, string>>, ghost layers: seq<Layer>,
                       ghost namespaced: map<string, string>)
    returns (paths: Paths)
    requires Recorded(layers, renames, namespaced)
    requires forall out, verb :: Stands(c.paths, out, verb) <==> (out, verb) in c.origin
    requires forall out, verb :: Stands(c.paths, out, verb) ==>
               && c.origin[(out, verb)] < |layers|
               && Refs(c.paths[out][verb]) <= layers[c.origin[(out, verb)]].roots
    ensures Followed(c, layers, paths)
  {
    hide Refs, Rewrite, NamespacedBy;
    paths := c.paths;
    var left := c.origin.Keys;
    while left != {}
      invariant left <= c.origin.Keys
      invariant SamePlaces(c, paths)
      invariant forall out, verb :: Stands(c.paths, out, verb) ==>
                  paths[out][verb] == if (out, verb) in left then c.paths[out][verb]
                                      else Rewrite(c.paths[out][verb], layers[c.origin[(out, verb)]].rename)
    {
      var key :| key in left;
      var (out, verb) := key;
      var at := c.origin[key];
      assert Stands(c.paths, out, verb) && Stands(paths, out, verb);
      RewriteNothing(c.paths[out][verb]);
      if at in renames && renames[at] != map[] {
        paths := paths[out := paths[out][verb := Rewrite(paths[out][verb], renames[at])]];
      }
      left := left - {key};
    }
  }

  // ----- webhooks

  // What the cut keeps of the named webhooks entries, where each came from, and the names no source has.
  datatype Hooks = Hooks(kept: map<string, Json>, origin: map<string, nat>, missing: set<string>)

  const NO_HOOKS := Hooks(map[], map[], {})

  // The first source, in declaration order, whose section has the entry.
  function FirstHook(sections: seq<map<string, Json>>, name: string, i: nat): (at: Option<nat>)
    ensures at.Some? ==> i <= at.value < |sections| && name in sections[at.value]
    decreases |sections| - i
  {
    if i >= |sections| then None else if name in sections[i] then Some(i) else FirstHook(sections, name, i + 1)
  }

  ghost predicate HookKept(h: Hooks, sections: seq<map<string, Json>>, cutOp: (nat, Json) -> Json, name: string) {
    var at := FirstHook(sections, name, 0);
    if at.None? then name in h.missing && name !in h.kept && name !in h.origin
    else
      && name !in h.missing && name in h.kept && name in h.origin
      && h.origin[name] == at.value && h.kept[name] == cutOp(at.value, sections[at.value][name])
  }

  // Each name is kept from its first source or listed missing, and nothing else is.
  ghost predicate HooksOf(h: Hooks, sections: seq<map<string, Json>>, names: seq<string>, cutOp: (nat, Json) -> Json) {
    && (forall name :: name in names ==> HookKept(h, sections, cutOp, name))
    && (forall name :: name in h.kept || name in h.origin || name in h.missing ==> name in names)
  }

  // The sources' roots with what the kept entries refer to.
  ghost function AllRoots(roots: map<nat, set<string>>, h: Hooks): map<nat, set<string>> {
    map at | at in roots.Keys + h.origin.Values :: RootsAt(roots, h, at)
  }

  ghost function RootsAt(roots: map<nat, set<string>>, h: Hooks, at: nat): set<string> {
    (if at in roots then roots[at] else {}) + HookRoots(h, at)
  }

  ghost function HookRoots(h: Hooks, at: nat): set<string> {
    set name, ref | name in h.kept && name in h.origin && h.origin[name] == at && ref in Refs(h.kept[name]) :: ref
  }

  lemma AllRootsHold(roots: map<nat, set<string>>, h: Hooks)
    ensures forall at :: at in roots ==> at in AllRoots(roots, h) && roots[at] <= AllRoots(roots, h)[at]
    ensures forall name :: name in h.kept && name in h.origin ==>
              h.origin[name] in AllRoots(roots, h) && Refs(h.kept[name]) <= AllRoots(roots, h)[h.origin[name]]
  {
    hide Refs;
    forall name | name in h.kept && name in h.origin
      ensures h.origin[name] in AllRoots(roots, h) && Refs(h.kept[name]) <= AllRoots(roots, h)[h.origin[name]]
    {
      assert h.origin[name] in h.origin.Values;
      assert Refs(h.kept[name]) <= HookRoots(h, h.origin[name]);
    }
  }

  function KeepHook(h: Hooks, name: string, operation: Json, at: nat): Hooks {
    h.(kept := h.kept[name := operation], origin := h.origin[name := at])
  }

  lemma NoHookRoots(roots: map<nat, set<string>>)
    ensures AllRoots(roots, NO_HOOKS) == roots
  {
    var all := AllRoots(roots, NO_HOOKS);
    assert NO_HOOKS.origin.Values == {} && all.Keys == roots.Keys;
    forall at | at in roots ensures all[at] == roots[at] { assert HookRoots(NO_HOOKS, at) == {}; }
  }

  lemma HookRootsMore(roots: map<nat, set<string>>, h: Hooks, name: string, operation: Json, at: nat)
    requires name !in h.kept && name !in h.origin
    ensures var before := AllRoots(roots, h);
            AllRoots(roots, KeepHook(h, name, operation, at))
            == before[at := (if at in before then before[at] else {}) + Refs(operation)]
  {
    hide Refs;
    var next := KeepHook(h, name, operation, at);
    OriginsMore(h, name, operation, at);
    forall a ensures HookRoots(next, a) == HookRoots(h, a) + if a == at then Refs(operation) else {} {
      HookRootsAt(h, name, operation, at, a);
    }
    NoneFrom(h, at);
    hide HookRoots, KeepHook;
    RootsStep(roots, h, next, at, Refs(operation));
  }

  lemma OriginsMore(h: Hooks, name: string, operation: Json, at: nat)
    requires name !in h.origin
    ensures KeepHook(h, name, operation, at).origin.Values == h.origin.Values + {at}
  {
    var next := KeepHook(h, name, operation, at);
    assert next.origin[name] == at;
    forall a ensures a in next.origin.Values <==> a in h.origin.Values || a == at {
      if a in h.origin.Values { var n :| n in h.origin && h.origin[n] == a; assert next.origin[n] == a; }
    }
  }

  lemma RootsStep(roots: map<nat, set<string>>, h: Hooks, next: Hooks, at: nat, more: set<string>)
    requires next.origin.Values == h.origin.Values + {at}
    requires forall a :: HookRoots(next, a) == HookRoots(h, a) + if a == at then more else {}
    requires at !in h.origin.Values ==> HookRoots(h, at) == {}
    ensures var before := AllRoots(roots, h);
            AllRoots(roots, next) == before[at := (if at in before then before[at] else {}) + more]
  {
    var before, after := AllRoots(roots, h), AllRoots(roots, next);
    var grown := before[at := (if at in before then before[at] else {}) + more];
    forall a: nat ensures (a in after <==> a in grown) && (a in after ==> after[a] == grown[a]) {
      RootsStepAt(roots, h, next, at, more, a);
    }
    hide AllRoots;
  }

  lemma RootsStepAt(roots: map<nat, set<string>>, h: Hooks, next: Hooks, at: nat, more: set<string>, a: nat)
    requires next.origin.Values == h.origin.Values + {at}
    requires HookRoots(next, a) == HookRoots(h, a) + if a == at then more else {}
    requires at !in h.origin.Values ==> HookRoots(h, at) == {}
    ensures var before, after := AllRoots(roots, h), AllRoots(roots, next);
            && (a in after <==> a in before || a == at)
            && (a in after ==> after[a] == if a == at then (if at in before then before[at] else {})
               + more else before[a])
  {
    hide HookRoots;
  }

  // A source no entry comes from adds no roots.
  lemma NoneFrom(h: Hooks, at: nat)
    ensures at !in h.origin.Values ==> HookRoots(h, at) == {}
  {
    hide Refs;
    if at !in h.origin.Values {
      forall name | name in h.kept && name in h.origin
        ensures h.origin[name] != at
      {
        assert h.origin[name] in h.origin.Values;
      }
    }
  }

  lemma HookRootsAt(h: Hooks, name: string, operation: Json, at: nat, a: nat)
    requires name !in h.kept && name !in h.origin
    ensures HookRoots(KeepHook(h, name, operation, at), a) == HookRoots(h, a) + if a == at then Refs(operation) else {}
  {
    hide Refs;
    var next := KeepHook(h, name, operation, at);
    assert next.kept[name] == operation && next.origin[name] == at;
    forall ref ensures ref in HookRoots(next, a) <==> ref in HookRoots(h, a) || (a == at && ref in Refs(operation)) {
      if ref in HookRoots(h, a) {
        var n :| n in h.kept && n in h.origin && h.origin[n] == a && ref in Refs(h.kept[n]);
        assert next.kept[n] == h.kept[n] && next.origin[n] == a;
      }
    }
  }

  // Up to the first source that has the entry, no reference met is undefined.
  predicate HookFine(loaded: seq<Loaded>, name: string) {
    var at := FirstHook(Sections(loaded), name, 0);
    && (forall i :: 0 <= i < (if at.Some? then at.value else |loaded|) ==> !Undefined(loaded[i].document, name))
    && (at.Some? ==> PartsDefined(loaded[at.value].document, Sections(loaded)[at.value][name]))
  }

  predicate Undefined(document: Json, name: string) {
    Member(Member(Some(document), "webhooks"), name).Some? && EntryOf(document, name).None?
  }

  // The keys that cutting an entry drops: its own but `post`, and its operation's.
  function HookDrops(loaded: seq<Loaded>, name: string, ext: Extensions): set<string> {
    var at := FirstHook(Sections(loaded), name, 0);
    if at.None? then {}
    else
      (Section(EntryOf(loaded[at.value].document, name)).Keys - {"post"})
      + OperationDrops(loaded[at.value].document, Sections(loaded)[at.value][name], ext)
  }

  function HooksDrops(loaded: seq<Loaded>, names: seq<string>, ext: Extensions): set<string> {
    if names == [] then {}
    else HooksDrops(loaded, names[..|names| - 1], ext) + HookDrops(loaded, names[|names| - 1], ext)
  }

  lemma HooksDropsMore(loaded: seq<Loaded>, names: seq<string>, name: string, ext: Extensions)
    ensures HooksDrops(loaded, names + [name], ext) == HooksDrops(loaded, names, ext) + HookDrops(loaded, name, ext)
  {
    hide HookDrops;
    assert (names + [name])[..|names|] == names;
  }

  lemma {:induction false} SeenDrops(loaded: seq<Loaded>, names: seq<string>, name: string, ext: Extensions)
    requires name in names
    ensures HookDrops(loaded, name, ext) <= HooksDrops(loaded, names, ext)
  {
    hide HookDrops;
    var front, last := names[..|names| - 1], names[|names| - 1];
    assert names == front + [last];
    if name != last { SeenDrops(loaded, front, name, ext); }
  }

  /** `_cut_webhooks`: each name once, from the first source that has it; its references join that source's roots. */
  method CutWebhooks(cut: Cut, loaded: seq<Loaded>, names: seq<string>, roots: map<nat, set<string>>)
    returns (ok: bool, h: Hooks, grown: map<nat, set<string>>)
    requires cut.Valid()
    modifies cut`stripped
    ensures ok <==> forall name :: name in names ==> HookFine(loaded, name)
    ensures ok ==> HooksOf(h, Sections(loaded), names, Cutter(loaded, cut.ext)) && grown == AllRoots(roots, h)
    ensures ok ==> cut.stripped == old(cut.stripped) + HooksDrops(loaded, names, cut.ext)
  {
    hide Refs, AllRoots, HooksOf, FirstHook, KeepHook, HookFine, HookDrops, HooksDrops, Sections, Cutter;
    ghost var sections, cutOp := Sections(loaded), Cutter(loaded, cut.ext);
    h, grown := NO_HOOKS, roots;
    NoHookRoots(roots);
    NoHooksYet(sections, cutOp);
    NothingDropped(loaded, cut.ext);
    assert names[..0] == [];
    for n := 0 to |names|
      invariant HooksOf(h, sections, names[..n], cutOp) && grown == AllRoots(roots, h)
      invariant forall j :: 0 <= j < n ==> HookFine(loaded, names[j])
      invariant cut.stripped == old(cut.stripped) + HooksDrops(loaded, names[..n], cut.ext)
    {
      var name := names[n];
      assert names[..n + 1] == names[..n] + [name];
      HookSeen(h, sections, names[..n], cutOp, name);
      HooksDropsMore(loaded, names[..n], name, cut.ext);
      if name in h.kept || name in h.missing {
        SeenDrops(loaded, names[..n], name, cut.ext);
      } else {
        var fine, hook := CutHook(cut, loaded, name);
        if !fine {
          assert name in names && !HookFine(loaded, name);
          return false, h, grown;
        }
        if hook.None? {
          HookMissing(h, sections, names[..n], cutOp, name);
          MissingMore(roots, h, name);
          h := h.(missing := h.missing + {name});
        } else {
          var (at, operation) := hook.value;
          HookMore(h, sections, names[..n], cutOp, name);
          HookRootsMore(roots, h, name, operation, at);
          grown := grown[at := (if at in grown then grown[at] else {}) + Refs(operation)];
          h := KeepHook(h, name, operation, at);
        }
      }
    }
    assert names[..|names|] == names;
    ok := true;
  }

  lemma PostsHave(document: Json, name: string)
    ensures name in Posts(document) <==> IsEntry(EntryOf(document, name))
    ensures name in Posts(document) ==> Posts(document)[name] == Member(EntryOf(document, name), "post").value
  {
    hide Target;
  }

  /** The sources in turn until one has the entry; not past a reference that its document does not define. */
  method FindEntry(loaded: seq<Loaded>, name: string) returns (ok: bool, found: Option<(nat, Json)>)
    ensures var at := FirstHook(Sections(loaded), name, 0);
            && (ok <==> forall i :: 0 <= i < (if at.Some? then at.value else |loaded|) ==>
                  !Undefined(loaded[i].document, name))
            && (ok ==> found == if at.None? then None
                                else Some((at.value, EntryOf(loaded[at.value].document, name).value)))
  {
    hide Target, IsEntry, Posts;
    for position := 0 to |loaded|
      invariant FirstHook(Sections(loaded), name, 0) == FirstHook(Sections(loaded), name, position)
      invariant forall i :: 0 <= i < position ==> !Undefined(loaded[i].document, name)
    {
      var document := loaded[position].document;
      PostsHave(document, name);
      var node := Member(Member(Some(document), "webhooks"), name);
      if node.Some? {
        var entry := ResolveLocal(document, node.value);
        if entry.None? {
          NoEntry(document, name);
          return false, None;
        }
        if IsEntry(entry) { return true, Some((position, entry.value)); }
      } else {
        NoEntry(document, name);
      }
    }
    ok, found := true, None;
  }

  lemma NoEntry(document: Json, name: string)
    requires EntryOf(document, name).None?
    ensures !IsEntry(EntryOf(document, name))
  {
  }

  /** One name: its entry is cut, and the entry's other keys are dropped. */
  method CutHook(cut: Cut, loaded: seq<Loaded>, name: string) returns (ok: bool, hook: Option<(nat, Json)>)
    requires cut.Valid()
    modifies cut`stripped
    ensures ok <==> HookFine(loaded, name)
    ensures ok ==>
              var at := FirstHook(Sections(loaded), name, 0);
              && (hook.None? <==> at.None?)
              && (at.Some? ==> hook == Some((at.value, Cutter(loaded, cut.ext)(at.value,
                     Sections(loaded)[at.value][name]))))
    ensures ok ==> cut.stripped == old(cut.stripped) + HookDrops(loaded, name, cut.ext)
  {
    hide OperationCut, OperationDrops, PartsDefined, Target, Undefined, FirstHook, Posts, EntryOf;
    var clear, found := FindEntry(loaded, name);
    if !clear { return false, None; }
    if found.None? { return true, None; }
    var (position, entry) := found.value;
    PostsHave(loaded[position].document, name);
    var post := Member(Some(entry), "post").value;
    var fine, operation := CutOperation(cut, loaded[position].document, post);
    cut.stripped := cut.stripped + (Section(Some(entry)).Keys - {"post"});
    ok, hook := fine, Some((position, operation));
  }

  lemma NoHooksYet(sections: seq<map<string, Json>>, cutOp: (nat, Json) -> Json)
    ensures HooksOf(NO_HOOKS, sections, [], cutOp)
  {
  }

  // A name met before changes nothing.
  lemma HookSeen(h: Hooks, sections: seq<map<string, Json>>, names: seq<string>, cutOp: (nat, Json) -> Json,
                 name: string)
    requires HooksOf(h, sections, names, cutOp)
    ensures name in h.kept || name in h.missing <==> name in names
    ensures name in names ==> HooksOf(h, sections, names + [name], cutOp)
    ensures name !in names ==> name !in h.origin
  {
    hide FirstHook;
    if name in names { assert HookKept(h, sections, cutOp, name); }
  }

  lemma HookMissing(h: Hooks, sections: seq<map<string, Json>>, names: seq<string>, cutOp: (nat, Json) -> Json,
                    name: string)
    requires HooksOf(h, sections, names, cutOp) && name !in names && FirstHook(sections, name, 0).None?
    ensures HooksOf(h.(missing := h.missing + {name}), sections, names + [name], cutOp)
  {
    hide FirstHook;
    var next := h.(missing := h.missing + {name});
    forall n | n in names + [name] ensures HookKept(next, sections, cutOp, n) {
      if n != name { assert HookKept(h, sections, cutOp, n); }
    }
  }

  lemma HookMore(h: Hooks, sections: seq<map<string, Json>>, names: seq<string>, cutOp: (nat, Json) -> Json,
                 name: string)
    requires HooksOf(h, sections, names, cutOp) && name !in names && FirstHook(sections, name, 0).Some?
    ensures var at := FirstHook(sections, name, 0).value;
            HooksOf(KeepHook(h, name, cutOp(at, sections[at][name]), at), sections, names + [name], cutOp)
  {
    hide FirstHook;
    var at := FirstHook(sections, name, 0).value;
    var next := KeepHook(h, name, cutOp(at, sections[at][name]), at);
    forall n | n in names + [name] ensures HookKept(next, sections, cutOp, n) {
      if n != name { assert HookKept(h, sections, cutOp, n); }
    }
  }

  lemma MissingMore(roots: map<nat, set<string>>, h: Hooks, name: string)
    ensures AllRoots(roots, h.(missing := h.missing + {name})) == AllRoots(roots, h)
  {
    hide Refs;
    var next := h.(missing := h.missing + {name});
    assert forall at :: HookRoots(next, at) == HookRoots(h, at);
  }

  // Each entry's references follow the renames of the source it came from.
  ghost predicate HooksFollowed(h: Hooks, layers: seq<Layer>, hooks: map<string, Json>) {
    && hooks.Keys == h.kept.Keys == h.origin.Keys
    && forall name :: name in hooks ==>
         var at := h.origin[name];
         at < |layers| && Refs(h.kept[name]) <= layers[at].roots
             && hooks[name] == Rewrite(h.kept[name], layers[at].rename)
  }

  method FollowHooks(h: Hooks, renames: map<nat, map<string, string>>, ghost layers: seq<Layer>,
                     ghost namespaced: map<string, string>)
    returns (hooks: map<string, Json>)
    requires Recorded(layers, renames, namespaced) && h.origin.Keys == h.kept.Keys
    requires forall name :: name in h.kept ==>
        h.origin[name] < |layers| && Refs(h.kept[name]) <= layers[h.origin[name]].roots
    ensures HooksFollowed(h, layers, hooks)
  {
    hide Refs, Rewrite, NamespacedBy;
    hooks := h.kept;
    var left := h.origin.Keys;
    while left != {}
      invariant left <= h.origin.Keys && hooks.Keys == h.kept.Keys
      invariant forall name :: name in hooks ==>
                  hooks[name]
                      == if name in left then h.kept[name] else Rewrite(h.kept[name], layers[h.origin[name]].rename)
    {
      var name :| name in left;
      var at := h.origin[name];
      RewriteNothing(h.kept[name]);
      if at in renames && renames[at] != map[] {
        hooks := hooks[name := Rewrite(hooks[name], renames[at])];
      }
      left := left - {name};
    }
  }

  lemma RewriteNothing(node: Json)
    ensures Rewrite(node, map[]) == node
  {
    RewriteIdle(node, map[]);
  }
}
