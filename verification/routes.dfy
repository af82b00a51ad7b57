/** Matching a unit's routes to the operations its sources declare, and finding them again in the extract. */
module Routes {
  import opened Wrappers
  import opened JsonTree

  // ----- path templates

  function IndexOf(s: string, c: char): (i: nat)
    ensures i <= |s| && c !in s[..i] && (i < |s| ==> s[i] == c)
  {
    if s == "" || s[0] == c then 0
    else
      var rest := IndexOf(s[1..], c);
      assert s[..1 + rest] == [s[0]] + s[1..][..rest];
      1 + rest
  }

  /** `re.sub(r"\{[^}]+\}", "{}", path)`: every parameter name erased, an empty or unclosed brace left as it is. */
  function TemplateShape(path: string): string {
    if path == "" then ""
    else
      var close := IndexOf(path, '}');
      if path[0] == '{' && 2 <= close < |path| then "{}" + TemplateShape(path[close + 1..])
      else [path[0]] + TemplateShape(path[1..])
  }

  // What precedes any brace is kept as it is.
  lemma {:induction false} ShapeAfterBase(base: string, path: string)
    requires '{' !in base
    ensures TemplateShape(base + path) == base + TemplateShape(path)
  {
    hide TemplateShape;
    if base == "" {
      assert base + path == path;
    } else {
      PlainStep(base + path);
      assert (base + path)[1..] == base[1..] + path;
      ShapeAfterBase(base[1..], path);
      assert [base[0]] + (base[1..] + TemplateShape(path)) == base + TemplateShape(path);
    }
  }

  lemma PlainStep(path: string)
    requires path != "" && path[0] != '{'
    ensures TemplateShape(path) == [path[0]] + TemplateShape(path[1..])
  {
  }

  lemma {:induction false} ShapeKeepsPrefix(prefix: string, path: string)
    requires '{' !in prefix
    ensures HasPrefix(path, prefix) <==> HasPrefix(TemplateShape(path), prefix)
  {
    if HasPrefix(path, prefix) {
      ShapeAfterBase(prefix, path[|prefix|..]);
      assert path == prefix + path[|prefix|..];
    } else if HasPrefix(TemplateShape(path), prefix) {
      PrefixFromShape(prefix, path);
    }
  }

  lemma {:induction false} PrefixFromShape(prefix: string, path: string)
    requires '{' !in prefix && HasPrefix(TemplateShape(path), prefix)
    ensures HasPrefix(path, prefix)
  {
    if prefix != "" {
      assert TemplateShape(path)[0] == prefix[0];
      assert TemplateShape(path) == [path[0]] + TemplateShape(path[1..]);
      assert TemplateShape(path[1..])[..|prefix| - 1] == TemplateShape(path)[..|prefix|][1..];
      PrefixFromShape(prefix[1..], path[1..]);
      assert path[..|prefix|] == [path[0]] + path[1..][..|prefix| - 1];
      assert prefix == [prefix[0]] + prefix[1..];
    }
  }

  /** The name of a parameter does not show in the shape; its place does. */
  lemma ParameterErased(before: string, name: string, rest: string)
    requires '{' !in before && name != "" && '}' !in name
    ensures TemplateShape(before + ("{" + name + "}" + rest)) == before + ("{}" + TemplateShape(rest))
  {
    var path := "{" + name + "}" + rest;
    ShapeAfterBase(before, path);
    assert path[..1 + |name|] == "{" + name;
    IndexIs(path, '}', 1 + |name|);
    assert path[2 + |name|..] == rest;
  }

  lemma IndexIs(s: string, c: char, k: nat)
    requires k < |s| && s[k] == c && c !in s[..k]
    ensures IndexOf(s, c) == k
  {
    var i := IndexOf(s, c);
    assert forall j :: 0 <= j < i ==> s[..i][j] == s[j];
    assert forall j :: 0 <= j < k ==> s[..k][j] == s[j];
  }

  lemma {:induction false} NothingToErase(path: string)
    requires '}' !in path
    ensures TemplateShape(path) == path
  {
    if path != "" { NothingToErase(path[1..]); }
  }

  lemma {:induction false} ShapeStep(path: string)
    requires path != ""
    ensures var close := IndexOf(path, '}');
            TemplateShape(path) == if path[0] == '{' && 2 <= close < |path| then "{}" + TemplateShape(path[close + 1..])
                                   else [path[0]] + TemplateShape(path[1..])
  {
    hide IndexOf;
  }

  // Empty braces are not a parameter.
  lemma EmptyBraces(rest: string)
    ensures TemplateShape("{}" + rest) == "{}" + TemplateShape(rest)
  {
    hide TemplateShape, IndexOf;
    var path := "{}" + rest;
    IndexIs(path, '}', 1);
    ShapeStep(path);
    assert path[1..] == "}" + rest;
    PlainStep("}" + rest);
    assert ("}" + rest)[1..] == rest;
    assert ['{'] + (['}'] + TemplateShape(rest)) == "{}" + TemplateShape(rest);
  }

  // Where a path's shape begins: with empty braces, with a plain character, or nothing is left to erase.
  lemma ShapeCases(path: string) returns (rest: string)
    requires path != ""
    ensures |rest| < |path|
    ensures || TemplateShape(path) == "{}" + TemplateShape(rest)
            || (path[0] != '{' && TemplateShape(path) == [path[0]] + TemplateShape(rest))
            || TemplateShape(path) == path == TemplateShape(TemplateShape(path))
  {
    hide TemplateShape, IndexOf;
    var close := IndexOf(path, '}');
    ShapeStep(path);
    rest := path[1..];
    if path[0] == '{' && 2 <= close < |path| {
      rest := path[close + 1..];
    } else if path[0] == '{' && close == 1 && |path| > 1 {
      rest := path[2..];
      EmptyBraces(rest);
      assert path == "{}" + rest;
    } else if path[0] == '{' {
      assert path[..|path|] == path;
      NothingToErase(path);
    }
  }

  /** A shape is its own shape. */
  lemma {:induction false} ShapeOfShape(path: string)
    ensures TemplateShape(TemplateShape(path)) == TemplateShape(path)
    decreases |path|
  {
    if path != "" {
      var rest := ShapeCases(path);
      ShapeOfShape(rest);
      hide TemplateShape;
      EmptyBraces(TemplateShape(rest));
      if path[0] != '{' { PlainAhead(path[0], TemplateShape(rest)); }
    }
  }

  lemma PlainAhead(c: char, rest: string)
    requires c != '{'
    ensures TemplateShape([c] + rest) == [c] + TemplateShape(rest)
  {
    hide TemplateShape;
    PlainStep([c] + rest);
    assert ([c] + rest)[1..] == rest;
  }

  /** `_strip_base`: the path without the source's prefix, or none when it does not carry it. */
  function StripBase(basePath: string, specPath: string): Option<string> {
    if basePath == "" then Some(specPath)
    else if specPath == basePath then Some("/")
    else if HasPrefix(specPath, basePath + "/") then Some(specPath[|basePath|..])
    else None
  }

  // The route is the prefix itself, with nothing after it.
  predicate BareBase(basePath: string, specPath: string) {
    basePath != "" && specPath == basePath
  }

  lemma StripBaseShape(basePath: string, specPath: string)
    requires '{' !in basePath && !BareBase(basePath, specPath)
    ensures StripBase(basePath, specPath).Some? <==>
              basePath == "" || HasPrefix(TemplateShape(specPath), basePath + "/")
    ensures StripBase(basePath, specPath).Some? ==>
              var l := StripBase(basePath, specPath).value;
              specPath == basePath + l && TemplateShape(specPath) == basePath + TemplateShape(l)
  {
    ShapeKeepsPrefix(basePath + "/", specPath);
    if StripBase(basePath, specPath).Some? {
      var l := StripBase(basePath, specPath).value;
      if basePath != "" {
        assert specPath[..|basePath|] == (specPath[..|basePath + "/"|])[..|basePath|] == basePath;
      }
      assert specPath == basePath + l;
      ShapeAfterBase(basePath, l);
    }
  }

  // ----- the sources' operations

  // One `paths` entry of a document, in document order; methods are spelled in one case throughout.
  datatype PathItem = PathItem(path: string, operations: map<string, Json>)

  datatype Upstream = Upstream(basePath: string, paths: seq<PathItem>)

  datatype Hit = Hit(path: string, raw: Json)

  // The first declared path of this shape that has the method.
  function FirstDeclared(paths: seq<PathItem>, verb: string, shape: string): Option<Hit> {
    if paths == [] then None
    else if TemplateShape(paths[0].path) == shape && verb in paths[0].operations then
      Some(Hit(paths[0].path, paths[0].operations[verb]))
    else FirstDeclared(paths[1..], verb, shape)
  }

  lemma {:induction false} FirstDeclaredShape(paths: seq<PathItem>, verb: string, shape: string)
    requires FirstDeclared(paths, verb, shape).Some?
    ensures TemplateShape(FirstDeclared(paths, verb, shape).value.path) == shape
  {
    if !(TemplateShape(paths[0].path) == shape && verb in paths[0].operations) {
      FirstDeclaredShape(paths[1..], verb, shape);
    }
  }

  lemma {:induction false} FirstDeclaredMore(paths: seq<PathItem>, item: PathItem, verb: string, shape: string)
    ensures FirstDeclared(paths + [item], verb, shape)
         == if FirstDeclared(paths, verb, shape).Some? then FirstDeclared(paths, verb, shape)
            else FirstDeclared([item], verb, shape)
  {
    if paths == [] {
      assert paths + [item] == [item];
    } else {
      assert (paths + [item])[1..] == paths[1..] + [item];
      FirstDeclaredMore(paths[1..], item, verb, shape);
    }
  }

  type PathIndex = map<(string, string), Hit>

  // An index finds exactly what a search of the paths in order finds.
  ghost predicate Indexes(index: PathIndex, paths: seq<PathItem>) {
    forall verb, shape ::
      FirstDeclared(paths, verb, shape) == if (verb, shape) in index then Some(index[(verb, shape)]) else None
  }

  /** `_index_paths`: one pass over the paths, the first of each method and shape winning. */
  method IndexPaths(paths: seq<PathItem>) returns (index: PathIndex)
    ensures Indexes(index, paths)
  {
    index := map[];
    for i := 0 to |paths|
      invariant Indexes(index, paths[..i])
    {
      var item := paths[i];
      var shape := TemplateShape(item.path);
      ghost var before := index;
      var left := item.operations.Keys;
      while left != {}
        invariant left <= item.operations.Keys
        invariant forall v, s :: (v, s) in index <==>
                    (v, s) in before || (s == shape && v in item.operations && v !in left)
        invariant forall v, s :: (v, s) in index ==>
                    index[(v, s)] == if (v, s) in before then before[(v, s)] else Hit(item.path, item.operations[v])
      {
        var verb :| verb in left;
        left := left - {verb};
        if (verb, shape) !in index {
          index := index[(verb, shape) := Hit(item.path, item.operations[verb])];
        }
      }
      assert paths[..i + 1] == paths[..i] + [item];
      forall v, s
        ensures FirstDeclared(paths[..i + 1], v, s) == if (v, s) in index then Some(index[(v, s)]) else None
      {
        FirstDeclaredMore(paths[..i], item, v, s);
      }
    }
    assert paths[..|paths|] == paths;
  }

  // ----- a route's operation

  datatype Found = Found(position: nat, path: string, raw: Json)

  // The first source, in declaration order, that carries the route's prefix and declares its shape and method.
  function FirstMatch(sources: seq<Upstream>, verb: string, specPath: string, i: nat): (found: Option<Found>)
    ensures found.Some? ==> i <= found.value.position < |sources|
    decreases |sources| - i
  {
    if i >= |sources| then None
    else
      var l := StripBase(sources[i].basePath, specPath);
      var hit := if l.Some? then FirstDeclared(sources[i].paths, verb, TemplateShape(l.value)) else None;
      if hit.Some? then Some(Found(i, hit.value.path, hit.value.raw)) else FirstMatch(sources, verb, specPath, i + 1)
  }

  // Where the operation stands in the extract.
  function OutPath(sources: seq<Upstream>, found: Found): string
    requires found.position < |sources|
  {
    sources[found.position].basePath + found.path
  }

  ghost predicate BraceFree(sources: seq<Upstream>) {
    forall i :: 0 <= i < |sources| ==> '{' !in sources[i].basePath
  }

  // A path whose shape has no brace in it is its own shape.
  lemma {:induction false} PlainFromShape(path: string)
    requires '{' !in TemplateShape(path)
    ensures TemplateShape(path) == path
  {
    if path == "" {
    } else if path[0] == '{' {
      BraceShows(path);
      assert false;
    } else {
      PlainStep(path);
      PlainFromShape(path[1..]);
    }
  }

  lemma BraceShows(path: string)
    requires path != "" && path[0] == '{'
    ensures '{' in TemplateShape(path)
  {
    ShapeStep(path);
    hide TemplateShape;
    assert TemplateShape(path)[0] == '{';
  }

  // Whether a base path is carried, and the shape of what is left, depends on the shape alone.
  lemma StripSameShape(base: string, p: string, q: string)
    requires '{' !in base && TemplateShape(p) == TemplateShape(q)
    ensures StripBase(base, p).Some? <==> StripBase(base, q).Some?
    ensures StripBase(base, p).Some? ==>
        TemplateShape(StripBase(base, p).value) == TemplateShape(StripBase(base, q).value)
  {
    if BareBase(base, p) || BareBase(base, q) {
      ShapeAfterBase(base, "");
      assert base + "" == base && TemplateShape("") == "";
      hide TemplateShape;
      PlainFromShape(p);
      PlainFromShape(q);
    } else {
      hide TemplateShape;
      StripBaseShape(base, p);
      StripBaseShape(base, q);
      if StripBase(base, p).Some? {
        assert TemplateShape(StripBase(base, p).value) == TemplateShape(p)[|base|..];
        assert TemplateShape(StripBase(base, q).value) == TemplateShape(q)[|base|..];
      }
    }
  }

  // Parameter names do not decide which operation a route is.
  lemma {:induction false} SameShapeSameMatch(sources: seq<Upstream>, verb: string, p: string, q: string, i: nat)
    requires BraceFree(sources) && TemplateShape(p) == TemplateShape(q)
    ensures FirstMatch(sources, verb, p, i) == FirstMatch(sources, verb, q, i)
    decreases |sources| - i
  {
    hide TemplateShape;
    if i < |sources| {
      StripSameShape(sources[i].basePath, p, q);
      SameShapeSameMatch(sources, verb, p, q, i + 1);
    }
  }

  // The extract's path has the route's shape.
  lemma {:induction false} OutPathShape(sources: seq<Upstream>, verb: string, specPath: string, i: nat)
    requires BraceFree(sources) && FirstMatch(sources, verb, specPath, i).Some?
    requires !BareBase(sources[FirstMatch(sources, verb, specPath, i).value.position].basePath, specPath)
    ensures TemplateShape(OutPath(sources, FirstMatch(sources, verb, specPath, i).value)) == TemplateShape(specPath)
    decreases |sources| - i
  {
    var base := sources[i].basePath;
    if !BareBase(base, specPath) { StripBaseShape(base, specPath); }
    var found := FirstMatch(sources, verb, specPath, i).value;
    if found.position == i && StripBase(base, specPath).Some?
       && FirstDeclared(sources[i].paths, verb, TemplateShape(StripBase(base, specPath).value)).Some? {
      FirstDeclaredShape(sources[i].paths, verb, TemplateShape(StripBase(base, specPath).value));
      ShapeAfterBase(base, found.path);
    } else {
      OutPathShape(sources, verb, specPath, i + 1);
    }
  }

  // A modeled route: its method and its path as the unit spells it.
  datatype Route = Route(verb: string, specPath: string)

  function MatchOf(sources: seq<Upstream>, route: Route): (found: Option<Found>)
    ensures found.Some? ==> found.value.position < |sources|
  {
    FirstMatch(sources, route.verb, route.specPath, 0)
  }

  // The route is the base path of the very source it is matched in.
  predicate ThroughBare(sources: seq<Upstream>, route: Route) {
    var found := MatchOf(sources, route);
    found.Some? && BareBase(sources[found.value.position].basePath, route.specPath)
  }

  // Such a route's operation stands at the base path and a slash, another shape than the route's.
  lemma ThroughBareShape(sources: seq<Upstream>, route: Route)
    requires BraceFree(sources) && ThroughBare(sources, route)
    ensures TemplateShape(route.specPath) == route.specPath
    ensures var out := OutPath(sources, MatchOf(sources, route).value);
            out == route.specPath + "/" == TemplateShape(out)
  {
    var found := MatchOf(sources, route).value;
    FirstMatchShape(sources, route.verb, route.specPath, 0);
    ShapeAfterBase(route.specPath, "");
    ShapeAfterBase(route.specPath, "/");
    assert route.specPath + "" == route.specPath && TemplateShape("") == "";
    PlainStep("/");
    assert TemplateShape("/") == "/";
    hide TemplateShape;
    PlainFromShape(found.path);
  }

  // What is matched has the shape of what its source's base path leaves.
  lemma {:induction false} FirstMatchShape(sources: seq<Upstream>, verb: string, specPath: string, i: nat)
    requires FirstMatch(sources, verb, specPath, i).Some?
    ensures var found := FirstMatch(sources, verb, specPath, i).value;
            var l := StripBase(sources[found.position].basePath, specPath);
            && l.Some? && TemplateShape(found.path) == TemplateShape(l.value)
            && FirstDeclared(sources[found.position].paths, verb, TemplateShape(l.value))
               == Some(Hit(found.path, found.raw))
    decreases |sources| - i
  {
    hide TemplateShape;
    var l := StripBase(sources[i].basePath, specPath);
    if l.Some? && FirstDeclared(sources[i].paths, verb, TemplateShape(l.value)).Some? {
      FirstDeclaredShape(sources[i].paths, verb, TemplateShape(l.value));
    } else {
      FirstMatchShape(sources, verb, specPath, i + 1);
    }
  }

  // Two routes whose operations stand at one path of the extract are one operation.
  lemma SamePlaceSameMatch(sources: seq<Upstream>, a: Route, b: Route)
    requires BraceFree(sources) && !ThroughBare(sources, a) && !ThroughBare(sources, b) && a.verb == b.verb
    requires MatchOf(sources, a).Some? && MatchOf(sources, b).Some?
    requires TemplateShape(OutPath(sources, MatchOf(sources, a).value))
        == TemplateShape(OutPath(sources, MatchOf(sources, b).value))
    ensures MatchOf(sources, a) == MatchOf(sources, b)
  {
    hide TemplateShape;
    OutPathShape(sources, a.verb, a.specPath, 0);
    OutPathShape(sources, b.verb, b.specPath, 0);
    SameShapeSameMatch(sources, a.verb, a.specPath, b.specPath, 0);
  }

  // ----- the match, without the search

  // What a base path leaves of a path: all of it when there is none, a slash of the base path itself.
  ghost predicate Leaves(base: string, path: string, rest: string) {
    if base == "" then rest == path
    else (path == base && rest == "/") || (path == base + rest && rest != "" && rest[0] == '/')
  }

  lemma StripBaseExactly(base: string, path: string)
    ensures forall rest :: StripBase(base, path) == Some(rest) <==> Leaves(base, path, rest)
  {
    if HasPrefix(path, base + "/") {
      assert path[..|base|] == (path[..|base + "/"|])[..|base|] == base;
      assert path == base + path[|base|..] && path[|base|] == (base + "/")[|base|];
    }
    forall rest | base != "" && path == base + rest && rest != "" && rest[0] == '/'
      ensures HasPrefix(path, base + "/") && path[|base|..] == rest && path != base
    {
      assert path[..|base| + 1] == base + "/";
    }
  }

  // The source declares the method at a path of the shape that its base path leaves of the route's.
  ghost predicate Declares(source: Upstream, route: Route, k: nat) {
    && k < |source.paths| && route.verb in source.paths[k].operations
    && exists rest ::
         Leaves(source.basePath, route.specPath, rest) && TemplateShape(rest) == TemplateShape(source.paths[k].path)
  }

  ghost predicate DeclaresNone(source: Upstream, route: Route) {
    forall k :: 0 <= k < |source.paths| ==> !Declares(source, route, k)
  }

  // The first path of the first source that declares the route.
  ghost predicate FirstOf(found: Found, sources: seq<Upstream>, route: Route, k: nat) {
    && found.position < |sources| && Declares(sources[found.position], route, k)
    && (forall j :: 0 <= j < k ==> !Declares(sources[found.position], route, j))
    && (forall i :: 0 <= i < found.position ==> DeclaresNone(sources[i], route))
    && var item := sources[found.position].paths[k];
       found.path == item.path && found.raw == item.operations[route.verb]
  }

  lemma {:induction false} FirstDeclaredExactly(paths: seq<PathItem>, verb: string, shape: string)
    returns (k: nat)
    ensures var hit := FirstDeclared(paths, verb, shape);
            && (hit.None? ==> k == |paths|)
            && (hit.Some? ==> k < |paths| && verb in paths[k].operations && TemplateShape(paths[k].path) == shape
                              && hit.value == Hit(paths[k].path, paths[k].operations[verb]))
            && forall j :: 0 <= j < k && j < |paths| ==>
                 !(verb in paths[j].operations && TemplateShape(paths[j].path) == shape)
  {
    hide TemplateShape;
    if paths == [] || (TemplateShape(paths[0].path) == shape && verb in paths[0].operations) {
      k := 0;
    } else {
      var rest := FirstDeclaredExactly(paths[1..], verb, shape);
      k := rest + 1;
      assert forall j :: 0 < j < |paths| ==> paths[j] == paths[1..][j - 1];
    }
  }

  // One source: what its index finds is its first path that declares the route.
  lemma SourceMatch(source: Upstream, route: Route) returns (k: nat)
    ensures var l := StripBase(source.basePath, route.specPath);
            var hit := if l.Some? then FirstDeclared(source.paths, route.verb, TemplateShape(l.value)) else None;
            && (hit.None? ==> DeclaresNone(source, route))
            && (hit.Some? ==> Declares(source, route, k)
                              && hit.value == Hit(source.paths[k].path, source.paths[k].operations[route.verb]))
            && (hit.Some? ==> forall j :: 0 <= j < k ==> !Declares(source, route, j))
  {
    hide TemplateShape, FirstDeclared, StripBase, Leaves;
    StripBaseExactly(source.basePath, route.specPath);
    var l := StripBase(source.basePath, route.specPath);
    k := 0;
    if l.Some? {
      assert Leaves(source.basePath, route.specPath, l.value);
      k := FirstDeclaredExactly(source.paths, route.verb, TemplateShape(l.value));
      forall j: nat | j < |source.paths|
        ensures Declares(source, route, j) <==>
                  && route.verb in source.paths[j].operations
                  && TemplateShape(source.paths[j].path) == TemplateShape(l.value)
      {
        if Declares(source, route, j) {
          var rest :| Leaves(source.basePath, route.specPath, rest)
            && TemplateShape(rest) == TemplateShape(source.paths[j].path);
          assert StripBase(source.basePath, route.specPath) == Some(rest);
        }
      }
    }
  }

  lemma {:induction false} FirstMatchExactly(sources: seq<Upstream>, route: Route, i: nat) returns (k: nat)
    requires i <= |sources| && forall j :: 0 <= j < i ==> DeclaresNone(sources[j], route)
    ensures var found := FirstMatch(sources, route.verb, route.specPath, i);
            if found.Some? then FirstOf(found.value, sources, route, k)
            else forall j :: 0 <= j < |sources| ==> DeclaresNone(sources[j], route)
    decreases |sources| - i
  {
    hide TemplateShape, FirstDeclared, StripBase, Declares, DeclaresNone;
    k := 0;
    if i < |sources| {
      k := SourceMatch(sources[i], route);
      DeclaredThere(sources[i], route, k);
      var found := FirstMatch(sources, route.verb, route.specPath, i);
      if found.None? || found.value.position > i { k := FirstMatchExactly(sources, route, i + 1); }
    }
  }

  lemma DeclaredThere(source: Upstream, route: Route, k: nat)
    ensures Declares(source, route, k) ==> k < |source.paths| && route.verb in source.paths[k].operations
  {
    hide TemplateShape, Leaves;
  }

  /** A route's operation is that of the first path, of the first source, that declares it; with none it has none. */
  lemma MatchExactly(sources: seq<Upstream>, route: Route)
    ensures var found := MatchOf(sources, route);
            && (found.None? <==> forall i :: 0 <= i < |sources| ==> DeclaresNone(sources[i], route))
            && (found.Some? ==> exists k: nat :: FirstOf(found.value, sources, route, k))
  {
    hide TemplateShape, FirstDeclared, StripBase, Leaves, FirstMatch;
    var k := FirstMatchExactly(sources, route, 0);
    var found := MatchOf(sources, route);
    if found.Some? { assert !DeclaresNone(sources[found.value.position], route); }
  }
}
