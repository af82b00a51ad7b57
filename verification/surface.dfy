/**
 What a unit's routes are, in the vendor's terms (`modeled_routes`, `Surface.classify`), over the extract cut for them.
 */
module Surfaces {
  import opened Wrappers
  import opened JsonTree
  import opened Routes
  import opened Cutting

  datatype UnitRoute = UnitRoute(verb: string, path: string, hidden: bool)

  // A unit route spelled with a literal where the document has a parameter.
  datatype Alias = Alias(verb: string, path: string, specPath: string)

  // A vendor route the document does not describe.
  datatype Excuse = Excuse(verb: string, path: string)

  datatype Declared = Declared(aliases: seq<Alias>, excuses: seq<Excuse>)

  datatype Classified = OnControlPlane | IsOperation(operation: Operation) | IsExcused | IsUndeclared

  predicate Internal(route: UnitRoute) {
    route.hidden || HasPrefix(route.path, "/__")
  }

  function AliasFor(aliases: seq<Alias>, route: UnitRoute): Option<Alias> {
    if aliases == [] then None
    else if aliases[0].verb == route.verb && aliases[0].path == route.path then Some(aliases[0])
    else AliasFor(aliases[1..], route)
  }

  predicate HasExcuse(d: Declared, route: UnitRoute) {
    exists i :: 0 <= i < |d.excuses| && d.excuses[i] == Excuse(route.verb, route.path)
  }

  // The route as the document spells it.
  function SpecRoute(d: Declared, route: UnitRoute): Route {
    var other := AliasFor(d.aliases, route);
    Route(route.verb, if other.Some? then other.value.specPath else route.path)
  }

  /** `classify` */
  function Classify(d: Declared, byShape: ByShape, route: UnitRoute): Classified {
    if Internal(route) then OnControlPlane
    else
      var spec := SpecRoute(d, route);
      var operation := Lookup(byShape, spec.verb, spec.specPath);
      if operation.Some? then IsOperation(operation.value)
      else if HasExcuse(d, route) then IsExcused
      else IsUndeclared
  }

  // The first alias of the route's own method and path says how the document spells it; without one, as the unit does.
  ghost predicate SpelledAs(d: Declared, route: UnitRoute, spec: Route) {
    && spec.verb == route.verb
    && if forall i :: 0 <= i < |d.aliases| ==> !AliasOf(d.aliases[i], route) then spec.specPath == route.path
       else exists i :: 0 <= i < |d.aliases| && AliasOf(d.aliases[i], route) && spec.specPath == d.aliases[i].specPath
              && forall j :: 0 <= j < i ==> !AliasOf(d.aliases[j], route)
  }

  ghost predicate AliasOf(other: Alias, route: UnitRoute) {
    other.verb == route.verb && other.path == route.path
  }

  lemma {:induction false} AliasForExactly(aliases: seq<Alias>, route: UnitRoute) returns (i: nat)
    ensures var other := AliasFor(aliases, route);
            && (other.None? ==> i == |aliases|)
            && (other.Some? ==> i < |aliases| && AliasOf(aliases[i], route) && other.value == aliases[i])
            && forall j :: 0 <= j < i && j < |aliases| ==> !AliasOf(aliases[j], route)
  {
    if aliases == [] || AliasOf(aliases[0], route) {
      i := 0;
    } else {
      var rest := AliasForExactly(aliases[1..], route);
      i := rest + 1;
      assert forall j :: 0 < j < |aliases| ==> aliases[j] == aliases[1..][j - 1];
    }
  }

  /** What a route is called, by its own fields, the declaration's rows and what the extract's reader finds. */
  lemma ClassifyExactly(d: Declared, byShape: ByShape, route: UnitRoute)
    ensures SpelledAs(d, route, SpecRoute(d, route))
    ensures var called := Classify(d, byShape, route);
            var operation := Lookup(byShape, route.verb, SpecRoute(d, route).specPath);
            && (called == OnControlPlane <==>
                  route.hidden || (|route.path| >= 3 && route.path[0] == '/' && route.path[1] == route.path[2] == '_'))
            && (called.IsOperation? ==> operation == Some(called.operation))
            && (called == IsExcused || called == IsUndeclared ==> operation == None)
            && (called == IsExcused ==>
                  exists i :: 0 <= i < |d.excuses| && d.excuses[i] == Excuse(route.verb, route.path))
            && (called == IsUndeclared ==>
                  forall i :: 0 <= i < |d.excuses| ==> d.excuses[i] != Excuse(route.verb, route.path))
  {
    hide Lookup;
    var i := AliasForExactly(d.aliases, route);
    if |route.path| >= 3 {
      assert route.path[..3] == [route.path[0], route.path[1], route.path[2]];
    }
  }

  // The routes an extract is cut for: every vendor route of the unit, as the document spells it.
  ghost predicate ModeledOf(modeled: set<Route>, d: Declared, routes: seq<UnitRoute>) {
    forall route :: route in modeled
        <==> exists i :: 0 <= i < |routes| && !Internal(routes[i]) && SpecRoute(d, routes[i]) == route
  }

  /** `modeled_routes` */
  method ModeledRoutes(d: Declared, routes: seq<UnitRoute>) returns (modeled: set<Route>)
    ensures ModeledOf(modeled, d, routes)
  {
    hide Internal, SpecRoute;
    modeled := {};
    for i := 0 to |routes|
      invariant forall route :: route in modeled <==>
                  exists j :: 0 <= j < i && !Internal(routes[j]) && SpecRoute(d, routes[j]) == route
    {
      if !Internal(routes[i]) { modeled := modeled + {SpecRoute(d, routes[i])}; }
    }
  }

  function InListing(listing: seq<Route>): set<Route> {
    set route | route in listing
  }

  // An extract cut for the unit's own routes, some listing of them, and read back.
  ghost predicate CutFor(d: Declared, routes: seq<UnitRoute>, listing: seq<Route>, c: Cuts, sources: seq<Upstream>,
                         cutOp: (nat, Json) -> Json, paths: Paths, byShape: ByShape) {
    && ModeledOf(InListing(listing), d, routes)
    && CutsOf(c, sources, listing, cutOp) && SamePlaces(c, paths) && Reads(byShape, paths)
    && BraceFree(sources)
  }

  /**
   From the unit's routes to what each is called at run time: a vendor route is an operation exactly when some source
   declares it, and then it is the first such source's; otherwise it is listed missing, and excused or undeclared.
   Only a route through a bare base path, or overruled by one, may be called something else.
   */
  lemma ClassifiedExactly(d: Declared, routes: seq<UnitRoute>, listing: seq<Route>, c: Cuts, sources: seq<Upstream>,
                          cutOp: (nat, Json) -> Json, paths: Paths, byShape: ByShape, i: nat)
    requires CutFor(d, routes, listing, c, sources, cutOp, paths, byShape) && i < |routes| && !Internal(routes[i])
    requires var spec := SpecRoute(d, routes[i]);
             !ThroughBare(sources, spec) && !Overruled(sources, listing, spec)
    ensures var spec := SpecRoute(d, routes[i]);
            var found := MatchOf(sources, spec);
            var called := Classify(d, byShape, routes[i]);
            && (spec in c.missing <==> found.None?)
            && (found.None? ==> called == if HasExcuse(d, routes[i]) then IsExcused else IsUndeclared)
            && (found.Some? ==>
                  var out := OutPath(sources, found.value);
                  && Stands(paths, out, spec.verb) && Stands(c.paths, out, spec.verb)
                  && c.paths[out][spec.verb] == cutOp(found.value.position, found.value.raw)
                  && called == IsOperation(Operation(spec.verb, out, paths[out][spec.verb])))
  {
    hide Internal, SpecRoute, CutsOf, Reads, SamePlaces, BraceFree, ThroughBare, Overruled, MatchOf, OutPath, Lookup,
        HasExcuse;
    var spec := SpecRoute(d, routes[i]);
    SpecListed(d, routes, listing, c, sources, cutOp, paths, byShape, i);
    CutterAndReaderAgree(c, sources, listing, cutOp, paths, byShape, spec);
    StandsAlike(c, paths);
  }

  lemma SpecListed(d: Declared, routes: seq<UnitRoute>, listing: seq<Route>, c: Cuts, sources: seq<Upstream>,
                   cutOp: (nat, Json) -> Json, paths: Paths, byShape: ByShape, i: nat)
    requires CutFor(d, routes, listing, c, sources, cutOp, paths, byShape) && i < |routes| && !Internal(routes[i])
    ensures SpecRoute(d, routes[i]) in listing
  {
    hide Internal, SpecRoute, CutsOf, Reads, SamePlaces, BraceFree;
    assert SpecRoute(d, routes[i]) in InListing(listing);
  }

  lemma StandsAlike(c: Cuts, paths: Paths)
    requires SamePlaces(c, paths)
    ensures forall out, verb :: Stands(paths, out, verb) <==> Stands(c.paths, out, verb)
  {
  }

  /** No route of the unit is undeclared exactly when every vendor route listed missing has its excuse. */
  lemma NoneUndeclaredExactlyWhen(d: Declared, routes: seq<UnitRoute>, listing: seq<Route>, c: Cuts,
                                  sources: seq<Upstream>,
                                  cutOp: (nat, Json) -> Json, paths: Paths, byShape: ByShape)
    requires CutFor(d, routes, listing, c, sources, cutOp, paths, byShape) && NoneThroughBare(sources, listing)
    ensures (forall i :: 0 <= i < |routes| ==> !Classify(d, byShape, routes[i]).IsUndeclared?)
       <==> (forall i :: 0 <= i < |routes| && !Internal(routes[i]) && SpecRoute(d, routes[i]) in c.missing ==>
           HasExcuse(d, routes[i]))
  {
    forall i: nat | i < |routes|
      ensures Classify(d, byShape, routes[i]).IsUndeclared?
         <==> !Internal(routes[i]) && SpecRoute(d, routes[i]) in c.missing && !HasExcuse(d, routes[i])
    {
      hide CutFor, SpecRoute, MatchOf, OutPath, HasExcuse, Internal, ThroughBare, Overruled, NoneThroughBare;
      if !Internal(routes[i]) {
        SpecListed(d, routes, listing, c, sources, cutOp, paths, byShape, i);
        NoneOverruled(sources, listing, SpecRoute(d, routes[i]));
        ClassifiedExactly(d, routes, listing, c, sources, cutOp, paths, byShape, i);
      }
    }
    hide Classify, SpecRoute, HasExcuse, Internal, CutFor;
  }

  /** An excuse for a route that the documents do describe is never used. */
  lemma ExcuseUnused(d: Declared, byShape: ByShape, route: UnitRoute, excuse: Excuse)
    requires !Classify(d, byShape, route).IsExcused?
    ensures Classify(d.(excuses := d.excuses + [excuse]), byShape, route)
         == if Classify(d, byShape, route).IsUndeclared? && excuse == Excuse(route.verb, route.path) then IsExcused
            else Classify(d, byShape, route)
  {
    hide Lookup;
    var more := d.(excuses := d.excuses + [excuse]);
    assert SpecRoute(more, route) == SpecRoute(d, route);
    assert HasExcuse(more, route) <==> HasExcuse(d, route) || excuse == Excuse(route.verb, route.path) by {
      assert more.excuses[|d.excuses|] == excuse;
      assert forall i :: 0 <= i < |d.excuses| ==> more.excuses[i] == d.excuses[i];
    }
  }
}
