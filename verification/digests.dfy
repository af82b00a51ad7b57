/** Operation digests (`_reached`, `cut_digests`, `_operation_diff`): what moved between two cuts. */
module Digests {
  import opened Wrappers
  import opened JsonTree
  import opened References
  import opened Reachability
  import opened Closures
  import Cutting

  function SchemaGraph(schemas: Schemas): Graph {
    map name | name in schemas.Keys :: Refs(schemas[name])
  }

  // `schemas.get(name, {})`
  function SchemaOf(schemas: Schemas, name: string): Json {
    if name in schemas then schemas[name] else Obj(map[])
  }

  ghost predicate Reaches(node: Json, schemas: Schemas, name: string) {
    Reachable(SchemaGraph(schemas), Refs(node), name)
  }

  // Every schema the node reaches, by name.
  ghost function ReachedOf(node: Json, schemas: Schemas): Schemas {
    map name | name in Mentioned(SchemaGraph(schemas), Refs(node))
        && Reaches(node, schemas, name) :: SchemaOf(schemas, name)
  }

  // A reached name is mentioned somewhere, so there are finitely many.
  lemma ReachedIsMentioned(node: Json, schemas: Schemas, name: string)
    requires Reaches(node, schemas, name)
    ensures name in Mentioned(SchemaGraph(schemas), Refs(node))
  {
    hide Refs;
    var g := SchemaGraph(schemas);
    var all := Mentioned(g, Refs(node));
    forall from | from in all ensures Successors(g, from) <= all {
      if from in g { forall to | to in g[from] ensures to in all {} }
    }
    ReachableIsLeast(g, Refs(node), all, name);
  }

  ghost predicate Visiting(pending: set<string>, reached: Schemas, node: Json, schemas: Schemas) {
    var g := SchemaGraph(schemas);
    && (forall name :: name in pending || name in reached ==> Reaches(node, schemas, name))
    && (forall name :: name in reached ==> reached[name] == SchemaOf(schemas, name))
    && Refs(node) <= pending + reached.Keys
    && (forall from :: from in reached ==> Successors(g, from) <= pending + reached.Keys)
  }

  /** `_reached`: a worklist that pops names in any order. */
  method Reached(node: Json, schemas: Schemas) returns (reached: Schemas)
    ensures reached == ReachedOf(node, schemas)
  {
    hide Refs, Visiting, ReachedOf, Mentioned, SchemaGraph;
    reached := map[];
    var pending := Refs(node);
    StartVisiting(node, schemas);
    while pending != {}
      invariant Visiting(pending, reached, node, schemas)
      decreases |Mentioned(SchemaGraph(schemas), Refs(node)) - reached.Keys|, |pending|
    {
      var name :| name in pending;
      if name in reached {
        VisitDrops(pending, reached, node, schemas, name);
        pending := pending - {name};
      } else {
        VisitShrinks(pending, reached, node, schemas, name);
        VisitEnters(pending, reached, node, schemas, name);
        var schema := SchemaOf(schemas, name);
        assert reached[name := schema].Keys == reached.Keys + {name};
        reached := reached[name := schema];
        pending := pending - {name} + (Refs(schema) - reached.Keys);
      }
    }
    DoneVisiting(reached, node, schemas);
  }

  lemma StartVisiting(node: Json, schemas: Schemas)
    ensures Visiting(Refs(node), map[], node, schemas)
  {
    hide Refs;
    forall name | name in Refs(node) ensures Reaches(node, schemas, name) {
      RootReachable(SchemaGraph(schemas), Refs(node), name);
    }
  }

  lemma VisitDrops(pending: set<string>, reached: Schemas, node: Json, schemas: Schemas, name: string)
    requires Visiting(pending, reached, node, schemas) && name in pending && name in reached
    ensures Visiting(pending - {name}, reached, node, schemas)
  {
    hide Refs, Mentioned, Reaches, SchemaGraph;
    assert pending - {name} + reached.Keys == pending + reached.Keys;
  }

  lemma VisitShrinks(pending: set<string>, reached: Schemas, node: Json, schemas: Schemas, name: string)
    requires Visiting(pending, reached, node, schemas) && name in pending && name !in reached
    ensures var all := Mentioned(SchemaGraph(schemas), Refs(node));
            |all - (reached.Keys + {name})| < |all - reached.Keys|
  {
    hide Refs, Mentioned, Reaches, SchemaGraph;
    ReachedIsMentioned(node, schemas, name);
    Shrinks(Mentioned(SchemaGraph(schemas), Refs(node)), reached.Keys, name);
  }

  lemma VisitEnters(pending: set<string>, reached: Schemas, node: Json, schemas: Schemas, name: string)
    requires Visiting(pending, reached, node, schemas) && name in pending && name !in reached
    ensures var next := reached[name := SchemaOf(schemas, name)];
            Visiting(pending - {name} + (Refs(SchemaOf(schemas, name)) - next.Keys), next, node, schemas)
  {
    hide Refs, Mentioned, Reaches, SchemaGraph;
    var next := reached[name := SchemaOf(schemas, name)];
    var more := pending - {name} + (Refs(SchemaOf(schemas, name)) - next.Keys);
    SchemaSuccessors(schemas, name);
    forall n | n in Refs(SchemaOf(schemas, name))
      ensures Reaches(node, schemas, n)
    {
      ReachesStep(node, schemas, name, n);
    }
    forall n | n in pending + reached.Keys ensures n in more + next.Keys {}
    assert pending + reached.Keys <= more + next.Keys;
  }

  lemma ReachesStep(node: Json, schemas: Schemas, from: string, to: string)
    requires Reaches(node, schemas, from) && to in Successors(SchemaGraph(schemas), from)
    ensures Reaches(node, schemas, to)
  {
    hide Refs;
    ReachableStep(SchemaGraph(schemas), Refs(node), from, to);
  }

  lemma SchemaSuccessors(schemas: Schemas, name: string)
    ensures Successors(SchemaGraph(schemas), name) == Refs(SchemaOf(schemas, name))
  {
  }

  lemma DoneVisiting(reached: Schemas, node: Json, schemas: Schemas)
    requires Visiting({}, reached, node, schemas)
    ensures reached == ReachedOf(node, schemas)
  {
    hide Refs, Mentioned;
    var g := SchemaGraph(schemas);
    assert Closed(g, reached.Keys);
    forall name ensures name in reached <==> name in ReachedOf(node, schemas) {
      if name in reached { ReachedIsMentioned(node, schemas, name); }
      if name in ReachedOf(node, schemas) { ReachableIsLeast(g, Refs(node), reached.Keys, name); }
    }
  }

  /** The names reached are the least set that holds what the node refers to, and what a schema in it refers to. */
  lemma ReachedExactly(node: Json, schemas: Schemas, names: set<string>)
    requires Refs(node) <= names
    requires forall name :: name in names && name in schemas ==> Refs(schemas[name]) <= names
    ensures var reached := ReachedOf(node, schemas);
            && Refs(node) <= reached.Keys <= names
            && forall name :: name in reached ==>
                 && Refs(reached[name]) <= reached.Keys
                 && reached[name] == if name in schemas then schemas[name] else Obj(map[])
  {
    hide Refs, Mentioned, SchemaGraph, ReachedOf;
    StartVisiting(node, schemas);
    forall name
      ensures name in ReachedOf(node, schemas) <==> Reaches(node, schemas, name)
      ensures name in ReachedOf(node, schemas) ==> ReachedOf(node, schemas)[name] == SchemaOf(schemas, name)
    {
      ReachedAre(node, schemas, name);
    }
    forall name | name in ReachedOf(node, schemas)
      ensures name in names && Refs(ReachedOf(node, schemas)[name]) <= ReachedOf(node, schemas).Keys
    {
      ReachedAre(node, schemas, name);
      SchemaSuccessors(schemas, name);
      forall to | to in Refs(SchemaOf(schemas, name)) ensures to in ReachedOf(node, schemas) {
        ReachesStep(node, schemas, name, to);
      }
      ClosedIn(schemas, names);
      ReachableIsLeast(SchemaGraph(schemas), Refs(node), names, name);
    }
  }

  lemma ReachedAre(node: Json, schemas: Schemas, name: string)
    ensures name in ReachedOf(node, schemas) <==> Reaches(node, schemas, name)
    ensures name in ReachedOf(node, schemas) ==> ReachedOf(node, schemas)[name] == SchemaOf(schemas, name)
  {
    hide Refs, Mentioned;
    if Reaches(node, schemas, name) { ReachedIsMentioned(node, schemas, name); }
  }

  lemma ClosedIn(schemas: Schemas, names: set<string>)
    requires forall name :: name in names && name in schemas ==> Refs(schemas[name]) <= names
    ensures Closed(SchemaGraph(schemas), names)
  {
  }

  // ----- digests

  type Annotations = map<string, map<string, seq<string>>>

  // An extract, as far as the digests read it: `rest` is whatever else the cut's own digest covers.
  datatype Extracted = Extracted(operations: map<string, Json>, schemas: Schemas, annotations: Annotations, rest: Json)

  datatype Payload = Payload(operation: Json, schemas: Schemas, annotations: map<string, seq<string>>)

  // The annotation values recorded for one operation.
  function Noted(annotations: Annotations, key: string): map<string, seq<string>> {
    map name | name in annotations.Keys && key in annotations[name] :: annotations[name][key]
  }

  ghost function PayloadOf(d: Extracted, key: string): Payload
    requires key in d.operations
  {
    Payload(d.operations[key], ReachedOf(d.operations[key], d.schemas), Noted(d.annotations, key))
  }

  /**
   An operation's two payloads do not have one digest unless they are one: what is asked of the rendering and of
   SHA-256, of the payloads at hand alone.
   */
  ghost predicate Apart(before: Extracted, after: Extracted, digest: Payload -> string, key: string)
    requires key in before.operations && key in after.operations
  {
    digest(PayloadOf(before, key)) == digest(PayloadOf(after, key)) ==> PayloadOf(before, key) == PayloadOf(after, key)
  }

  ghost predicate CollisionFree(before: Extracted, after: Extracted, digest: Payload -> string) {
    forall key :: key in before.operations && key in after.operations ==> Apart(before, after, digest, key)
  }

  // What an annotation says of one operation, if anything.
  ghost function NoteOf(annotations: Annotations, name: string, key: string): Option<seq<string>> {
    if name in annotations && key in annotations[name] then Some(annotations[name][key]) else None
  }

  lemma NotedAlike(a: Annotations, b: Annotations, key: string)
    ensures Noted(a, key) == Noted(b, key) <==> forall name :: NoteOf(a, name, key) == NoteOf(b, name, key)
  {
    if Noted(a, key) == Noted(b, key) {
      forall name ensures NoteOf(a, name, key) == NoteOf(b, name, key) {
        assert name in Noted(a, key) <==> name in a && key in a[name];
        assert name in Noted(b, key) <==> name in b && key in b[name];
        assert name in Noted(a, key) ==> Noted(a, key)[name] == Noted(b, key)[name];
      }
    }
    if forall name :: NoteOf(a, name, key) == NoteOf(b, name, key) {
      forall name
        ensures name in Noted(a, key) <==> name in Noted(b, key)
        ensures name in Noted(a, key) ==> Noted(a, key)[name] == Noted(b, key)[name]
      {
        assert NoteOf(a, name, key) == NoteOf(b, name, key);
      }
    }
  }

  // An operation, its annotations and every schema it reaches are the same in two cuts.
  ghost predicate SameOperation(before: Extracted, after: Extracted, key: string) {
    && key in before.operations && key in after.operations
    && before.operations[key] == after.operations[key]
    && (forall name :: NoteOf(before.annotations, name, key) == NoteOf(after.annotations, name, key))
    && forall name :: Reaches(before.operations[key], before.schemas, name)
         ==> SchemaOf(before.schemas, name) == SchemaOf(after.schemas, name)
  }

  /** The digest of every kept operation. */
  method CutDigests(d: Extracted, digest: Payload -> string) returns (digests: map<string, string>)
    ensures digests.Keys == d.operations.Keys
    ensures forall key :: key in digests ==> digests[key] == digest(PayloadOf(d, key))
  {
    hide ReachedOf;
    digests := map[];
    var left := d.operations.Keys;
    while left != {}
      invariant left <= d.operations.Keys && digests.Keys == d.operations.Keys - left
      invariant forall key :: key in digests ==> digests[key] == digest(PayloadOf(d, key))
    {
      var key :| key in left;
      var reached := Reached(d.operations[key], d.schemas);
      digests := digests[key := digest(Payload(d.operations[key], reached, Noted(d.annotations, key)))];
      left := left - {key};
    }
  }

  // An operation's digest moves exactly when the operation, its annotations or some schema it reaches does.
  lemma DigestLocalAndComplete(before: Extracted, after: Extracted, key: string, digest: Payload -> string)
    requires key in before.operations && key in after.operations && Apart(before, after, digest, key)
    ensures digest(PayloadOf(before, key)) == digest(PayloadOf(after, key)) <==> SameOperation(before, after, key)
  {
    hide Refs, ReachedOf, Reaches, Noted;
    NotedAlike(before.annotations, after.annotations, key);
    if SameOperation(before, after, key) {
      SameReached(before.operations[key], before.schemas, after.schemas);
    } else if digest(PayloadOf(before, key)) == digest(PayloadOf(after, key)) {
      assert PayloadOf(before, key) == PayloadOf(after, key);
      ReachedSame(before.operations[key], before.schemas, after.schemas);
    }
  }

  /** Nothing less would do: a digest is exact for an operation exactly when its two payloads do not collide. */
  lemma DigestExactlyWhenApart(before: Extracted, after: Extracted, key: string, digest: Payload -> string)
    requires key in before.operations && key in after.operations
    ensures Apart(before, after, digest, key)
       <==> (digest(PayloadOf(before, key)) == digest(PayloadOf(after, key)) <==> SameOperation(before, after, key))
  {
    hide Refs, ReachedOf, Reaches, Noted;
    NotedAlike(before.annotations, after.annotations, key);
    if Apart(before, after, digest, key) {
      DigestLocalAndComplete(before, after, key, digest);
    } else if SameOperation(before, after, key) {
      SameReached(before.operations[key], before.schemas, after.schemas);
      assert false;
    }
  }

  lemma SameReached(node: Json, s: Schemas, t: Schemas)
    requires forall name :: Reaches(node, s, name) ==> SchemaOf(s, name) == SchemaOf(t, name)
    ensures ReachedOf(node, s) == ReachedOf(node, t)
  {
    hide Refs, Mentioned;
    var g, h := SchemaGraph(s), SchemaGraph(t);
    forall name | Reachable(g, Refs(node), name) ensures Successors(g, name) == Successors(h, name) {
      assert Reaches(node, s, name);
      SchemaSuccessors(s, name);
      SchemaSuccessors(t, name);
    }
    forall name ensures name in ReachedOf(node, s) <==> name in ReachedOf(node, t) {
      AgreeingGraphsReachAlike(g, h, Refs(node), name);
      if Reaches(node, s, name) { ReachedIsMentioned(node, s, name); }
      if Reaches(node, t, name) { ReachedIsMentioned(node, t, name); }
    }
    assert forall name :: name in ReachedOf(node, s) ==> ReachedOf(node, s)[name] == ReachedOf(node, t)[name];
  }

  lemma ReachedSame(node: Json, s: Schemas, t: Schemas)
    requires ReachedOf(node, s) == ReachedOf(node, t)
    ensures forall name :: Reaches(node, s, name) ==> SchemaOf(s, name) == SchemaOf(t, name)
  {
    hide Refs, Mentioned, Reaches;
    forall name | Reaches(node, s, name) ensures SchemaOf(s, name) == SchemaOf(t, name) {
      ReachedIsMentioned(node, s, name);
      assert ReachedOf(node, s)[name] == ReachedOf(node, t)[name];
    }
  }

  // ----- the report

  datatype OperationDiff = OperationDiff(added: set<string>, removed: set<string>, changed: set<string>)

  /** `_operation_diff`, its lines grouped by their sign. */
  function DiffOf(before: map<string, string>, after: map<string, string>): OperationDiff {
    OperationDiff(after.Keys - before.Keys, before.Keys - after.Keys,
                  set key | key in before.Keys && key in after.Keys && before[key] != after[key])
  }

  // The line "cut changed outside every modeled operation".
  predicate OutsideEveryOperation(diff: OperationDiff) {
    diff.added == {} && diff.removed == {} && diff.changed == {}
  }

  ghost predicate DigestsOf(digests: map<string, string>, d: Extracted, digest: Payload -> string) {
    digests.Keys == d.operations.Keys && forall key :: key in digests ==> digests[key] == digest(PayloadOf(d, key))
  }

  // The report names exactly the affected operations.
  lemma DiffIsExact(before: Extracted, after: Extracted, old_: map<string, string>, new_: map<string, string>,
                    digest: Payload -> string, key: string)
    requires key in before.operations && key in after.operations ==> Apart(before, after, digest, key)
    requires DigestsOf(old_, before, digest) && DigestsOf(new_, after, digest)
    ensures key in DiffOf(old_, new_).changed
       <==> key in before.operations && key in after.operations && !SameOperation(before, after, key)
    ensures key in DiffOf(old_, new_).added <==> key !in before.operations && key in after.operations
    ensures key in DiffOf(old_, new_).removed <==> key in before.operations && key !in after.operations
  {
    hide ReachedOf, Reaches, Noted;
    if key in before.operations && key in after.operations {
      DigestLocalAndComplete(before, after, key, digest);
    }
  }

  // A schema that no operation of the extract reaches.
  ghost predicate Unreached(d: Extracted, name: string) {
    forall key :: key in d.operations ==> !Reaches(d.operations[key], d.schemas, name)
  }

  // No reference of an operation dangles.
  ghost predicate Grounded(d: Extracted) {
    forall key, name :: key in d.operations && Reaches(d.operations[key], d.schemas, name) ==> name in d.schemas
  }

  /** As in every extract the cutter makes, whose document holds all that it refers to. */
  lemma CutIsGrounded(d: Extracted, document: Cutting.Document)
    requires Cutting.SelfContained(document) && d.schemas == document.schemas
    requires forall key :: key in d.operations ==> KeptBy(document, d.operations[key])
    ensures Grounded(d)
  {
    hide Refs;
    var schemas := d.schemas;
    forall name | name in schemas ensures Successors(SchemaGraph(schemas), name) <= schemas.Keys {
      assert Refs(document.schemas[name]) <= document.schemas.Keys;
    }
    forall key, name | key in d.operations && Reaches(d.operations[key], schemas, name) ensures name in schemas {
      assert KeptBy(document, d.operations[key]);
      ReachableIsLeast(SchemaGraph(schemas), Refs(d.operations[key]), schemas.Keys, name);
    }
  }

  // The document keeps it as an operation of a path, or of a webhooks entry.
  ghost predicate KeptBy(document: Cutting.Document, operation: Json) {
    || (exists out, verb :: Cutting.Stands(document.paths, out, verb) && document.paths[out][verb] == operation)
    || (exists name :: name in document.hooks && document.hooks[name] == operation)
  }

  lemma ChangedSchema(before: Extracted, after: Extracted) returns (name: string)
    requires before.schemas != after.schemas
    ensures SchemaChanged(before, after, name)
  {
    if before.schemas.Keys <= after.schemas.Keys {
      if after.schemas.Keys <= before.schemas.Keys {
        name :| name in before.schemas && before.schemas[name] != after.schemas[name];
      } else {
        name :| name in after.schemas && name !in before.schemas;
      }
    } else {
      name :| name in before.schemas && name !in after.schemas;
    }
  }

  lemma SilentSchema(before: Extracted, after: Extracted, name: string)
    requires Grounded(before) && Grounded(after) && before.operations == after.operations
    requires forall key :: key in before.operations ==>
        SameOperation(before, after, key) && SameOperation(after, before, key)
    requires SchemaChanged(before, after, name)
    ensures Unreached(before, name) && Unreached(after, name)
  {
    hide Reaches, Refs, Noted;
    forall key | key in before.operations
      ensures !Reaches(before.operations[key], before.schemas, name)
          && !Reaches(after.operations[key], after.schemas, name)
    {
      SameReached(before.operations[key], before.schemas, after.schemas);
      ReachAlike(before.operations[key], before.schemas, after.schemas, name);
      assert SameOperation(before, after, key);
    }
  }

  lemma ReachAlike(node: Json, s: Schemas, t: Schemas, name: string)
    requires ReachedOf(node, s) == ReachedOf(node, t)
    ensures Reaches(node, s, name) <==> Reaches(node, t, name)
  {
    hide Refs, Reaches, Mentioned;
    if Reaches(node, s, name) { ReachedIsMentioned(node, s, name); assert name in ReachedOf(node, s); }
    if Reaches(node, t, name) { ReachedIsMentioned(node, t, name); assert name in ReachedOf(node, t); }
  }

  // When the cut moved but the report names nothing, what moved is nothing an operation says or reaches.
  lemma OutsideMeansElsewhere(before: Extracted, after: Extracted, old_: map<string, string>, new_: map<string, string>,
                              digest: Payload -> string)
    requires CollisionFree(before, after, digest) && DigestsOf(old_, before, digest) && DigestsOf(new_, after, digest)
    requires OutsideEveryOperation(DiffOf(old_, new_)) && before != after && Grounded(before) && Grounded(after)
    ensures before.operations == after.operations
    ensures forall key :: key in before.operations ==> SameOperation(before, after, key)
    ensures || before.rest != after.rest || before.annotations != after.annotations
            || exists name :: SchemaChanged(before, after, name) && Unreached(before, name) && Unreached(after, name)
  {
    hide ReachedOf, Reaches, Noted, Refs;
    forall key ensures key in before.operations <==> key in after.operations {
      DiffIsExact(before, after, old_, new_, digest, key);
    }
    forall key | key in before.operations
      ensures SameOperation(before, after, key) && SameOperation(after, before, key)
    {
      DiffIsExact(before, after, old_, new_, digest, key);
      DigestLocalAndComplete(before, after, key, digest);
      DigestLocalAndComplete(after, before, key, digest);
    }
    assert before.operations == after.operations;
    if before.rest == after.rest && before.annotations == after.annotations {
      assert before.schemas != after.schemas;
      var name := ChangedSchema(before, after);
      SilentSchema(before, after, name);
    }
  }

  // Absent in one cut, or defined differently.
  ghost predicate SchemaChanged(before: Extracted, after: Extracted, name: string) {
    || (name in before.schemas) != (name in after.schemas)
    || (name in before.schemas && before.schemas[name] != after.schemas[name])
  }
}
