/** The working state of one cut and the closure of a source's roots (`_Cut`, `_closure`). */
module Closures {
  import opened JsonTree
  import opened References
  import opened Reachability
  import opened Cleaning

  type Schemas = map<string, Json>

  // What a source's definitions refer to once cleaned.
  function CleanGraph(available: Schemas, ext: Extensions): Graph {
    map name | name in available.Keys :: Refs(Cleaned(available[name], ext))
  }

  // A name the source neither defines nor finds merged is collected as a hole.
  function Collected(name: string, available: Schemas, ext: Extensions): Json {
    if name in available then Cleaned(available[name], ext) else Obj(map[])
  }

  // Exactly the names the roots reach, cleaned, but for those that the source lacks and that are merged already.
  ghost predicate IsClosure(closure: Schemas, available: Schemas, roots: set<string>, merged: set<string>,
                            ext: Extensions) {
    && (forall name :: name in closure
          <==> Reachable(CleanGraph(available, ext), roots, name) && (name in available || name !in merged))
    && (forall name :: name in closure ==> closure[name] == Collected(name, available, ext))
  }

  ghost function Mentioned(g: Graph, roots: set<string>): set<string> {
    roots + set from, to | from in g.Keys && to in g[from] :: to
  }

  /** Some listing of a set. The source sorts here; nothing below depends on the order. */
  method ListOf(names: set<string>) returns (list: seq<string>)
    ensures Lists(list, names)
  {
    list := [];
    var rest := names;
    while rest != {}
      invariant rest <= names && Lists(list, names - rest)
    {
      var name :| name in rest;
      rest := rest - {name};
      list := list + [name];
    }
  }

  // Some of an object's named schemas, cleaned, and what that strips.
  function CleanedNames(schemas: Schemas, names: set<string>, ext: Extensions): Schemas {
    map name | name in schemas && name in names :: Cleaned(schemas[name], ext)
  }

  function StrippedNames(schemas: Schemas, names: set<string>, ext: Extensions): set<string> {
    set name, s | name in schemas.Keys && name in names && s in Stripped(schemas[name], ext) :: s
  }

  lemma NamesMore(schemas: Schemas, names: set<string>, name: string, ext: Extensions)
    requires name in schemas
    ensures CleanedNames(schemas, names + {name}, ext)
        == CleanedNames(schemas, names, ext)[name := Cleaned(schemas[name], ext)]
    ensures StrippedNames(schemas, names + {name}, ext)
        == StrippedNames(schemas, names, ext) + Stripped(schemas[name], ext)
  {
    hide Cleaned, Stripped;
  }

  lemma NamedCleaned(key: string, schemas: Schemas, ext: Extensions)
    requires HoldingOf(key) == Named && Kept(key, ext)
    ensures CleanedAt(key, Obj(schemas), ext) == Obj(CleanedNames(schemas, schemas.Keys, ext))
    ensures StrippedAt(key, Obj(schemas), ext) == StrippedNames(schemas, schemas.Keys, ext)
  {
    hide Cleaned, Stripped, Kept, HoldingOf;
    assert CleanedAt(key, Obj(schemas), ext).fields == CleanedNames(schemas, schemas.Keys, ext);
  }

  lemma CleanedArr(items: seq<Json>, ext: Extensions)
    ensures Cleaned(Arr(items), ext) == Arr(CleanedItems(items, ext))
  {
    hide CleanedItems;
  }

  lemma CleanedObj(fields: map<string, Json>, ext: Extensions)
    ensures Cleaned(Obj(fields), ext) == FoldNullableRef(CleanedFields(fields, ext))
  {
    hide CleanedFields, FoldNullableRef;
  }

  lemma CleanedLeaf(node: Json, ext: Extensions)
    requires !node.Obj? && !node.Arr?
    ensures Cleaned(node, ext) == node && Stripped(node, ext) == {}
  {
  }

  lemma NothingCleaned(fields: map<string, Json>, ext: Extensions)
    ensures CleanedUpTo(fields, [], ext) == map[] && StrippedUpTo(fields, [], ext) == {}
  {
  }

  lemma NoItemsCleaned(ext: Extensions)
    ensures CleanedItems([], ext) == [] && Stripped(Arr([]), ext) == {}
  {
  }

  // What the next member adds, by the kind of its key.
  lemma CleanedMore(fields: map<string, Json>, order: seq<string>, i: nat, ext: Extensions)
    requires i < |order| && forall key :: key in order ==> key in fields
    ensures var key := order[i]; var kept := CleanedUpTo(fields, order[..i], ext);
            && CleanedUpTo(fields, order[..i + 1], ext) ==
                 (if key in ext.target then
                    if ext.target[key] !in fields then kept[ext.target[key] := fields[key]] else kept
                  else if key in STRIPPED_KEYS || VendorKey(key) then kept
                  else kept[key := CleanedAt(key, fields[key], ext)])
            && StrippedUpTo(fields, order[..i + 1], ext) ==
                 StrippedUpTo(fields, order[..i], ext)
                 + (if key in ext.target then {}
                    else if key in STRIPPED_KEYS || VendorKey(key) then {key}
                    else StrippedAt(key, fields[key], ext))
  {
    hide CleanedAt;
    assert order[..i + 1][..i] == order[..i];
  }

  class Cut {
    const ext: Extensions
    var stripped: set<string>
    var stubbed: set<string>

    ghost predicate Valid() {
      Ordered(ext)
    }

    constructor (ext: Extensions)
      requires Ordered(ext)
      ensures Valid() && this.ext == ext && stripped == {} && stubbed == {}
    {
      this.ext := ext;
      stripped, stubbed := {}, {};
    }

    method Drop(key: string)
      modifies this`stripped
      ensures stripped == old(stripped) + {key}
    {
      stripped := stripped + {key};
    }

    /** `clean_schema`: member by member, in the order the object lists them. */
    method CleanSchema(node: Json) returns (out: Json)
      requires Valid()
      modifies this`stripped
      ensures out == Cleaned(node, ext)
      ensures stripped == old(stripped) + Stripped(node, ext)
      decreases node, 1
    {
      hide Cleaned, Stripped, CleanedAt, StrippedAt, CleanedFields, CleanedItems, CleanedUpTo, StrippedUpTo;
      match node
      case Arr(items) =>
        out := CleanItems(items);
        CleanedArr(items, ext);
      case Obj(fields) =>
        var order := ext.order(fields);
        assert Lists(order, fields.Keys);
        var kept: map<string, Json> := map[];
        NothingCleaned(fields, ext);
        for i := 0 to |order|
          invariant kept == CleanedUpTo(fields, order[..i], ext)
          invariant stripped == old(stripped) + StrippedUpTo(fields, order[..i], ext)
        {
          var key := order[i];
          var value := fields[key];
          CleanedMore(fields, order, i, ext);
          if key in ext.target {
            if ext.target[key] !in fields { kept := kept[ext.target[key] := value]; }
          } else if key in STRIPPED_KEYS || VendorKey(key) {
            Drop(key);
          } else {
            var cleaned := CleanMember(key, value);
            kept := kept[key := cleaned];
          }
        }
        assert order[..|order|] == order;
        CleanedUpToAll(fields, ext);
        StrippedUpToAll(fields, order, ext);
        out := FoldNullableRef(kept);
        CleanedObj(fields, ext);
      case _ =>
        out := node;
        CleanedLeaf(node, ext);
    }

    method CleanItems(items: seq<Json>) returns (out: Json)
      requires Valid()
      modifies this`stripped
      ensures out == Arr(CleanedItems(items, ext))
      ensures stripped == old(stripped) + Stripped(Arr(items), ext)
      decreases Arr(items), 0
    {
      hide Cleaned, Stripped, CleanedItems;
      var cleaned: seq<Json> := [];
      NoItemsCleaned(ext);
      for i := 0 to |items|
        invariant cleaned == CleanedItems(items[..i], ext)
        invariant stripped == old(stripped) + Stripped(Arr(items[..i]), ext)
      {
        StrippedMoreItems(items, i, ext);
        assert items[i] < Arr(items);
        var item := CleanSchema(items[i]);
        cleaned := cleaned + [item];
      }
      assert items[..|items|] == items;
      out := Arr(cleaned);
    }

    // The value of a kept member, by what its keyword holds.
    method CleanMember(key: string, value: Json) returns (out: Json)
      requires Valid() && Kept(key, ext)
      modifies this`stripped
      ensures out == CleanedAt(key, value, ext)
      ensures stripped == old(stripped) + StrippedAt(key, value, ext)
      decreases value, 2
    {
      hide Cleaned, Stripped, Kept, CleanedItems;
      match HoldingOf(key)
      case Named =>
        if value.Obj? {
          out := CleanNamed(value.fields);
          NamedCleaned(key, value.fields, ext);
        } else {
          out := value;
        }
      case Single => out := CleanSchema(value);
      case List =>
        if value.Arr? {
          out := CleanItems(value.items);
          CleanedArr(value.items, ext);
        } else {
          out := value;
        }
      case Plain => out := value;
    }

    method CleanNamed(schemas: map<string, Json>) returns (out: Json)
      requires Valid()
      modifies this`stripped
      ensures out == Obj(CleanedNames(schemas, schemas.Keys, ext))
      ensures stripped == old(stripped) + StrippedNames(schemas, schemas.Keys, ext)
      decreases Obj(schemas), 0
    {
      hide Cleaned, Stripped;
      var cleaned: map<string, Json> := map[];
      var left := schemas.Keys;
      while left != {}
        invariant left <= schemas.Keys
        invariant cleaned == CleanedNames(schemas, schemas.Keys - left, ext)
        invariant stripped == old(stripped) + StrippedNames(schemas, schemas.Keys - left, ext)
      {
        var name :| name in left;
        assert schemas.Keys - (left - {name}) == schemas.Keys - left + {name};
        NamesMore(schemas, schemas.Keys - left, name, ext);
        assert schemas[name] < Obj(schemas);
        var schema := CleanSchema(schemas[name]);
        cleaned := cleaned[name := schema];
        left := left - {name};
      }
      assert schemas.Keys - {} == schemas.Keys;
      out := Obj(cleaned);
    }

    /** The cleaned definition of a name and what it refers to, or the hole that stands for a name nobody defines. */
    method Take(available: Schemas, name: string) returns (schema: Json, found: set<string>)
      requires Valid()
      modifies this
      ensures schema == Collected(name, available, ext)
      ensures found == Successors(CleanGraph(available, ext), name)
      ensures stubbed == if name in available then old(stubbed) else old(stubbed) + {name}
      ensures stripped == if name in available then old(stripped) + Stripped(available[name], ext) else old(stripped)
    {
      hide Cleaned, Stripped, Refs;
      if name in available {
        schema := CleanSchema(available[name]);
        found := Refs(schema);
      } else {
        schema, found := Obj(map[]), {};
        stubbed := stubbed + {name};
      }
    }

    /** The closure, its names in the order they were collected, and the holes added to the ledger. */
    method Closure(available: Schemas, roots: set<string>, merged: set<string>)
      returns (order: seq<string>, collected: Schemas)
      requires Valid()
      modifies this
      ensures IsClosure(collected, available, roots, merged, ext)
      ensures Lists(order, collected.Keys)
      ensures stubbed == StubbedAfter(old(stubbed), available, collected.Keys)
      ensures stripped == StrippedAfter(old(stripped), available, collected.Keys, ext)
    {
      hide Cleaned, Refs, Stripped, IsClosure, Underway, Mentioned, CleanGraph, Lists, StrippedAfter, StubbedAfter,
          Collected, Successors;
      order, collected := [], map[];
      LedgersStart(stubbed, stripped, available, ext);
      var pending := ListOf(roots);
      StartUnderway(pending, available, roots, merged, ext);
      while pending != []
        invariant Underway(pending, collected, available, roots, merged, ext)
        invariant Lists(order, collected.Keys)
        invariant stubbed == StubbedAfter(old(stubbed), available, collected.Keys)
        invariant stripped == StrippedAfter(old(stripped), available, collected.Keys, ext)
        decreases |Mentioned(CleanGraph(available, ext), roots) - collected.Keys|, |pending|
      {
        var name := pending[|pending| - 1];
        var rest := pending[..|pending| - 1];
        if name in collected || (name !in available && name in merged) {
          DropHandled(pending, collected, available, roots, merged, ext);
          pending := rest;
        } else {
          TakeUpShrinks(pending, collected, available, roots, merged, ext);
          LedgersMore(old(stubbed), old(stripped), available, collected.Keys, name, ext);
          ListsMore(order, collected.Keys, name);
          var schema, refs := Take(available, name);
          var found := ListOf(refs - (collected.Keys + {name}));
          TakeUp(pending, found, collected, available, roots, merged, ext);
          order := order + [name];
          assert collected[name := schema].Keys == collected.Keys + {name};
          collected := collected[name := schema];
          pending := rest + found;
        }
      }
      Finished(collected, available, roots, merged, ext);
    }
  }

  // The `stripped` ledger once the named definitions have been cleaned.
  ghost function StrippedAfter(stripped: set<string>, available: Schemas, names: set<string>,
                               ext: Extensions): set<string> {
    stripped + set name, s | name in names && name in available && s in Stripped(available[name], ext) :: s
  }

  // The `stubbed` ledger once the names have been collected.
  ghost function StubbedAfter(stubbed: set<string>, available: Schemas, names: set<string>): set<string> {
    stubbed + (names - available.Keys)
  }

  lemma LedgersStart(stubbed: set<string>, stripped: set<string>, available: Schemas, ext: Extensions)
    ensures StubbedAfter(stubbed, available, {}) == stubbed && StrippedAfter(stripped, available, {}, ext) == stripped
    ensures Lists([], {})
  {
    hide Stripped;
  }

  lemma LedgersMore(stubbed: set<string>, stripped: set<string>, available: Schemas, names: set<string>, name: string,
                    ext: Extensions)
    ensures StubbedAfter(stubbed, available, names + {name})
         == if name in available then StubbedAfter(stubbed, available, names)
            else StubbedAfter(stubbed, available, names) + {name}
    ensures StrippedAfter(stripped, available, names + {name}, ext)
         == if name in available then StrippedAfter(stripped, available, names, ext) + Stripped(available[name], ext)
            else StrippedAfter(stripped, available, names, ext)
  {
    hide Stripped;
  }

  // A name the worklist still holds, has collected, or leaves to what is merged.
  predicate Handled(name: string, pending: seq<string>, collected: Schemas, available: Schemas, merged: set<string>) {
    name in pending || name in collected || (name !in available && name in merged)
  }

  // The invariant of the worklist.
  ghost predicate Underway(pending: seq<string>, collected: Schemas, available: Schemas, roots: set<string>,
                           merged: set<string>, ext: Extensions) {
    var g := CleanGraph(available, ext);
    && (forall name :: name in pending || name in collected ==>
          Reachable(g, roots, name) && name in Mentioned(g, roots))
    && (forall name :: name in collected ==> name in available || name !in merged)
    && (forall name :: name in collected ==> collected[name] == Collected(name, available, ext))
    && (forall name :: name in roots ==> Handled(name, pending, collected, available, merged))
    && (forall from, to :: from in collected && to in Successors(g, from)
          ==> Handled(to, pending, collected, available, merged))
  }

  lemma StartUnderway(pending: seq<string>, available: Schemas, roots: set<string>, merged: set<string>,
                      ext: Extensions)
    requires Lists(pending, roots)
    ensures Underway(pending, map[], available, roots, merged, ext)
  {
    hide Cleaned, Refs;
    forall name | name in roots ensures Reachable(CleanGraph(available, ext), roots, name) {
      RootReachable(CleanGraph(available, ext), roots, name);
    }
  }

  lemma DropHandled(pending: seq<string>, collected: Schemas, available: Schemas, roots: set<string>,
                    merged: set<string>, ext: Extensions)
    requires pending != [] && Underway(pending, collected, available, roots, merged, ext)
    requires Handled(pending[|pending| - 1], [], collected, available, merged)
    ensures Underway(pending[..|pending| - 1], collected, available, roots, merged, ext)
  {
    hide Cleaned, Refs, Reachable, CleanGraph, Mentioned;
    var name, rest := pending[|pending| - 1], pending[..|pending| - 1];
    SplitLast(pending);
    forall n | Handled(n, pending, collected, available, merged)
      ensures Handled(n, rest, collected, available, merged)
    {
    }
  }

  lemma SplitLast(list: seq<string>)
    requires list != []
    ensures forall n :: n in list <==> n in list[..|list| - 1] || n == list[|list| - 1]
  {
    assert list == list[..|list| - 1] + [list[|list| - 1]];
  }

  lemma ListsMore(order: seq<string>, names: set<string>, name: string)
    requires Lists(order, names) && name !in names
    ensures Lists(order + [name], names + {name})
  {
    forall i | 0 <= i < |order| ensures order[i] != name { assert order[i] in order; }
  }

  lemma TakeUp(pending: seq<string>, found: seq<string>, collected: Schemas, available: Schemas, roots: set<string>,
               merged: set<string>, ext: Extensions)
    requires pending != [] && Underway(pending, collected, available, roots, merged, ext)
    requires var name := pending[|pending| - 1];
             && name !in collected && (name in available || name !in merged)
             && Lists(found, Successors(CleanGraph(available, ext), name) - (collected.Keys + {name}))
    ensures var name := pending[|pending| - 1];
            Underway(pending[..|pending| - 1] + found, collected[name := Collected(name, available, ext)],
                     available, roots, merged, ext)
  {
    hide Cleaned, Refs, CleanGraph, Reachable;
    var g := CleanGraph(available, ext);
    var name := pending[|pending| - 1];
    var next := pending[..|pending| - 1] + found;
    forall n | n in found ensures Reachable(g, roots, n) && n in Mentioned(g, roots) {
      assert name in pending;
      ReachableStep(g, roots, name, n);
    }
    SplitLast(pending);
    var more := collected[name := Collected(name, available, ext)];
    forall n | Handled(n, pending, collected, available, merged) ensures Handled(n, next, more, available, merged) {
    }
    forall n | n in Successors(g, name) ensures Handled(n, next, more, available, merged) {
      assert n in collected || n == name || n in found;
    }
  }

  lemma TakeUpShrinks(pending: seq<string>, collected: Schemas, available: Schemas, roots: set<string>,
                      merged: set<string>, ext: Extensions)
    requires pending != [] && Underway(pending, collected, available, roots, merged, ext)
    requires pending[|pending| - 1] !in collected
    ensures var all := Mentioned(CleanGraph(available, ext), roots);
            |all - (collected.Keys + {pending[|pending| - 1]})| < |all - collected.Keys|
  {
    hide Cleaned, Refs, CleanGraph, Reachable, Mentioned;
    var name := pending[|pending| - 1];
    assert name in pending;
    Shrinks(Mentioned(CleanGraph(available, ext), roots), collected.Keys, name);
  }

  lemma Shrinks(all: set<string>, done: set<string>, name: string)
    requires name in all && name !in done
    ensures |all - (done + {name})| < |all - done|
  {
    assert all - (done + {name}) == all - done - {name};
  }

  // An empty worklist leaves nothing out.
  lemma Finished(collected: Schemas, available: Schemas, roots: set<string>, merged: set<string>, ext: Extensions)
    requires Underway([], collected, available, roots, merged, ext)
    ensures IsClosure(collected, available, roots, merged, ext)
  {
    hide Cleaned, Refs, Reachable, Mentioned;
    var g := CleanGraph(available, ext);
    var inside := collected.Keys + (merged - available.Keys);
    forall name | name in inside ensures Successors(g, name) <= inside {
      forall to | to in Successors(g, name) ensures to in inside {
        assert name in available;
        if name in collected { assert Handled(to, [], collected, available, merged); }
      }
    }
    forall name | name in roots ensures name in inside { assert Handled(name, [], collected, available, merged); }
    forall name | Reachable(g, roots, name) && (name in available || name !in merged) ensures name in collected {
      ReachableIsLeast(g, roots, inside, name);
    }
  }

  // The closure is the least set of names that holds the roots and whatever a definition in it refers to,
  // names left to what is merged aside.
  lemma ClosureIsLeast(closure: Schemas, available: Schemas, roots: set<string>, merged: set<string>, ext: Extensions,
                       names: set<string>)
    requires IsClosure(closure, available, roots, merged, ext)
    requires var left := merged - available.Keys;
             roots <= names + left
             && forall name :: name in names && name in available ==>
                Refs(Cleaned(available[name], ext)) <= names + left
    ensures closure.Keys <= names
  {
    var g := CleanGraph(available, ext);
    var inside := names + (merged - available.Keys);
    assert Closed(g, inside);
    forall name | name in closure ensures name in names {
      ReachableIsLeast(g, roots, inside, name);
    }
  }

  // And it does hold them: no reference of a collected definition dangles.
  lemma ClosureIsClosed(closure: Schemas, available: Schemas, roots: set<string>, merged: set<string>, ext: Extensions,
                        name: string)
    requires IsClosure(closure, available, roots, merged, ext)
    requires name in roots || exists from :: from in closure && name in Refs(closure[from])
    ensures name in closure || (name in merged && name !in available)
  {
    var g := CleanGraph(available, ext);
    if name in roots {
      RootReachable(g, roots, name);
    } else {
      var from :| from in closure && name in Refs(closure[from]);
      assert from in available;
      ReachableStep(g, roots, from, name);
    }
  }

  // The holes of a closure are exactly the reachable names that this source lacks and that are not merged.
  lemma StubsAreUndefined(closure: Schemas, available: Schemas, roots: set<string>, merged: set<string>,
                          ext: Extensions,
                          name: string)
    requires IsClosure(closure, available, roots, merged, ext)
    ensures name in closure.Keys - available.Keys
       <==> Reachable(CleanGraph(available, ext), roots, name) && name !in available && name !in merged
    ensures name in closure.Keys - available.Keys ==> closure[name] == Obj(map[])
  {
  }
}
