/** Namespacing the definitions that differ from an earlier source's (`_renamed`, `_conflicts`, the loop). */
module Namespacing {
  import opened JsonTree
  import opened References
  import opened Reachability
  import opened Closures

  /**
   `_renamed`: every definition under its new name with its references rewritten, built in the order the
   closure lists them. Of two definitions with one new name the later one stays.
   */
  function Renamed(order: seq<string>, closure: Schemas, rename: map<string, string>): Schemas
    requires forall name :: name in order ==> name in closure
  {
    if order == [] then map[]
    else
      var front, last := order[..|order| - 1], order[|order| - 1];
      Renamed(front, closure, rename)[NewName(last, rename) := Rewrite(closure[last], rename)]
  }

  // `_conflicts`: the names not yet namespaced that an earlier source defined differently.
  function Conflicts(closure: Schemas, rename: map<string, string>, renamed: Schemas, merged: Schemas): set<string>
    requires forall name :: name in closure && name !in rename ==> name in renamed
  {
    set name | name in closure && name !in rename && name in merged && !PyEqual(merged[name], renamed[name])
  }

  // `for name in conflicts: rename[name] = f"{item.label}.{name}"`.
  function Extended(rename: map<string, string>, conflicts: set<string>, prefix: string): map<string, string> {
    rename + map name | name in conflicts :: prefix + "." + name
  }

  // No definition is spelled as a name that the rename hands out.
  ghost predicate Uncrowded(closure: Schemas, rename: map<string, string>) {
    forall name :: name in rename ==> rename[name] !in closure
  }

  // References among the definitions this source shares with the earlier ones.
  ghost function SharedGraph(closure: Schemas, merged: Schemas): Graph {
    map name | name in closure && name in merged :: Refs(closure[name]) * closure.Keys * merged.Keys
  }

  ghost function Differing(closure: Schemas, merged: Schemas): set<string> {
    set name | name in closure && name in merged && !PyEqual(merged[name], closure[name])
  }

  // A shared definition from which a directly differing one is reachable through shared definitions.
  ghost predicate Tainted(closure: Schemas, merged: Schemas, name: string) {
    && name in closure && name in merged
    && exists d :: d in Differing(closure, merged) && Reachable(SharedGraph(closure, merged), {name}, d)
  }

  // No definition is already spelled as the namespaced name of one that has to be renamed.
  ghost predicate Unspelled(closure: Schemas, merged: Schemas, prefix: string) {
    forall name :: Tainted(closure, merged, name) ==> prefix + "." + name !in closure
  }

  // Every rename is to `<label>.<name>` and is of a shared name.
  ghost predicate Namespaces(rename: map<string, string>, closure: Schemas, merged: Schemas, prefix: string) {
    forall name :: name in rename ==> name in closure && name in merged && rename[name] == prefix + "." + name
  }

  // `renamed` is the closure under the rename, with every unrenamed name in place.
  ghost predicate Holds(order: seq<string>, closure: Schemas, rename: map<string, string>, renamed: Schemas) {
    && (forall name :: name in order ==> name in closure)
    && renamed == Renamed(order, closure, rename)
    && (forall name :: name in closure && name !in rename ==> name in renamed)
  }

  /** The fixed point: rename what conflicts until nothing does. */
  method Namespace(prefix: string, order: seq<string>, closure: Schemas, merged: Schemas)
    returns (rename: map<string, string>, renamed: Schemas)
    requires Lists(order, closure.Keys)
    ensures Namespaces(rename, closure, merged, prefix)
    ensures Holds(order, closure, rename, renamed)
    ensures Conflicts(closure, rename, renamed, merged) == {}
    ensures Differing(closure, merged) <= rename.Keys
    ensures Unspelled(closure, merged, prefix) ==> forall name :: name in rename <==> Tainted(closure, merged, name)
  {
    hide Refs, Rewrite, AsCompared, Tainted, Renamed, Conflicts, Extended, Unspelled, Namespaces, InLoop, Lists;
    rename := map[];
    LoopStarts(prefix, order, closure, merged);
    InLoopGives(prefix, order, closure, rename, merged);
    renamed := Renamed(order, closure, rename);
    var conflicts := Conflicts(closure, rename, renamed, merged);
    while conflicts != {}
      invariant InLoop(prefix, order, closure, rename, merged)
      invariant Holds(order, closure, rename, renamed)
      invariant conflicts == Conflicts(closure, rename, renamed, merged)
      decreases |closure.Keys - rename.Keys|
    {
      LoopContinues(prefix, order, closure, rename, renamed, merged);
      rename := Extended(rename, conflicts, prefix);
      InLoopGives(prefix, order, closure, rename, merged);
      renamed := Renamed(order, closure, rename);
      conflicts := Conflicts(closure, rename, renamed, merged);
    }
    InLoopGives(prefix, order, closure, rename, merged);
    LoopEnds(prefix, order, closure, rename, renamed, merged);
  }

  /**
   The loop's invariant. No directly differing name is forgotten and, given unspelled names, what is renamed has
   a cause.
   */
  ghost predicate InLoop(prefix: string, order: seq<string>, closure: Schemas, rename: map<string, string>,
                         merged: Schemas) {
    && Lists(order, closure.Keys)
    && Namespaces(rename, closure, merged, prefix)
    && (var renamed := Renamed(order, closure, rename);
        && Holds(order, closure, rename, renamed)
        && Differing(closure, merged) <= rename.Keys + Conflicts(closure, rename, renamed, merged)
        && (Unspelled(closure, merged, prefix) ==> forall name :: name in rename ==> Tainted(closure, merged, name)))
  }

  lemma InLoopGives(prefix: string, order: seq<string>, closure: Schemas, rename: map<string, string>, merged: Schemas)
    requires InLoop(prefix, order, closure, rename, merged)
    ensures Namespaces(rename, closure, merged, prefix)
    ensures forall name :: name in order ==> name in closure
    ensures Holds(order, closure, rename, Renamed(order, closure, rename))
  {
    hide Refs, Rewrite, AsCompared, Differing, Tainted, Renamed, Conflicts;
  }

  lemma LoopStarts(prefix: string, order: seq<string>, closure: Schemas, merged: Schemas)
    requires Lists(order, closure.Keys)
    ensures InLoop(prefix, order, closure, map[], merged)
  {
    hide Refs, Rewrite, AsCompared, Differing, Tainted;
    KeepsUnrenamed(order, closure, map[]);
    FirstConflicts(prefix, order, closure, merged);
  }

  lemma ConflictsShared(closure: Schemas, rename: map<string, string>, renamed: Schemas, merged: Schemas)
    requires forall name :: name in closure && name !in rename ==> name in renamed
    ensures forall n :: n in Conflicts(closure, rename, renamed, merged) ==> n in closure && n in merged && n !in rename
  {
    hide AsCompared;
  }

  lemma LoopContinues(prefix: string, order: seq<string>, closure: Schemas, rename: map<string, string>,
                      renamed: Schemas, merged: Schemas)
    requires InLoop(prefix, order, closure, rename, merged) && Holds(order, closure, rename, renamed)
    requires Conflicts(closure, rename, renamed, merged) != {}
    ensures var grown := Extended(rename, Conflicts(closure, rename, renamed, merged), prefix);
            InLoop(prefix, order, closure, grown, merged) && |closure.Keys - grown.Keys| < |closure.Keys - rename.Keys|
  {
    hide Refs, Rewrite, AsCompared, Differing, Tainted, Renamed, Conflicts, Unspelled, Namespaces, Lists, Extended;
    var conflicts := Conflicts(closure, rename, renamed, merged);
    ConflictsShared(closure, rename, renamed, merged);
    RenameGrows(rename, conflicts, prefix, closure, merged);
    KeepsUnrenamed(order, closure, Extended(rename, conflicts, prefix));
    if Unspelled(closure, merged, prefix) {
      ConflictsTainted(prefix, order, closure, rename, merged);
    }
  }

  lemma LoopEnds(prefix: string, order: seq<string>, closure: Schemas, rename: map<string, string>,
                 renamed: Schemas, merged: Schemas)
    requires InLoop(prefix, order, closure, rename, merged) && Holds(order, closure, rename, renamed)
    requires Conflicts(closure, rename, renamed, merged) == {}
    ensures Differing(closure, merged) <= rename.Keys
    ensures Unspelled(closure, merged, prefix) ==> forall name :: name in rename <==> Tainted(closure, merged, name)
  {
    hide Refs, Rewrite, AsCompared, Differing, Tainted, Renamed;
    assert rename.Keys + {} == rename.Keys;
    if Unspelled(closure, merged, prefix) {
      CausedIsUncrowded(prefix, closure, rename, merged);
      forall name | Tainted(closure, merged, name) ensures name in rename {
        TaintedRenamed(prefix, order, closure, rename, merged, name);
      }
    }
  }

  lemma RenameGrows(rename: map<string, string>, conflicts: set<string>, prefix: string, closure: Schemas,
                    merged: Schemas)
    requires Namespaces(rename, closure, merged, prefix)
    requires conflicts != {} && forall n :: n in conflicts ==> n in closure && n in merged && n !in rename
    ensures var grown := Extended(rename, conflicts, prefix);
            && Namespaces(grown, closure, merged, prefix)
            && grown.Keys == rename.Keys + conflicts
            && |closure.Keys - grown.Keys| < |closure.Keys - rename.Keys|
  {
    NamespacesGrow(rename, conflicts, prefix, closure, merged);
    FewerLeft(closure.Keys, rename.Keys, conflicts);
    hide Extended, Namespaces;
  }

  lemma NamespacesGrow(rename: map<string, string>, conflicts: set<string>, prefix: string, closure: Schemas,
                       merged: Schemas)
    requires Namespaces(rename, closure, merged, prefix)
    requires forall n :: n in conflicts ==> n in closure && n in merged && n !in rename
    ensures var grown := Extended(rename, conflicts, prefix);
            Namespaces(grown, closure, merged, prefix) && grown.Keys == rename.Keys + conflicts
  {
  }

  lemma FewerLeft(all: set<string>, done: set<string>, more: set<string>)
    requires more != {} && more <= all && more !! done
    ensures |all - (done + more)| < |all - done|
  {
    assert all - (done + more) == (all - done) - more;
    var name :| name in more;
    assert name in all - done;
  }

  // A name that is not renamed is still there.
  lemma {:induction false} KeepsUnrenamed(order: seq<string>, closure: Schemas, rename: map<string, string>)
    requires forall name :: name in order ==> name in closure
    ensures forall name :: name in order && name !in rename ==> name in Renamed(order, closure, rename)
    ensures Lists(order, closure.Keys) ==> forall name :: name in closure && name !in rename ==>
        name in Renamed(order, closure, rename)
  {
    if order != [] { KeepsUnrenamed(order[..|order| - 1], closure, rename); }
  }

  // Without a collision, each definition is found under its new name with its references rewritten.
  lemma {:induction false} RenamedAt(order: seq<string>, closure: Schemas, rename: map<string, string>, name: string)
    requires forall n :: n in order ==> n in closure
    requires name in order
    requires forall other :: other in order && other != name ==> NewName(other, rename) != NewName(name, rename)
    ensures NewName(name, rename) in Renamed(order, closure, rename)
    ensures Renamed(order, closure, rename)[NewName(name, rename)] == Rewrite(closure[name], rename)
  {
    hide Rewrite;
    var front, last := order[..|order| - 1], order[|order| - 1];
    if last != name {
      assert order == front + [last];
      RenamedAt(front, closure, rename, name);
    }
  }

  // Nothing else is in it.
  lemma {:induction false} RenamedKeys(order: seq<string>, closure: Schemas, rename: map<string, string>, key: string)
    requires forall n :: n in order ==> n in closure
    ensures key in Renamed(order, closure, rename) <==> exists name :: name in order && key == NewName(name, rename)
  {
    hide Rewrite;
    if order != [] {
      var front, last := order[..|order| - 1], order[|order| - 1];
      assert order == front + [last];
      RenamedKeys(front, closure, rename, key);
    }
  }

  lemma CausedIsUncrowded(prefix: string, closure: Schemas, rename: map<string, string>, merged: Schemas)
    requires Unspelled(closure, merged, prefix) && Namespaces(rename, closure, merged, prefix)
    requires forall name :: name in rename ==> Tainted(closure, merged, name)
    ensures Uncrowded(closure, rename)
  {
    hide Tainted;
  }

  // Then renaming never brings two definitions together.
  lemma NewNamesDistinct(prefix: string, closure: Schemas, rename: map<string, string>, merged: Schemas, a: string,
                         b: string)
    requires Uncrowded(closure, rename) && Namespaces(rename, closure, merged, prefix)
    requires a in closure && b in closure && a != b
    ensures NewName(a, rename) != NewName(b, rename)
  {
    assert (prefix + "." + a)[|prefix| + 1..] == a && (prefix + "." + b)[|prefix| + 1..] == b;
  }

  lemma RenamedDefinition(prefix: string, order: seq<string>, closure: Schemas, rename: map<string, string>,
                          merged: Schemas, name: string)
    requires Lists(order, closure.Keys) && name in closure
    requires Uncrowded(closure, rename) && Namespaces(rename, closure, merged, prefix)
    ensures NewName(name, rename) in Renamed(order, closure, rename)
    ensures Renamed(order, closure, rename)[NewName(name, rename)] == Rewrite(closure[name], rename)
  {
    hide Rewrite;
    forall other | other in order && other != name ensures NewName(other, rename) != NewName(name, rename) {
      NewNamesDistinct(prefix, closure, rename, merged, other, name);
    }
    RenamedAt(order, closure, rename, name);
  }

  lemma FirstConflicts(prefix: string, order: seq<string>, closure: Schemas, merged: Schemas)
    requires Lists(order, closure.Keys)
    requires forall name :: name in closure ==> name in Renamed(order, closure, map[])
    ensures Differing(closure, merged) <= Conflicts(closure, map[], Renamed(order, closure, map[]), merged)
  {
    hide Refs, Rewrite, AsCompared;
    forall name | name in Differing(closure, merged)
      ensures name in Conflicts(closure, map[], Renamed(order, closure, map[]), merged)
    {
      RenamedDefinition(prefix, order, closure, map[], merged, name);
      RewriteIdle(closure[name], map[]);
    }
  }

  // A conflict is either a difference or the echo of one already renamed.
  lemma ConflictsTainted(prefix: string, order: seq<string>, closure: Schemas, rename: map<string, string>,
                         merged: Schemas)
    requires Lists(order, closure.Keys)
    requires Unspelled(closure, merged, prefix) && Namespaces(rename, closure, merged, prefix)
    requires forall name :: name in closure && name !in rename ==> name in Renamed(order, closure, rename)
    requires forall name :: name in rename ==> Tainted(closure, merged, name)
    ensures forall name :: name in Conflicts(closure, rename, Renamed(order, closure, rename), merged)
              ==> Tainted(closure, merged, name)
  {
    hide Refs, Rewrite, AsCompared, Reachable;
    CausedIsUncrowded(prefix, closure, rename, merged);
    var g := SharedGraph(closure, merged);
    forall name | name in Conflicts(closure, rename, Renamed(order, closure, rename), merged)
      ensures Tainted(closure, merged, name)
    {
      if name in Differing(closure, merged) {
        RootReachable(g, {name}, name);
      } else {
        RenamedDefinition(prefix, order, closure, rename, merged, name);
        if Refs(closure[name]) !! rename.Keys { RewriteIdle(closure[name], rename); }
        var r :| r in Refs(closure[name]) && r in rename;
        var d :| d in Differing(closure, merged) && Reachable(g, {r}, d);
        ReachableThrough(g, name, r, d);
      }
    }
  }

  lemma TaintedRenamed(prefix: string, order: seq<string>, closure: Schemas, rename: map<string, string>,
                       merged: Schemas, name: string)
    requires FixedPoint(prefix, order, closure, rename, merged)
    requires Tainted(closure, merged, name)
    ensures name in rename
  {
    hide Refs, Rewrite, AsCompared, FixedPoint, Differing;
    var g := SharedGraph(closure, merged);
    var d :| d in Differing(closure, merged) && Reachable(g, {name}, d);
    var path :| IsPath(g, path) && path[0] in {name} && path[|path| - 1] == d;
    PathRenamed(prefix, order, closure, rename, merged, path, 0);
  }

  // Where the loop stops: no conflict, and every directly differing name is renamed.
  ghost predicate FixedPoint(prefix: string, order: seq<string>, closure: Schemas, rename: map<string, string>,
                             merged: Schemas) {
    && Lists(order, closure.Keys)
    && Uncrowded(closure, rename) && Namespaces(rename, closure, merged, prefix)
    && (forall name :: name in closure && name !in rename ==> name in Renamed(order, closure, rename))
    && Conflicts(closure, rename, Renamed(order, closure, rename), merged) == {}
    && Differing(closure, merged) <= rename.Keys
  }

  lemma {:induction false} PathRenamed(prefix: string, order: seq<string>, closure: Schemas,
                                       rename: map<string, string>,
                                       merged: Schemas, path: seq<string>, i: nat)
    requires FixedPoint(prefix, order, closure, rename, merged)
    requires IsPath(SharedGraph(closure, merged), path) && path[|path| - 1] in Differing(closure, merged) && i < |path|
    ensures path[i] in rename
    decreases |path| - i
  {
    hide Refs, Rewrite, AsCompared, FixedPoint, Differing;
    if i == |path| - 1 {
      DifferingRenamed(prefix, order, closure, rename, merged, path[i]);
    } else {
      PathRenamed(prefix, order, closure, rename, merged, path, i + 1);
      assert path[i + 1] in Successors(SharedGraph(closure, merged), path[i]);
      ReferrerRenamed(prefix, order, closure, rename, merged, path[i], path[i + 1]);
    }
  }

  lemma DifferingRenamed(prefix: string, order: seq<string>, closure: Schemas, rename: map<string, string>,
                         merged: Schemas, name: string)
    requires FixedPoint(prefix, order, closure, rename, merged) && name in Differing(closure, merged)
    ensures name in rename
  {
    hide Refs, Rewrite, AsCompared, Differing;
  }

  // A shared definition that refers to a renamed one is renamed too, or it would conflict.
  lemma ReferrerRenamed(prefix: string, order: seq<string>, closure: Schemas, rename: map<string, string>,
                        merged: Schemas, name: string, ref: string)
    requires FixedPoint(prefix, order, closure, rename, merged)
    requires name in closure && name in merged && ref in Refs(closure[name]) && ref in rename
    ensures name in rename
  {
    hide Refs, Rewrite, AsCompared;
    if name !in rename {
      RenamedDefinition(prefix, order, closure, rename, merged, name);
      assert name !in Conflicts(closure, rename, Renamed(order, closure, rename), merged);
      assert PyEqual(merged[name], closure[name]) by { assert name !in Differing(closure, merged); }
      RewriteDiffers(closure[name], rename, ref);
      assert false;
    }
  }

  // ----- a definition already spelled as a namespaced name

  // Every definition of the closure is kept under its new name exactly when definitions that come together agree.
  lemma KeptExactlyWhen(order: seq<string>, closure: Schemas, rename: map<string, string>)
    requires Lists(order, closure.Keys)
    ensures (forall name :: name in closure ==>
              NewName(name, rename) in Renamed(order, closure, rename)
              && Renamed(order, closure, rename)[NewName(name, rename)] == Rewrite(closure[name], rename))
       <==> (forall a, b :: a in closure && b in closure && NewName(a, rename) == NewName(b, rename)
              ==> Rewrite(closure[a], rename) == Rewrite(closure[b], rename))
  {
    hide Rewrite;
    if forall a, b :: a in closure && b in closure && NewName(a, rename) == NewName(b, rename)
         ==> Rewrite(closure[a], rename) == Rewrite(closure[b], rename) {
      forall name | name in closure
        ensures NewName(name, rename) in Renamed(order, closure, rename)
        ensures Renamed(order, closure, rename)[NewName(name, rename)] == Rewrite(closure[name], rename)
      {
        KeptWhenAgreeing(order, closure, rename, name);
      }
    }
  }

  lemma {:induction false} KeptWhenAgreeing(order: seq<string>, closure: Schemas, rename: map<string, string>,
                                            name: string)
    requires forall n :: n in order ==> n in closure
    requires name in order
    requires forall other :: other in order && NewName(other, rename) == NewName(name, rename)
               ==> Rewrite(closure[other], rename) == Rewrite(closure[name], rename)
    ensures NewName(name, rename) in Renamed(order, closure, rename)
    ensures Renamed(order, closure, rename)[NewName(name, rename)] == Rewrite(closure[name], rename)
  {
    hide Rewrite;
    var front, last := order[..|order| - 1], order[|order| - 1];
    assert order == front + [last];
    if NewName(last, rename) != NewName(name, rename) {
      KeptWhenAgreeing(front, closure, rename, name);
    }
  }

  /**
   Whatever the loop ends with: it keeps every definition when none is spelled as the namespaced name of one that has
   to be renamed; and a definition spelled so, unknown to the earlier sources, meets the directly differing one it is
   spelled after, of which then one is lost unless the two come out the same.
   */
  lemma SpelledDefinitionMeets(prefix: string, order: seq<string>, closure: Schemas, rename: map<string, string>,
                               merged: Schemas,
                               name: string)
    requires Lists(order, closure.Keys) && Namespaces(rename, closure, merged, prefix)
        && Differing(closure, merged) <= rename.Keys
    requires name in Differing(closure, merged) && prefix + "." + name in closure && prefix + "." + name !in merged
    ensures var spelled := prefix + "." + name;
            && NewName(name, rename) == spelled == NewName(spelled, rename)
            && (Rewrite(closure[name], rename) != Rewrite(closure[spelled], rename) ==>
                  exists lost :: lost in closure && (NewName(lost, rename) !in Renamed(order, closure, rename)
                    || Renamed(order, closure, rename)[NewName(lost, rename)] != Rewrite(closure[lost], rename)))
  {
    hide Rewrite, Renamed, AsCompared, Differing, Lists;
    var spelled := prefix + "." + name;
    KeptExactlyWhen(order, closure, rename);
    assert NewName(name, rename) == spelled == NewName(spelled, rename);
    assert name in closure by { DifferingIsShared(closure, merged, name); }
  }

  lemma DifferingIsShared(closure: Schemas, merged: Schemas, name: string)
    requires name in Differing(closure, merged)
    ensures name in closure && name in merged
  {
  }

  lemma NothingLostWhenUnspelled(prefix: string, order: seq<string>, closure: Schemas, rename: map<string, string>,
                                 merged: Schemas)
    requires Lists(order, closure.Keys) && Namespaces(rename, closure, merged, prefix)
    requires Unspelled(closure, merged, prefix) && forall name :: name in rename <==> Tainted(closure, merged, name)
    ensures forall name :: name in closure ==>
              NewName(name, rename) in Renamed(order, closure, rename)
              && Renamed(order, closure, rename)[NewName(name, rename)] == Rewrite(closure[name], rename)
  {
    assert forall name :: name in order ==> name in closure;
    hide Rewrite, Renamed, AsCompared, Tainted, Lists;
    CausedIsUncrowded(prefix, closure, rename, merged);
    forall name | name in closure
      ensures NewName(name, rename) in Renamed(order, closure, rename)
      ensures Renamed(order, closure, rename)[NewName(name, rename)] == Rewrite(closure[name], rename)
    {
      RenamedDefinition(prefix, order, closure, rename, merged, name);
    }
  }

  // A source labelled L that defines B unlike an earlier one and also spells L.B loses one of the two, silently.
  lemma SpelledNameLoses(order: seq<string>)
    requires order == ["B", "L.B"] || order == ["L.B", "B"]
    ensures var closure := map["B" := Str("b"), "L.B" := Str("c")];
            var rename := map["B" := "L.B"];
            && Renamed(order, closure, map[]) == closure
            && Conflicts(closure, map[], Renamed(order, closure, map[]), map["B" := Str("a")]) == rename.Keys
            && Renamed(order, closure, rename).Keys == {"L.B"}
            && (exists name ::
                  name in closure && Renamed(order, closure, rename)["L.B"] != Rewrite(closure[name], rename))
  {
    var closure := map["B" := Str("b"), "L.B" := Str("c")];
    var rename := map["B" := "L.B"];
    assert order[..1] == [order[0]] && order[..1][..0] == [];
    assert "L.B" != "B";
    assert Renamed(order[..1], closure, rename) == map["L.B" := closure[order[0]]];
    assert Renamed(order, closure, rename) == map["L.B" := closure[order[1]]];
    assert Renamed(order[..1], closure, map[]) == map[order[0] := closure[order[0]]];
    assert Renamed(order, closure, map[]) == closure;
    assert Rewrite(closure["B"], rename) != Rewrite(closure["L.B"], rename);
  }

  // Python finds `true` and `1` equal, so a definition may give way to one that is not quite its own.
  lemma BooleanTakenForNumber()
    ensures var merged := map["X" := Obj(map["exclusiveMinimum" := Bool(true)])];
            var closure := map["X" := Obj(map["exclusiveMinimum" := Num(1.0)])];
            && Renamed(["X"], closure, map[]) == closure != merged
            && Conflicts(closure, map[], closure, merged) == {}
  {
    var merged := map["X" := Obj(map["exclusiveMinimum" := Bool(true)])];
    var closure := map["X" := Obj(map["exclusiveMinimum" := Num(1.0)])];
    assert ["X"][..0] == [];
    RewriteIdle(closure["X"], map[]);
    assert merged["X"].fields["exclusiveMinimum"] != closure["X"].fields["exclusiveMinimum"];
    assert AsCompared(merged["X"]).fields == AsCompared(closure["X"]).fields;
  }
}
