/**
 How two state snapshots are compared (`conformance/env.py`): the rows where they differ, and what those rows are
 worth.
 */
module Snapshots {
  import opened JsonTree
  import opened Pointers

  // The marker put where one side has no such key. It is a string like any other.
  const ABSENT := Str("<absent>")

  datatype Row = Row(path: seq<string>, mine: Json, theirs: Json)

  function Get(fields: map<string, Json>, key: string): Json {
    if key in fields then fields[key] else ABSENT
  }

  predicate BothObjects(mine: Json, theirs: Json) {
    mine.Obj? && theirs.Obj?
  }

  predicate BothLists(mine: Json, theirs: Json) {
    mine.Arr? && theirs.Arr? && |mine.items| == |theirs.items|
  }

  predicate IsIndex(token: string, items: seq<Json>) {
    IsDigits(token) && Value(token) < |items| && Decimal(Value(token)) == token
  }

  /** The path leads through objects and lists of one length to two values that differ. */
  ghost predicate Reported(mine: Json, theirs: Json, path: seq<string>, left: Json, right: Json)
    decreases |path|
  {
    if BothObjects(mine, theirs) then
      && path != [] && path[0] in mine.fields.Keys + theirs.fields.Keys
      && Reported(Get(mine.fields, path[0]), Get(theirs.fields, path[0]), path[1..], left, right)
    else if BothLists(mine, theirs) then
      && path != [] && IsIndex(path[0], mine.items)
      && Reported(mine.items[Value(path[0])], theirs.items[Value(path[0])], path[1..], left, right)
    else path == [] && left == mine && right == theirs && !PyEqual(mine, theirs)
  }

  // A row reported somewhere below `path`.
  ghost predicate Found(row: Row, mine: Json, theirs: Json, path: seq<string>) {
    path <= row.path && Reported(mine, theirs, row.path[|path|..], row.mine, row.theirs)
  }

  ghost predicate ListsRows(rows: seq<Row>, mine: Json, theirs: Json, path: seq<string>) {
    && (forall row :: row in rows <==> Found(row, mine, theirs, path))
    && (forall i, j :: 0 <= i < j < |rows| ==> rows[i] != rows[j])
  }

  // The rows below some of an object's keys.
  ghost predicate ListsSome(rows: seq<Row>, keys: set<string>, mine: Json, theirs: Json, path: seq<string>) {
    && (forall row :: row in rows <==>
          Found(row, mine, theirs, path) && |path| < |row.path| && row.path[|path|] in keys)
    && (forall i, j :: 0 <= i < j < |rows| ==> rows[i] != rows[j])
  }

  lemma FoundBelowKey(row: Row, key: string, mine: Json, theirs: Json, path: seq<string>)
    requires BothObjects(mine, theirs) && key in mine.fields.Keys + theirs.fields.Keys
    ensures Found(row, Get(mine.fields, key), Get(theirs.fields, key), path + [key])
       <==> Found(row, mine, theirs, path) && |path| < |row.path| && row.path[|path|] == key
  {
    if path <= row.path && |path| < |row.path| && row.path[|path|] == key {
      assert row.path[|path|..][1..] == row.path[|path + [key]|..];
    }
  }

  lemma FoundBelowIndex(row: Row, i: nat, mine: Json, theirs: Json, path: seq<string>)
    requires BothLists(mine, theirs) && i < |mine.items|
    ensures Found(row, mine.items[i], theirs.items[i], path + [Decimal(i)])
       <==> Found(row, mine, theirs, path) && |path| < |row.path| && row.path[|path|] == Decimal(i)
  {
    DecimalRoundTrip(i);
    hide Decimal, Value;
    if path <= row.path && |path| < |row.path| && row.path[|path|] == Decimal(i) {
      assert row.path[|path|..][1..] == row.path[|path + [Decimal(i)]|..];
    }
  }

  lemma MoreKeys(rows: seq<Row>, keys: set<string>, more: seq<Row>, key: string, mine: Json, theirs: Json,
                 path: seq<string>)
    requires BothObjects(mine, theirs) && ListsSome(rows, keys, mine, theirs, path)
    requires key !in keys && key in mine.fields.Keys + theirs.fields.Keys
    requires ListsRows(more, Get(mine.fields, key), Get(theirs.fields, key), path + [key])
    ensures ListsSome(rows + more, keys + {key}, mine, theirs, path)
  {
    forall row
      ensures row in more <==> Found(row, mine, theirs, path) && |path| < |row.path| && row.path[|path|] == key
    {
      FoundBelowKey(row, key, mine, theirs, path);
    }
    hide Found;
    forall i, j | 0 <= i < |rows| && 0 <= j < |more| ensures rows[i] != more[j] {
      assert rows[i] in rows && more[j] in more;
    }
  }

  lemma MoreIndices(rows: seq<Row>, n: nat, more: seq<Row>, mine: Json, theirs: Json, path: seq<string>)
    requires BothLists(mine, theirs) && ListsSome(rows, Indices(n), mine, theirs, path) && n < |mine.items|
    requires ListsRows(more, mine.items[n], theirs.items[n], path + [Decimal(n)])
    ensures ListsSome(rows + more, Indices(n + 1), mine, theirs, path)
  {
    forall row
      ensures row in more <==> Found(row, mine, theirs, path) && |path| < |row.path| && row.path[|path|] == Decimal(n)
    {
      FoundBelowIndex(row, n, mine, theirs, path);
    }
    IndicesStep(n);
    hide Found, Decimal, Indices;
    forall i, j | 0 <= i < |rows| && 0 <= j < |more| ensures rows[i] != more[j] {
      assert rows[i] in rows && more[j] in more;
    }
  }

  // The segments of the first `n` places of a list.
  function Indices(n: nat): set<string> {
    set i | 0 <= i < n :: Decimal(i)
  }

  lemma IndicesStep(n: nat)
    ensures Decimal(n) !in Indices(n) && Indices(n + 1) == Indices(n) + {Decimal(n)}
  {
    forall i: nat | i < n ensures Decimal(i) != Decimal(n) {
      DecimalRoundTrip(i);
      DecimalRoundTrip(n);
    }
  }

  lemma AllKeys(rows: seq<Row>, mine: Json, theirs: Json, path: seq<string>)
    requires BothObjects(mine, theirs) && ListsSome(rows, mine.fields.Keys + theirs.fields.Keys, mine, theirs, path)
    ensures ListsRows(rows, mine, theirs, path)
  {
  }

  lemma AllIndices(rows: seq<Row>, mine: Json, theirs: Json, path: seq<string>)
    requires BothLists(mine, theirs) && ListsSome(rows, Indices(|mine.items|), mine, theirs, path)
    ensures ListsRows(rows, mine, theirs, path)
  {
    hide Decimal, Value;
    forall row | Found(row, mine, theirs, path) ensures row in rows {
      assert Decimal(Value(row.path[|path|..][0])) in Indices(|mine.items|);
    }
  }

  /** The list `out` that the recursion appends to. */
  class Report {
    var rows: seq<Row>

    constructor ()
      ensures rows == []
    {
      rows := [];
    }

    /** `_diff`: the keys of two objects in any order, the places of two lists in theirs. */
    method Diff(mine: Json, theirs: Json, path: seq<string>)
      modifies this
      ensures old(rows) <= rows && ListsRows(rows[|old(rows)|..], mine, theirs, path)
      decreases mine
    {
      hide ListsRows, ListsSome, Decimal, PyEqual, Indices;
      ghost var before := rows;
      if BothObjects(mine, theirs) {
        var left := mine.fields.Keys + theirs.fields.Keys;
        NoKeysYet(mine, theirs, path);
        assert left - left == {} && rows[|before|..] == [];
        while left != {}
          invariant left <= mine.fields.Keys + theirs.fields.Keys && before <= rows
          invariant ListsSome(rows[|before|..], mine.fields.Keys + theirs.fields.Keys - left, mine, theirs, path)
        {
          var key :| key in left;
          ghost var sofar := rows;
          if key in mine.fields {
            Diff(mine.fields[key], Get(theirs.fields, key), path + [key]);
          } else {
            DiffLeaf(ABSENT, theirs.fields[key], path + [key]);
          }
          MoreKeys(sofar[|before|..], mine.fields.Keys + theirs.fields.Keys - left, rows[|sofar|..], key, mine, theirs,
              path);
          assert rows[|before|..] == sofar[|before|..] + rows[|sofar|..];
          assert mine.fields.Keys + theirs.fields.Keys - (left - {key})
              == mine.fields.Keys + theirs.fields.Keys - left + {key};
          left := left - {key};
        }
        assert mine.fields.Keys + theirs.fields.Keys - left == mine.fields.Keys + theirs.fields.Keys;
        AllKeys(rows[|before|..], mine, theirs, path);
      } else if BothLists(mine, theirs) {
        NoIndicesYet(mine, theirs, path);
        assert rows[|before|..] == [];
        for index := 0 to |mine.items|
          invariant before <= rows && ListsSome(rows[|before|..], Indices(index), mine, theirs, path)
        {
          ghost var sofar := rows;
          Diff(mine.items[index], theirs.items[index], path + [Decimal(index)]);
          MoreIndices(sofar[|before|..], index, rows[|sofar|..], mine, theirs, path);
          assert rows[|before|..] == sofar[|before|..] + rows[|sofar|..];
        }
        AllIndices(rows[|before|..], mine, theirs, path);
      } else {
        DiffLeaf(mine, theirs, path);
      }
    }

    // Two values not walked into together; in particular an absent one beside anything.
    method DiffLeaf(mine: Json, theirs: Json, path: seq<string>)
      requires !BothObjects(mine, theirs) && !BothLists(mine, theirs)
      modifies this
      ensures old(rows) <= rows && ListsRows(rows[|old(rows)|..], mine, theirs, path)
    {
      hide PyEqual;
      ghost var before := rows;
      if !PyEqual(mine, theirs) { rows := rows + [Row(path, mine, theirs)]; }
      LeafRow(mine, theirs, path);
      assert rows[|before|..] == if PyEqual(mine, theirs) then [] else [Row(path, mine, theirs)];
    }
  }

  lemma NoKeysYet(mine: Json, theirs: Json, path: seq<string>)
    requires BothObjects(mine, theirs)
    ensures ListsSome([], {}, mine, theirs, path)
  {
  }

  lemma NoIndicesYet(mine: Json, theirs: Json, path: seq<string>)
    requires BothLists(mine, theirs)
    ensures ListsSome([], Indices(0), mine, theirs, path)
  {
  }

  lemma LeafRow(mine: Json, theirs: Json, path: seq<string>)
    requires !BothObjects(mine, theirs) && !BothLists(mine, theirs)
    ensures ListsRows(if PyEqual(mine, theirs) then [] else [Row(path, mine, theirs)], mine, theirs, path)
  {
    hide PyEqual;
    forall row | Found(row, mine, theirs, path) ensures row == Row(path, mine, theirs) {
      assert row.path == path + row.path[|path|..];
    }
    assert path[|path|..] == [];
  }

  // ----- when nothing is reported

  // A value without the members that hold the marker itself, which the comparison takes for missing ones.
  function Shorn(node: Json): Json {
    match node
    case Obj(fields) => Obj(map key | key in fields.Keys && fields[key] != ABSENT :: Shorn(fields[key]))
    case Arr(items) => Arr(seq(|items|, i requires 0 <= i < |items| => Shorn(items[i])))
    case _ => node
  }

  lemma ShornKinds(mine: Json, theirs: Json)
    requires !BothObjects(mine, theirs) && !BothLists(mine, theirs)
    ensures PyEqual(Shorn(mine), Shorn(theirs)) <==> PyEqual(mine, theirs)
  {
    if mine.Arr? && theirs.Arr? {
      assert |AsCompared(Shorn(mine)).items| == |mine.items| && |AsCompared(mine).items| == |mine.items|;
      assert |AsCompared(Shorn(theirs)).items| == |theirs.items| && |AsCompared(theirs).items| == |theirs.items|;
    }
  }

  lemma ShornMember(node: Json, key: string)
    requires node.Obj?
    ensures Shorn(node).Obj? && (key in Shorn(node).fields <==> Get(node.fields, key) != ABSENT)
    ensures key in Shorn(node).fields ==> Shorn(node).fields[key] == Shorn(Get(node.fields, key))
  {
  }

  /** What is reported differs, whatever stands around it. */
  lemma {:induction false} ReportedDiffers(mine: Json, theirs: Json, path: seq<string>, left: Json, right: Json)
    requires Reported(mine, theirs, path, left, right)
    ensures !PyEqual(Shorn(mine), Shorn(theirs)) && !PyEqual(left, right)
    decreases |path|
  {
    hide PyEqual, Shorn;
    if BothObjects(mine, theirs) {
      var key := path[0];
      ReportedDiffers(Get(mine.fields, key), Get(theirs.fields, key), path[1..], left, right);
      ObjectsDiffer(mine, theirs, key);
    } else if BothLists(mine, theirs) {
      var i := Value(path[0]);
      ReportedDiffers(mine.items[i], theirs.items[i], path[1..], left, right);
      ListsDiffer(mine, theirs, i);
    } else {
      ShornKinds(mine, theirs);
    }
  }

  lemma ObjectsDiffer(mine: Json, theirs: Json, key: string)
    requires BothObjects(mine, theirs)
    requires !PyEqual(Shorn(Get(mine.fields, key)), Shorn(Get(theirs.fields, key)))
    ensures !PyEqual(Shorn(mine), Shorn(theirs))
  {
    hide AsCompared, Shorn;
    ShornMember(mine, key);
    ShornMember(theirs, key);
    if PyEqual(Shorn(mine), Shorn(theirs)) {
      PyEqualObj(Shorn(mine), Shorn(theirs));
      assert false;
    }
  }

  lemma ListsDiffer(mine: Json, theirs: Json, i: nat)
    requires BothLists(mine, theirs) && i < |mine.items|
    requires !PyEqual(Shorn(mine.items[i]), Shorn(theirs.items[i]))
    ensures !PyEqual(Shorn(mine), Shorn(theirs))
  {
    hide PyEqual;
    assert Shorn(mine).items[i] == Shorn(mine.items[i]) && Shorn(theirs).items[i] == Shorn(theirs.items[i]);
    if PyEqual(Shorn(mine), Shorn(theirs)) {
      PyEqualArr(Shorn(mine), Shorn(theirs));
      assert false;
    }
  }

  /** And values that differ have something reported. */
  lemma {:induction false} DifferentIsReported(mine: Json, theirs: Json) returns (path: seq<string>, left: Json,
                                               right: Json)
    requires !PyEqual(Shorn(mine), Shorn(theirs))
    ensures Reported(mine, theirs, path, left, right)
    decreases mine
  {
    hide PyEqual, Shorn, Decimal, Value;
    if BothObjects(mine, theirs) {
      var key := DifferingKey(mine, theirs);
      var rest;
      if key in mine.fields {
        rest, left, right := DifferentIsReported(mine.fields[key], Get(theirs.fields, key));
      } else {
        ShornKinds(ABSENT, theirs.fields[key]);
        rest, left, right := [], ABSENT, theirs.fields[key];
      }
      path := [key] + rest;
      assert path[1..] == rest;
    } else if BothLists(mine, theirs) {
      var i := DifferingIndex(mine, theirs);
      var rest;
      rest, left, right := DifferentIsReported(mine.items[i], theirs.items[i]);
      path := [Decimal(i)] + rest;
      DecimalRoundTrip(i);
      assert path[1..] == rest;
    } else {
      ShornKinds(mine, theirs);
      path, left, right := [], mine, theirs;
    }
  }

  lemma DifferingKey(mine: Json, theirs: Json) returns (key: string)
    requires BothObjects(mine, theirs) && !PyEqual(Shorn(mine), Shorn(theirs))
    ensures key in mine.fields.Keys + theirs.fields.Keys
    ensures !PyEqual(Shorn(Get(mine.fields, key)), Shorn(Get(theirs.fields, key)))
  {
    hide PyEqual, Shorn;
    var m, t := mine.fields, theirs.fields;
    if k :| k in m.Keys + t.Keys && !PyEqual(Shorn(Get(m, k)), Shorn(Get(t, k))) {
      key := k;
    } else {
      ShornMember(mine, "");
      ShornMember(theirs, "");
      forall k ensures k in Shorn(mine).fields <==> k in Shorn(theirs).fields
        ensures k in Shorn(mine).fields ==> PyEqual(Shorn(mine).fields[k], Shorn(theirs).fields[k])
      {
        ShornMember(mine, k);
        ShornMember(theirs, k);
        MarkerAlone(Get(m, k), Get(t, k));
      }
      PyEqualIfFields(Shorn(mine), Shorn(theirs));
      assert false;
    }
  }

  lemma MarkerAlone(a: Json, b: Json)
    requires PyEqual(Shorn(a), Shorn(b))
    ensures a == ABSENT <==> b == ABSENT
  {
  }

  lemma DifferingIndex(mine: Json, theirs: Json) returns (i: nat)
    requires BothLists(mine, theirs) && !PyEqual(Shorn(mine), Shorn(theirs))
    ensures i < |mine.items| && !PyEqual(Shorn(mine.items[i]), Shorn(theirs.items[i]))
  {
    hide PyEqual;
    if k: nat :| k < |mine.items| && !PyEqual(Shorn(mine.items[k]), Shorn(theirs.items[k])) {
      i := k;
    } else {
      PyEqualIfItems(Shorn(mine), Shorn(theirs));
      assert false;
    }
  }

  // ----- the rows as a patch

  /** A value with the one at a path replaced, or deleted where the other side has none. */
  function Put(node: Json, path: seq<string>, value: Json): Json
    decreases |path|
  {
    if path == [] then value
    else
      match node
      case Obj(fields) =>
        var child := Put(Get(fields, path[0]), path[1..], value);
        Obj(if child == ABSENT then fields - {path[0]} else fields[path[0] := child])
      case Arr(items) =>
        if IsIndex(path[0], items) then Arr(items[Value(path[0]) := Put(items[Value(path[0])], path[1..], value)])
        else node
      case _ => node
  }

  function Patched(node: Json, rows: seq<Row>, drop: nat): Json
    requires forall row :: row in rows ==> drop <= |row.path|
    decreases |rows|
  {
    if rows == [] then node
    else Patched(Put(node, rows[0].path[drop..], rows[0].theirs), rows[1..], drop)
  }

  lemma NothingReportedOfEqual(node: Json, path: seq<string>, left: Json, right: Json)
    ensures !Reported(node, node, path, left, right)
  {
    if Reported(node, node, path, left, right) {
      ReportedDiffers(node, node, path, left, right);
      assert false;
    }
  }

  lemma InObjects(mine: Json, theirs: Json, path: seq<string>, left: Json, right: Json)
    requires BothObjects(mine, theirs)
    ensures Reported(mine, theirs, path, left, right)
       <==> path != [] && Reported(Get(mine.fields, path[0]), Get(theirs.fields, path[0]), path[1..], left, right)
  {
    hide PyEqual;
    if path != [] { NothingReportedOfEqual(ABSENT, path[1..], left, right); }
  }

  lemma PutMember(node: Json, path: seq<string>, value: Json)
    requires node.Obj? && path != []
    ensures Put(node, path, value).Obj?
    ensures forall key :: Get(Put(node, path, value).fields, key)
                       == if key == path[0] then Put(Get(node.fields, key), path[1..], value) else Get(node.fields, key)
  {
  }

  lemma InLists(mine: Json, theirs: Json, path: seq<string>, left: Json, right: Json)
    requires BothLists(mine, theirs)
    ensures Reported(mine, theirs, path, left, right)
       <==> path != [] && IsIndex(path[0], mine.items)
            && Reported(mine.items[Value(path[0])], theirs.items[Value(path[0])], path[1..], left, right)
  {
  }

  lemma PutItem(node: Json, path: seq<string>, value: Json)
    requires node.Arr? && path != [] && IsIndex(path[0], node.items)
    ensures var i := Value(path[0]);
            Put(node, path, value) == Arr(node.items[i := Put(node.items[i], path[1..], value)])
  {
  }

  // Putting a reported value where it is reported settles that row and leaves the others.
  lemma {:induction false} PutSettles(mine: Json, theirs: Json, path: seq<string>, left: Json, right: Json,
                                      other: seq<string>, l: Json, r: Json)
    requires Reported(mine, theirs, path, left, right)
    ensures Reported(Put(mine, path, right), theirs, other, l, r)
       <==> Reported(mine, theirs, other, l, r) && other != path
    decreases |path|
  {
    if BothObjects(mine, theirs) {
      SettlesInObjects(mine, theirs, path, left, right, other, l, r);
    } else if BothLists(mine, theirs) {
      SettlesInLists(mine, theirs, path, left, right, other, l, r);
    } else {
      NothingReportedOfEqual(theirs, other, l, r);
    }
  }

  lemma {:induction false} SettlesInObjects(mine: Json, theirs: Json, path: seq<string>, left: Json, right: Json,
                                            other: seq<string>, l: Json, r: Json)
    requires BothObjects(mine, theirs) && Reported(mine, theirs, path, left, right)
    ensures Reported(Put(mine, path, right), theirs, other, l, r)
       <==> Reported(mine, theirs, other, l, r) && other != path
    decreases |path|, 0
  {
    InObjects(mine, theirs, path, left, right);
    InObjects(mine, theirs, other, l, r);
    PutMember(mine, path, right);
    InObjects(Put(mine, path, right), theirs, other, l, r);
    hide Reported, Put, PyEqual;
    if other != [] && other[0] == path[0] {
      assert other == [path[0]] + other[1..] && path == [path[0]] + path[1..];
      PutSettles(Get(mine.fields, path[0]), Get(theirs.fields, path[0]), path[1..], left, right, other[1..], l, r);
    }
  }

  lemma {:induction false} SettlesInLists(mine: Json, theirs: Json, path: seq<string>, left: Json, right: Json,
                                          other: seq<string>, l: Json, r: Json)
    requires BothLists(mine, theirs) && Reported(mine, theirs, path, left, right)
    ensures Reported(Put(mine, path, right), theirs, other, l, r)
       <==> Reported(mine, theirs, other, l, r) && other != path
    decreases |path|, 0
  {
    InLists(mine, theirs, path, left, right);
    InLists(mine, theirs, other, l, r);
    PutItem(mine, path, right);
    InLists(Put(mine, path, right), theirs, other, l, r);
    hide Reported, Put, PyEqual, Decimal, Value;
    if other != [] && other[0] == path[0] {
      assert other == [path[0]] + other[1..] && path == [path[0]] + path[1..];
      var i := Value(path[0]);
      PutSettles(mine.items[i], theirs.items[i], path[1..], left, right, other[1..], l, r);
    }
  }

  /** Distinct rows have disjoint paths: neither leads through the other. */
  lemma {:induction false} PathsDisjoint(mine: Json, theirs: Json, path: seq<string>, left: Json, right: Json,
                                         other: seq<string>, l: Json, r: Json)
    requires Reported(mine, theirs, path, left, right) && Reported(mine, theirs, other, l, r) && path <= other
    ensures path == other && left == l && right == r
    decreases |path|
  {
    hide PyEqual, Decimal, Value;
    if BothObjects(mine, theirs) {
      PathsDisjoint(Get(mine.fields, path[0]), Get(theirs.fields, path[0]), path[1..], left, right, other[1..], l, r);
      assert other == [path[0]] + other[1..] && path == [path[0]] + path[1..];
    } else if BothLists(mine, theirs) {
      var i := Value(path[0]);
      PathsDisjoint(mine.items[i], theirs.items[i], path[1..], left, right, other[1..], l, r);
      assert other == [path[0]] + other[1..] && path == [path[0]] + path[1..];
    }
  }

  lemma RowsButFirst(rows: seq<Row>, row: Row)
    requires rows != [] && forall i, j :: 0 <= i < j < |rows| ==> rows[i] != rows[j]
    ensures row in rows[1..] <==> row in rows && row != rows[0]
  {
    assert rows == [rows[0]] + rows[1..];
  }

  // What is left to settle after the first row.
  lemma RestLists(rows: seq<Row>, mine: Json, theirs: Json, path: seq<string>)
    requires ListsRows(rows, mine, theirs, path) && rows != []
    ensures path <= rows[0].path && Reported(mine, theirs, rows[0].path[|path|..], rows[0].mine, rows[0].theirs)
    ensures ListsRows(rows[1..], Put(mine, rows[0].path[|path|..], rows[0].theirs), theirs, path)
  {
    var first := rows[0];
    assert first in rows && Found(first, mine, theirs, path);
    var at := first.path[|path|..];
    hide Reported, Put;
    forall row ensures row in rows[1..] <==> Found(row, Put(mine, at, first.theirs), theirs, path) {
      if path <= row.path {
        PutSettles(mine, theirs, at, first.mine, first.theirs, row.path[|path|..], row.mine, row.theirs);
        if row.path[|path|..] == at && Reported(mine, theirs, at, row.mine, row.theirs) {
          PathsDisjoint(mine, theirs, at, first.mine, first.theirs, at, row.mine, row.theirs);
        }
        assert row.path == path + row.path[|path|..] && first.path == path + at;
      }
      RowsButFirst(rows, row);
    }
  }

  /** The round trip: applying every row in the order found, whatever it is, leaves nothing to report. */
  lemma {:induction false} PatchLeavesNothing(rows: seq<Row>, mine: Json, theirs: Json, path: seq<string>)
    requires ListsRows(rows, mine, theirs, path)
    ensures forall row :: row in rows ==> |path| <= |row.path|
    ensures PyEqual(Shorn(Patched(mine, rows, |path|)), Shorn(theirs))
    decreases |rows|
  {
    hide Reported, Put, PyEqual, Shorn;
    forall row | row in rows ensures |path| <= |row.path| {}
    if rows == [] {
      NothingFoundIsEqual(mine, theirs, path);
    } else {
      RestLists(rows, mine, theirs, path);
      PatchLeavesNothing(rows[1..], Put(mine, rows[0].path[|path|..], rows[0].theirs), theirs, path);
    }
  }

  lemma NothingFoundIsEqual(mine: Json, theirs: Json, path: seq<string>)
    requires ListsRows([], mine, theirs, path)
    ensures PyEqual(Shorn(mine), Shorn(theirs))
  {
    hide Reported, PyEqual, Shorn;
    if !PyEqual(Shorn(mine), Shorn(theirs)) {
      var row := DifferentHasRow(mine, theirs, path);
      assert false;
    }
  }

  lemma DifferentHasRow(mine: Json, theirs: Json, path: seq<string>) returns (row: Row)
    requires !PyEqual(Shorn(mine), Shorn(theirs))
    ensures Found(row, mine, theirs, path)
  {
    hide Reported, PyEqual, Shorn;
    var at, left, right := DifferentIsReported(mine, theirs);
    row := Row(path + at, left, right);
    assert (path + at)[|path|..] == at;
  }

  /** Nothing is found exactly when the two sides are equal but for members holding the marker. */
  lemma FoundExactlyWhenDifferent(rows: seq<Row>, mine: Json, theirs: Json, path: seq<string>)
    requires ListsRows(rows, mine, theirs, path)
    ensures rows == [] <==> PyEqual(Shorn(mine), Shorn(theirs))
  {
    hide Reported, PyEqual, Shorn;
    if rows == [] {
      NothingFoundIsEqual(mine, theirs, path);
    } else {
      assert rows[0] in rows && Found(rows[0], mine, theirs, path);
      ReportedDiffers(mine, theirs, rows[0].path[|path|..], rows[0].mine, rows[0].theirs);
    }
  }

  predicate Markless(node: Json) {
    match node
    case Obj(fields) => forall key :: key in fields ==> fields[key] != ABSENT && Markless(fields[key])
    case Arr(items) => forall i :: 0 <= i < |items| ==> Markless(items[i])
    case _ => true
  }

  lemma {:induction false} MarklessIsWhole(node: Json)
    requires Markless(node)
    ensures Shorn(node) == node
  {
    match node
    case Obj(fields) =>
      forall key | key in fields ensures Shorn(fields[key]) == fields[key] { MarklessIsWhole(fields[key]); }
      assert Shorn(node).fields == fields;
    case Arr(items) =>
      forall i | 0 <= i < |items| ensures Shorn(items[i]) == items[i] { MarklessIsWhole(items[i]); }
      assert Shorn(node).items == items;
    case _ =>
  }

  /** Without the marker in it, a difference of two states is seen exactly when there is one. */
  lemma SeenExactlyWhenUnequal(rows: seq<Row>, mine: Json, theirs: Json, path: seq<string>)
    requires ListsRows(rows, mine, theirs, path) && Markless(mine) && Markless(theirs)
    ensures rows == [] <==> PyEqual(mine, theirs)
  {
    FoundExactlyWhenDifferent(rows, mine, theirs, path);
    MarklessIsWhole(mine);
    MarklessIsWhole(theirs);
  }

  lemma MarklessMember(node: Json, key: string)
    requires node.Obj? && Markless(node)
    ensures Markless(Get(node.fields, key))
  {
  }

  // Putting a reported value in place brings no marker in.
  lemma {:induction false} PutStaysMarkless(mine: Json, theirs: Json, path: seq<string>, left: Json, right: Json)
    requires Reported(mine, theirs, path, left, right) && Markless(mine) && Markless(theirs)
    ensures Markless(Put(mine, path, right))
    decreases |path|
  {
    if BothObjects(mine, theirs) {
      InObjects(mine, theirs, path, left, right);
      MarklessMember(mine, path[0]);
      MarklessMember(theirs, path[0]);
      hide Reported, Put, Markless, PyEqual;
      PutStaysMarkless(Get(mine.fields, path[0]), Get(theirs.fields, path[0]), path[1..], left, right);
      MemberStaysMarkless(mine, path, right);
    } else if BothLists(mine, theirs) {
      InLists(mine, theirs, path, left, right);
      var i := Value(path[0]);
      assert Markless(mine.items[i]) && Markless(theirs.items[i]);
      hide Reported, Put, Markless, PyEqual, Decimal, Value;
      PutStaysMarkless(mine.items[i], theirs.items[i], path[1..], left, right);
      ItemStaysMarkless(mine, path, right);
    }
  }

  lemma MemberStaysMarkless(node: Json, path: seq<string>, value: Json)
    requires node.Obj? && Markless(node) && path != [] && Markless(Put(Get(node.fields, path[0]), path[1..], value))
    ensures Markless(Put(node, path, value))
  {
  }

  lemma ItemStaysMarkless(node: Json, path: seq<string>, value: Json)
    requires node.Arr? && Markless(node) && path != [] && IsIndex(path[0], node.items)
    requires Markless(Put(node.items[Value(path[0])], path[1..], value))
    ensures Markless(Put(node, path, value))
  {
    hide Decimal, Value;
  }

  lemma {:induction false} PatchStaysMarkless(rows: seq<Row>, mine: Json, theirs: Json, path: seq<string>)
    requires ListsRows(rows, mine, theirs, path) && Markless(mine) && Markless(theirs)
    ensures forall row :: row in rows ==> |path| <= |row.path|
    ensures Markless(Patched(mine, rows, |path|))
    decreases |rows|
  {
    hide Reported, Put, Markless;
    forall row | row in rows ensures |path| <= |row.path| {}
    if rows != [] {
      RestLists(rows, mine, theirs, path);
      var at := rows[0].path[|path|..];
      PutStaysMarkless(mine, theirs, at, rows[0].mine, rows[0].theirs);
      PatchStaysMarkless(rows[1..], Put(mine, at, rows[0].theirs), theirs, path);
    }
  }

  /** Without the marker in either, applying the rows to the first snapshot gives the second. */
  lemma PatchGivesTheirs(rows: seq<Row>, mine: Json, theirs: Json, path: seq<string>)
    requires ListsRows(rows, mine, theirs, path) && Markless(mine) && Markless(theirs)
    ensures forall row :: row in rows ==> |path| <= |row.path|
    ensures PyEqual(Patched(mine, rows, |path|), theirs)
  {
    hide Reported, Put, Markless, PyEqual, Shorn, Patched, ListsRows;
    PatchStaysMarkless(rows, mine, theirs, path);
    PatchLeavesNothing(rows, mine, theirs, path);
    MarklessIsWhole(Patched(mine, rows, |path|));
    MarklessIsWhole(theirs);
  }

  /** A member that holds the marker is taken for a missing one. */
  lemma MarkerIsInvisible(rows: seq<Row>, key: string)
    requires ListsRows(rows, Obj(map[key := Str("<absent>")]), Obj(map[]), [])
    ensures rows == [] && !PyEqual(Obj(map[key := Str("<absent>")]), Obj(map[]))
  {
    var mine, theirs := Obj(map[key := ABSENT]), Obj(map[]);
    assert Shorn(mine).fields == Shorn(theirs).fields;
    FoundExactlyWhenDifferent(rows, mine, theirs, []);
    assert key in AsCompared(mine).fields && key !in AsCompared(theirs).fields;
  }

  // ----- what is shown

  predicate EndsWith(s: string, suffix: string) {
    |suffix| <= |s| && s[|s| - |suffix|..] == suffix
  }

  predicate Stamped(row: Row)
    requires row.path != []
  {
    var last := row.path[|row.path| - 1];
    EndsWith(last, "_at") || EndsWith(last, "_at_ms") || EndsWith(last, "_time")
  }

  function Kept(found: seq<Row>): (kept: seq<Row>)
    requires forall row :: row in found ==> row.path != []
    ensures forall row :: row in kept <==> row in found && !Stamped(row)
  {
    if found == [] then []
    else
      var front, last := Kept(found[..|found| - 1]), found[|found| - 1];
      assert found == found[..|found| - 1] + [last];
      if Stamped(last) then front else front + [last]
  }

  // `rows[:limit]`, a negative limit counting from the end.
  function Cut(rows: seq<Row>, limit: int): seq<Row> {
    if 0 <= limit then (if limit < |rows| then rows[..limit] else rows)
    else if -limit < |rows| then rows[..|rows| + limit]
    else []
  }

  const COLLECTIONS := "collections"

  function Collections(snapshot: map<string, Json>): Json {
    if COLLECTIONS in snapshot then snapshot[COLLECTIONS] else Obj(map[])
  }

  // The last name on the path says that it is a time.
  ghost predicate IsTime(row: Row) {
    row.path != []
    && var last := row.path[|row.path| - 1];
       Ends(last, "_at") || Ends(last, "_at_ms") || Ends(last, "_time")
  }

  ghost predicate Ends(last: string, suffix: string) {
    exists name :: last == name + suffix
  }

  lemma EndsExactly(last: string, suffix: string)
    ensures EndsWith(last, suffix) <==> Ends(last, suffix)
  {
    if EndsWith(last, suffix) { assert last == last[..|last| - |suffix|] + suffix; }
    if name :| last == name + suffix { assert last[|name|..] == suffix; }
  }

  lemma StampedIsTime(row: Row)
    requires row.path != []
    ensures Stamped(row) <==> IsTime(row)
  {
    hide EndsWith, Ends;
    var last := row.path[|row.path| - 1];
    EndsExactly(last, "_at");
    EndsExactly(last, "_at_ms");
    EndsExactly(last, "_time");
  }

  // These and no other places, in increasing order.
  ghost predicate InOrder(at: seq<nat>, which: set<nat>) {
    (forall i, j :: 0 <= i < j < |at| ==> at[i] < at[j]) && forall i: nat :: i in at <==> i in which
  }

  // The rows at these places.
  ghost predicate Picks(rows: seq<Row>, found: seq<Row>, at: seq<nat>) {
    |rows| <= |at| && forall j :: 0 <= j < |rows| ==> at[j] < |found| && rows[j] == found[at[j]]
  }

  // The places of the rows that are worth showing: those that are not of a time, or all when there is no other.
  ghost function Worth(found: seq<Row>): set<nat> {
    var none := forall i :: 0 <= i < |found| ==> IsTime(found[i]);
    set i: nat | i < |found| && (none || !IsTime(found[i]))
  }

  // How many of `n` rows a limit leaves; a negative one takes that many from the end.
  ghost function Within(n: nat, limit: int): nat {
    if 0 <= limit < n then limit else if 0 <= limit || n + limit < 0 then (if limit < 0 then 0 else n) else n + limit
  }

  // The places of the rows that are not of a time.
  ghost function Timeless(found: seq<Row>): set<nat> {
    set i: nat | i < |found| && !IsTime(found[i])
  }

  lemma {:induction false} KeptPlaces(found: seq<Row>) returns (at: seq<nat>)
    requires forall row :: row in found ==> row.path != []
    ensures InOrder(at, Timeless(found)) && |at| == |Kept(found)| && Picks(Kept(found), found, at)
  {
    hide IsTime, Stamped, InOrder, Timeless, Picks;
    if found == [] {
      at := [];
      NoPlaces();
    } else {
      var n := |found| - 1;
      var front, last := found[..n], found[n];
      assert found == front + [last];
      at := KeptPlaces(front);
      StampedIsTime(last);
      TimelessMore(front, last);
      PicksMore(Kept(front), front, last, at);
      if !Stamped(last) {
        InOrderMore(at, Timeless(front), n);
        at := at + [n];
      } else {
        assert Timeless(found) == Timeless(front);
      }
    }
  }

  lemma NoPlaces()
    ensures InOrder([], Timeless([])) && Picks([], [], [])
  {
  }

  lemma TimelessMore(front: seq<Row>, last: Row)
    ensures Timeless(front + [last]) == Timeless(front) + if IsTime(last) then {} else {|front|}
    ensures forall i :: i in Timeless(front) ==> i < |front|
  {
    hide IsTime;
    assert forall i :: 0 <= i < |front| ==> (front + [last])[i] == front[i];
  }

  lemma InOrderMore(at: seq<nat>, which: set<nat>, n: nat)
    requires InOrder(at, which) && forall i :: i in which ==> i < n
    ensures InOrder(at + [n], which + {n})
  {
    forall i | 0 <= i < |at| ensures at[i] < n { assert at[i] in at; }
  }

  lemma PicksMore(rows: seq<Row>, front: seq<Row>, last: Row, at: seq<nat>)
    requires |rows| == |at| && Picks(rows, front, at)
    ensures Picks(rows, front + [last], at) && Picks(rows + [last], front + [last], at + [|front|])
  {
    assert forall j :: 0 <= j < |at| ==> (front + [last])[at[j]] == front[at[j]];
  }

  /** What is shown of the rows found: those worth showing, in their order, as far as the limit allows. */
  lemma ShownExactly(found: seq<Row>, limit: int)
    requires forall row :: row in found ==> row.path != []
    ensures var shown := Cut(if Kept(found) == [] then found else Kept(found), limit);
            exists at :: InOrder(at, Worth(found)) && |shown| == Within(|at|, limit) && Picks(shown, found, at)
  {
    hide InOrder, IsTime, Kept, Worth, Cut, Within, Picks, Timeless;
    var at := KeptPlaces(found);
    if Kept(found) == [] {
      NoneWorth(found, at);
      at := seq(|found|, i requires 0 <= i < |found| => i);
      AllPlaces(found, at);
      CutPicks(found, found, at, limit);
    } else {
      SomeWorth(found, at);
      CutPicks(Kept(found), found, at, limit);
    }
  }

  lemma NoneWorth(found: seq<Row>, at: seq<nat>)
    requires at == [] && InOrder(at, Timeless(found))
    ensures forall i: nat :: i in Worth(found) <==> i < |found|
  {
    hide IsTime;
    forall i: nat | i < |found| ensures IsTime(found[i]) {
      assert i in Timeless(found) ==> i in at;
    }
  }

  lemma SomeWorth(found: seq<Row>, at: seq<nat>)
    requires at != [] && InOrder(at, Timeless(found))
    ensures InOrder(at, Worth(found))
  {
    hide IsTime;
    assert at[0] in at;
    assert Worth(found) == Timeless(found);
  }

  lemma AllPlaces(found: seq<Row>, at: seq<nat>)
    requires |at| == |found| && forall i :: 0 <= i < |at| ==> at[i] == i
    requires forall i: nat :: i in Worth(found) <==> i < |found|
    ensures InOrder(at, Worth(found)) && Picks(found, found, at)
  {
    hide Worth;
    forall i: nat | i < |found| ensures i in at { assert at[i] == i; }
  }

  lemma CutPicks(rows: seq<Row>, found: seq<Row>, at: seq<nat>, limit: int)
    requires |rows| == |at| && Picks(rows, found, at)
    ensures |Cut(rows, limit)| == Within(|at|, limit) && Picks(Cut(rows, limit), found, at)
  {
  }

  /** `snapshot_differences`: the timestamp rows are hidden, unless that would hide every row. */
  method SnapshotDifferences(mine: map<string, Json>, theirs: map<string, Json>, limit: int)
    returns (shown: seq<Row>, ghost found: seq<Row>)
    ensures ListsRows(found, if "collections" in mine then mine["collections"] else Obj(map[]),
        if "collections" in theirs then theirs["collections"] else Obj(map[]), ["collections"])
    ensures forall row :: row in found ==> row.path != []
    ensures shown == Cut(if Kept(found) == [] then found else Kept(found), limit)
    ensures limit > 0 ==> (shown == [] <==> PyEqual(Shorn(Collections(mine)), Shorn(Collections(theirs))))
  {
    hide Shorn, PyEqual, Reported;
    var report := new Report();
    report.Diff(Collections(mine), Collections(theirs), [COLLECTIONS]);
    found := report.rows;
    assert report.rows[0..] == report.rows;
    FoundExactlyWhenDifferent(found, Collections(mine), Collections(theirs), [COLLECTIONS]);
    forall row | row in found ensures row.path != [] {
      assert Found(row, Collections(mine), Collections(theirs), [COLLECTIONS]);
    }
    var kept := Kept(report.rows);
    shown := Cut(if kept == [] then report.rows else kept, limit);
  }
}
