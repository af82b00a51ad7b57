/** References between schemas: finding them, and rewriting them (`_schema_refs`, `_rewrite_refs`). */
module References {
  import opened JsonTree

  const SCHEMA_REF_PREFIX := "#/components/schemas/"

  // A member `"$ref": "#/components/schemas/<name>"` of an object.
  predicate IsSchemaRef(key: string, value: Json) {
    key == "$ref" && value.Str? && HasPrefix(value.text, SCHEMA_REF_PREFIX)
  }

  function RefTo(name: string): Json {
    Str(SCHEMA_REF_PREFIX + name)
  }

  function RefName(value: Json): (name: string)
    requires IsSchemaRef("$ref", value)
    ensures RefTo(name) == value
  {
    value.text[|SCHEMA_REF_PREFIX|..]
  }

  // Every name referenced anywhere under `node`.
  function Refs(node: Json): set<string>
    decreases node, 0
  {
    match node
    case Obj(fields) => set key, name | key in fields.Keys && name in RefsAt(key, fields[key]) :: name
    case Arr(items) => set i, name | 0 <= i < |items| && name in Refs(items[i]) :: name
    case _ => {}
  }

  function RefsAt(key: string, value: Json): set<string>
    decreases value, 1
  {
    if IsSchemaRef(key, value) then {RefName(value)} else Refs(value)
  }

  lemma MemberRefs(node: Json, key: string)
    requires node.Obj? && key in node.fields
    ensures RefsAt(key, node.fields[key]) <= Refs(node)
  {
  }

  lemma ItemRefs(node: Json, i: nat)
    requires node.Arr? && i < |node.items|
    ensures Refs(node.items[i]) <= Refs(node)
  {
  }

  function NewName(name: string, rename: map<string, string>): string {
    if name in rename then rename[name] else name
  }

  // The rewriter `_namespacing(rename)`: only a renamed schema's reference changes.
  function Namespaced(ref: string, rename: map<string, string>): string {
    if HasPrefix(ref, SCHEMA_REF_PREFIX) then
      var name := ref[|SCHEMA_REF_PREFIX|..];
      if name in rename then SCHEMA_REF_PREFIX + rename[name] else ref
    else ref
  }

  function Rewrite(node: Json, rename: map<string, string>): Json
    decreases node, 0
  {
    match node
    case Obj(fields) => Obj(map key | key in fields.Keys :: RewriteAt(key, fields[key], rename))
    case Arr(items) => Arr(seq(|items|, i requires 0 <= i < |items| => Rewrite(items[i], rename)))
    case _ => node
  }

  function RewriteAt(key: string, value: Json, rename: map<string, string>): Json
    decreases value, 1
  {
    if key == "$ref" && value.Str? then Str(Namespaced(value.text, rename)) else Rewrite(value, rename)
  }

  // A rewritten node refers to exactly the new names of what it referred to.
  lemma {:induction false} RewriteRefs(node: Json, rename: map<string, string>, name: string)
    ensures name in Refs(Rewrite(node, rename)) <==> exists old_ :: old_ in Refs(node) && name == NewName(old_, rename)
    decreases node, 0
  {
    match node
    case Obj(fields) =>
      var out := Rewrite(node, rename).fields;
      forall key | key in fields.Keys
        ensures name in RefsAt(key, out[key])
            <==> exists o :: o in RefsAt(key, fields[key]) && name == NewName(o, rename)
      {
        RewriteRefsAt(key, fields[key], rename, name);
      }
      assert forall key :: key in out.Keys <==> key in fields.Keys;
      if name in Refs(Rewrite(node, rename)) {
        var key :| key in out.Keys && name in RefsAt(key, out[key]);
        var o :| o in RefsAt(key, fields[key]) && name == NewName(o, rename);
        assert o in Refs(node);
      }
      if o :| o in Refs(node) && name == NewName(o, rename) {
        var key :| key in fields.Keys && o in RefsAt(key, fields[key]);
        assert name in RefsAt(key, out[key]);
      }
    case Arr(items) =>
      var out := Rewrite(node, rename).items;
      forall i | 0 <= i < |items|
        ensures name in Refs(out[i]) <==> exists o :: o in Refs(items[i]) && name == NewName(o, rename)
      {
        RewriteRefs(items[i], rename, name);
      }
      if name in Refs(Rewrite(node, rename)) {
        var i :| 0 <= i < |out| && name in Refs(out[i]);
        var o :| o in Refs(items[i]) && name == NewName(o, rename);
        assert o in Refs(node);
      }
      if o :| o in Refs(node) && name == NewName(o, rename) {
        var i :| 0 <= i < |items| && o in Refs(items[i]);
        assert name in Refs(out[i]);
      }
    case _ =>
  }

  lemma {:induction false} RewriteRefsAt(key: string, value: Json, rename: map<string, string>, name: string)
    ensures name in RefsAt(key, RewriteAt(key, value, rename))
        <==> exists o :: o in RefsAt(key, value) && name == NewName(o, rename)
    decreases value, 1
  {
    if IsSchemaRef(key, value) {
      var out := RewriteAt(key, value, rename);
      assert out == RefTo(NewName(RefName(value), rename));
      assert IsSchemaRef(key, out);
      assert RefName(out) == NewName(RefName(value), rename);
      assert RefsAt(key, value) == {RefName(value)};
    } else if key == "$ref" && value.Str? {
    } else {
      RewriteRefs(value, rename, name);
    }
  }

  // A rename that touches no reference of a node leaves the node alone.
  lemma {:induction false} RewriteIdle(node: Json, rename: map<string, string>)
    requires Refs(node) !! rename.Keys
    ensures Rewrite(node, rename) == node
    decreases node, 0
  {
    match node
    case Obj(fields) =>
      forall key | key in fields.Keys ensures RewriteAt(key, fields[key], rename) == fields[key] {
        assert RefsAt(key, fields[key]) <= Refs(node);
        if IsSchemaRef(key, fields[key]) {
          assert RefName(fields[key]) in RefsAt(key, fields[key]);
        } else if !(key == "$ref" && fields[key].Str?) {
          RewriteIdle(fields[key], rename);
        }
      }
      assert Rewrite(node, rename).fields == fields;
    case Arr(items) =>
      forall i | 0 <= i < |items| ensures Rewrite(items[i], rename) == items[i] {
        assert Refs(items[i]) <= Refs(node);
        RewriteIdle(items[i], rename);
      }
    case _ =>
  }

  // Documents that Python finds equal refer to the same names.
  lemma {:induction false} PyEqualRefs(a: Json, b: Json)
    requires PyEqual(a, b)
    ensures Refs(a) == Refs(b)
  {
    match a
    case Obj(fields) =>
      PyEqualObj(a, b);
      forall key | key in fields.Keys ensures RefsAt(key, fields[key]) == RefsAt(key, b.fields[key]) {
        assert PyEqual(fields[key], b.fields[key]);
        if !IsSchemaRef(key, fields[key]) { PyEqualRefs(fields[key], b.fields[key]); }
      }
    case Arr(items) =>
      PyEqualArr(a, b);
      forall i | 0 <= i < |items| ensures Refs(items[i]) == Refs(b.items[i]) {
        PyEqualRefs(items[i], b.items[i]);
      }
    case _ =>
  }

  // A rename that lengthens names changes every node that refers to a renamed name.
  lemma RewriteDiffers(node: Json, rename: map<string, string>, name: string)
    requires name in Refs(node) && name in rename
    requires forall n :: n in rename ==> |rename[n]| > |n|
    ensures !PyEqual(Rewrite(node, rename), node)
  {
    if PyEqual(Rewrite(node, rename), node) {
      PyEqualRefs(Rewrite(node, rename), node);
      NoShortestRenamed(node, rename, name);
    }
  }

  // Were the rewritten references the old ones, each renamed one would be the new name of a shorter one.
  lemma {:induction false} NoShortestRenamed(node: Json, rename: map<string, string>, name: string)
    requires name in Refs(node) && name in rename
    requires forall n :: n in rename ==> |rename[n]| > |n|
    requires Refs(Rewrite(node, rename)) == Refs(node)
    ensures false
    decreases |name|
  {
    RewriteRefs(node, rename, name);
    var shorter :| shorter in Refs(node) && name == NewName(shorter, rename);
    NoShortestRenamed(node, rename, shorter);
  }
}
