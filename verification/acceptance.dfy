/** What a schema accepts, and that cleaning does not change it. */
module Acceptance {
  import opened Wrappers
  import opened JsonTree
  import opened References
  import opened Cleaning
  import opened Positions

  /**
   The parts of a validator this model does not look into: whether a value satisfies the keywords of one
   schema object that hold no schema, whether a name matches a pattern, and what a reference that is not
   to a schema of the document accepts.
   */
  datatype Validator = Validator(
    holds: (map<string, Json>, Json) -> bool,
    matches: (string, string) -> bool,
    elsewhere: (string, Json) -> bool)

  // All the model needs of `holds`: no keyword accepts everything, and `{"enum": [null]}` accepts null alone.
  ghost predicate Sane(o: Validator) {
    && (forall v :: o.holds(map[], v))
    && (forall v :: o.holds(map["enum" := Arr([Null])], v) <==> v == Null)
  }

  // A validator to which annotations say nothing, whatever stands in them.
  ghost predicate Silent(o: Validator) {
    forall a, b, v :: AlikeButAnnotations(a, b) ==> (o.holds(a, v) <==> o.holds(b, v))
  }

  ghost predicate AlikeButAnnotations(a: map<string, Json>, b: map<string, Json>) {
    forall key :: !Annotation(key) ==> (key in a <==> key in b) && (key in a ==> a[key] == b[key])
  }

  /**
   How a schema is read. Standard is an OAS 3.0 validator: what stands beside a `$ref` is ignored. Vendor is what the
   vendor's own schema means, nothing of it taken away: a mapped extension is its keyword where the object does not have
   that, and a reference beside `nullable: true` is null or its target.
   */
  datatype Reading = Standard | Vendor(ext: Extensions)

  // Where references lead: seen from a place, a name leads to a schema and the place that one is read in, or nowhere.
  datatype Env = Env(find: Finder, at: nat)

  type Finder = (nat, string) -> Option<(Json, nat)>

  // One document, where every name is what it is everywhere.
  function Whole(schemas: map<string, Json>): Env {
    Env((at: nat, name: string) => if name in schemas then Some((schemas[name], 0)) else None, 0)
  }

  function Seen(fields: map<string, Json>, reading: Reading): (seen: map<string, Json>)
    ensures forall key :: key in seen ==> seen[key] in fields.Values
  {
    match reading
    case Standard => fields
    case Vendor(ext) => fields + Supplied(fields, ext)
  }

  function LeafKeywords(fields: map<string, Json>): map<string, Json> {
    map key | key in fields.Keys && HoldingOf(key) == Plain :: fields[key]
  }

  /**
   Whether `node` accepts `v` when references are followed to depth `k`; below that, any value is accepted. A number
   where a schema should stand is read as the flag Python finds it equal to, and anything else there as `true`.
   */
  ghost predicate Accepts(k: nat, node: Json, v: Json, env: Env, o: Validator, reading: Reading)
    decreases k, 1, node, 1
  {
    match node
    case Bool(flag) => flag
    case Num(value) => value != 0.0
    case Obj(fields) =>
      var seen := Seen(fields, reading);
      if "$ref" in seen && seen["$ref"].Str? then
        || (reading.Vendor? && "nullable" in seen && seen["nullable"] == Bool(true) && v == Null)
        || TargetAccepts(k, seen["$ref"], v, env, o, reading)
      else
        && o.holds(LeafKeywords(seen), v)
        && forall key :: key in seen && HoldingOf(key) != Plain ==>
             (SeenBelow(fields, key, reading);
              KeywordAccepts(k, key, seen[key], seen, v, env, o, reading))
    case _ => true
  }

  lemma SeenBelow(fields: map<string, Json>, key: string, reading: Reading)
    requires key in Seen(fields, reading)
    ensures Seen(fields, reading)[key] < Obj(fields)
  {
    var from :| from in fields && fields[from] == Seen(fields, reading)[key];
  }

  ghost predicate TargetAccepts(k: nat, ref: Json, v: Json, env: Env, o: Validator, reading: Reading)
    requires ref.Str?
    decreases k, 0
  {
    if !IsSchemaRef("$ref", ref) then o.elsewhere(ref.text, v)
    else
      var target := env.find(env.at, RefName(ref));
      if k == 0 || target.None? then true
      else Accepts(k - 1, target.value.0, v, Env(env.find, target.value.1), o, reading)
  }

  // Whether `name` is a member the object's `properties` or `patternProperties` speak about.
  predicate Spoken(fields: map<string, Json>, name: string, o: Validator) {
    || ("properties" in fields && fields["properties"].Obj? && name in fields["properties"].fields)
    || ("patternProperties" in fields && fields["patternProperties"].Obj?
        && exists pattern :: pattern in fields["patternProperties"].fields.Keys && o.matches(pattern, name))
  }

  // A schema-bearing keyword of an object that is read as `seen`.
  ghost predicate KeywordAccepts(k: nat, key: string, value: Json, seen: map<string, Json>, v: Json,
                                 env: Env, o: Validator, reading: Reading)
    decreases k, 1, value, 4
  {
    match HoldingOf(key)
    case Named =>
      value.Obj? && v.Obj? ==>
        forall name, member :: name in value.fields && member in v.fields
          && (if key == "properties" then member == name else o.matches(name, member))
          ==> Accepts(k, value.fields[name], v.fields[member], env, o, reading)
    case Single => SingleAccepts(k, key, value, seen, v, env, o, reading)
    case List => value.Arr? ==> ListAccepts(k, key, value.items, v, env, o, reading)
    case Plain => true
  }

  ghost predicate SingleAccepts(k: nat, key: string, value: Json, seen: map<string, Json>, v: Json,
                                env: Env, o: Validator, reading: Reading)
    decreases k, 1, value, 3
  {
    if key == "not" then !Accepts(k, value, v, env, o, reading)
    else if key == "items" then
      v.Arr? ==> forall i :: 0 <= i < |v.items| ==> ItemAccepts(k, value, i, v.items[i], env, o, reading)
    else
      v.Obj? ==>
        forall member :: member in v.fields && !Spoken(seen, member, o)
          ==> Accepts(k, value, v.fields[member], env, o, reading)
  }

  // `items` is one schema for every element, or a list with a schema for each position.
  ghost predicate ItemAccepts(k: nat, value: Json, i: nat, v: Json,
                              env: Env, o: Validator, reading: Reading)
    decreases k, 1, value, 2
  {
    if value.Arr? then i < |value.items| ==> Accepts(k, value.items[i], v, env, o, reading)
    else Accepts(k, value, v, env, o, reading)
  }

  ghost predicate ListAccepts(k: nat, key: string, items: seq<Json>, v: Json,
                              env: Env, o: Validator, reading: Reading)
    decreases k, 1, Arr(items), 0
  {
    if key == "allOf" then forall i :: 0 <= i < |items| ==> Accepts(k, items[i], v, env, o, reading)
    else if key == "anyOf" then exists i :: 0 <= i < |items| && Accepts(k, items[i], v, env, o, reading)
    else
      exists i :: 0 <= i < |items| && Accepts(k, items[i], v, env, o, reading)
        && forall j :: 0 <= j < |items| && j != i ==> !Accepts(k, items[j], v, env, o, reading)
  }

  // ----- cleaning preserves acceptance

  function CleanedEnv(env: Env, ext: Extensions): Env {
    Env(CleanedFinder(env.find, ext), env.at)
  }

  function CleanedFinder(find: Finder, ext: Extensions): Finder {
    (at: nat, name: string) =>
      if find(at, name).Some? then Some((Cleaned(find(at, name).value.0, ext), find(at, name).value.1)) else None
  }

  // No extension stands for a keyword that holds schemas, which would be copied without being cleaned.
  ghost predicate TargetsPlain(ext: Extensions) {
    forall key :: key in ext.target ==> ext.target[key] == key || HoldingOf(ext.target[key]) == Plain
  }

  ghost predicate Sound(o: Validator, ext: Extensions) {
    Sane(o) && Silent(o) && Declared(ext) && TargetsPlain(ext)
  }

  // What a standard validator accepts of the cleaned schema is what the vendor's own means.
  ghost predicate Preserves(k: nat, node: Json, v: Json, env: Env, o: Validator, ext: Extensions) {
    Accepts(k, Cleaned(node, ext), v, CleanedEnv(env, ext), o, Standard) <==> Accepts(k, node, v, env, o, Vendor(ext))
  }

  /**
   At every depth, for every sane validator to which annotations say nothing: exactly when every mapped extension stands
   for a plain keyword.
   */
  lemma AcceptancePreservedExactlyWhen(ext: Extensions)
    requires Declared(ext)
    ensures (forall k: nat, node, v, env, o :: Sane(o) && Silent(o) ==> Preserves(k, node, v, env, o, ext))
       <==> TargetsPlain(ext)
  {
    if TargetsPlain(ext) {
      forall k: nat, node, v, env, o | Sane(o) && Silent(o) ensures Preserves(k, node, v, env, o, ext) {
        CleaningPreservesAcceptance(k, node, v, env, o, ext);
      }
    } else {
      var key :| key in ext.target && ext.target[key] != key && HoldingOf(ext.target[key]) != Plain;
      HoldingTargetLosesMeaning(key, ext);
    }
  }

  lemma {:induction false} CleaningPreservesAcceptance(k: nat, node: Json, v: Json, env: Env,
                                                       o: Validator, ext: Extensions)
    requires Sound(o, ext)
    ensures Accepts(k, Cleaned(node, ext), v, CleanedEnv(env, ext), o, Standard)
       <==> Accepts(k, node, v, env, o, Vendor(ext))
    decreases k, 1, node, 1
  {
    hide HoldingOf, CleanedFields, CleanedAt, KeywordAccepts, TargetAccepts;
    if node.Obj? { ObjectPreserved(k, node.fields, v, env, o, ext); }
  }

  lemma ObjectPreserved(k: nat, fields: map<string, Json>, v: Json, env: Env, o: Validator,
                        ext: Extensions)
    requires Sound(o, ext)
    ensures Accepts(k, Cleaned(Obj(fields), ext), v, CleanedEnv(env, ext), o, Standard)
       <==> Accepts(k, Obj(fields), v, env, o, Vendor(ext))
    decreases k, 1, Obj(fields), 0
  {
    var out, seen := CleanedFields(fields, ext), Seen(fields, Vendor(ext));
    SeenByStandard(out);
    hide Seen, CleanedFields, Sane, Silent, Declared, TargetsPlain, Annotation;
    PlainKeywordsAgree(fields, v, o, ext);
    PlainRef();
    assert Cleaned(Obj(fields), ext) == FoldNullableRef(out);
    hide HoldingOf, Cleaned, KeywordAccepts, TargetAccepts, Accepts, LeafKeywords, CleanedEnv;
    if "$ref" in seen && seen["$ref"].Str? {
      TargetPreserved(k, seen["$ref"], v, env, o, ext);
      RefObjectAccepts(k, fields, v, env, o, Vendor(ext));
      if IsNullableRef(out) {
        FoldedAccepts(k, out, v, CleanedEnv(env, ext), o);
      } else {
        RefObjectAccepts(k, out, v, CleanedEnv(env, ext), o, Standard);
      }
    } else {
      StructurePreserved(k, fields, v, env, o, ext);
      ObjectAccepts(k, fields, v, env, o, Vendor(ext));
      ObjectAccepts(k, out, v, CleanedEnv(env, ext), o, Standard);
    }
  }

  lemma RefObjectAccepts(k: nat, fields: map<string, Json>, v: Json, env: Env, o: Validator,
                         reading: Reading)
    requires var seen := Seen(fields, reading); "$ref" in seen && seen["$ref"].Str?
    ensures var seen := Seen(fields, reading);
            Accepts(k, Obj(fields), v, env, o, reading)
            <==> || (reading.Vendor? && IsNullableRef(seen) && v == Null)
                 || TargetAccepts(k, seen["$ref"], v, env, o, reading)
  {
    hide HoldingOf, KeywordAccepts, Seen, LeafKeywords, TargetAccepts;
  }

  lemma ObjectAccepts(k: nat, fields: map<string, Json>, v: Json, env: Env, o: Validator,
                      reading: Reading)
    requires var seen := Seen(fields, reading); !("$ref" in seen && seen["$ref"].Str?)
    ensures var seen := Seen(fields, reading);
            Accepts(k, Obj(fields), v, env, o, reading)
            <==> o.holds(LeafKeywords(seen), v)
                 && forall key :: key in seen && HoldingOf(key) != Plain ==>
                    KeywordAccepts(k, key, seen[key], seen, v, env, o, reading)
  {
    hide HoldingOf, KeywordAccepts, Seen, LeafKeywords, TargetAccepts;
  }

  lemma StructurePreserved(k: nat, fields: map<string, Json>, v: Json, env: Env, o: Validator,
                           ext: Extensions)
    requires Sound(o, ext)
    ensures var out := CleanedFields(fields, ext); var seen := Seen(fields, Vendor(ext));
            forall key :: HoldingOf(key) != Plain ==>
              && (key in out <==> key in seen)
              && (key in seen ==>
                    (KeywordAccepts(k, key, out[key], out, v, CleanedEnv(env, ext), o, Standard)
                     <==> KeywordAccepts(k, key, seen[key], seen, v, env, o, Vendor(ext))))
    decreases k, 1, Obj(fields), 0, 1
  {
    hide HoldingOf, Seen, CleanedFields, CleanedAt, KeywordAccepts;
    var out := CleanedFields(fields, ext);
    var seen := Seen(fields, Vendor(ext));
    forall key | HoldingOf(key) != Plain
      ensures key in out <==> key in seen
      ensures key in seen ==>
                (KeywordAccepts(k, key, out[key], out, v, CleanedEnv(env, ext), o, Standard)
                 <==> KeywordAccepts(k, key, seen[key], seen, v, env, o, Vendor(ext)))
    {
      StructuralAgrees(fields, key, ext);
      if key in seen { KeywordPreserved(k, key, fields, v, env, o, ext); }
    }
  }

  lemma SeenByStandard(fields: map<string, Json>)
    ensures Seen(fields, Standard) == fields
  {
  }

  // The plain keywords survive with their values, but for annotations, and a nullable reference stays one.
  lemma PlainKeywordsAgree(fields: map<string, Json>, v: Json, o: Validator, ext: Extensions)
    requires Silent(o) && Declared(ext) && TargetsPlain(ext)
    ensures var out := CleanedFields(fields, ext); var seen := Seen(fields, Vendor(ext));
            && (o.holds(LeafKeywords(out), v) <==> o.holds(LeafKeywords(seen), v))
            && ("$ref" in out <==> "$ref" in seen) && ("$ref" in out ==> out["$ref"] == seen["$ref"])
            && (IsNullableRef(out) <==> IsNullableRef(seen))
  {
    hide HoldingOf, CleanedFields, Seen, Annotation, Declared, TargetsPlain;
    var out := CleanedFields(fields, ext);
    var seen := Seen(fields, Vendor(ext));
    forall key | HoldingOf(key) == Plain && !Annotation(key)
      ensures key in out <==> key in seen
      ensures key in out ==> out[key] == seen[key]
    {
      PlainKeywordAgrees(fields, key, ext);
    }
    PlainRef();
    assert AlikeButAnnotations(LeafKeywords(out), LeafKeywords(seen));
  }

  lemma PlainKeywordAgrees(fields: map<string, Json>, key: string, ext: Extensions)
    requires Declared(ext) && HoldingOf(key) == Plain && !Annotation(key)
    ensures var out := CleanedFields(fields, ext); var seen := Seen(fields, Vendor(ext));
            (key in out <==> key in seen) && (key in out ==> out[key] == seen[key])
  {
    hide HoldingOf, Supplied, Annotation, CleanedAt, Declared;
    DroppedIsAnnotation(key, ext);
    MappedIsPlain(key, ext);
    SuppliedIsNew(fields, ext, key);
    CopiedAt(key, fields, ext);
  }

  lemma CopiedAt(key: string, fields: map<string, Json>, ext: Extensions)
    requires HoldingOf(key) == Plain
    ensures key in fields ==> CleanedAt(key, fields[key], ext) == fields[key]
  {
  }

  lemma SuppliedIsNew(fields: map<string, Json>, ext: Extensions, key: string)
    ensures key in Supplied(fields, ext) ==> key !in fields
  {
  }

  lemma PlainRef()
    ensures HoldingOf("$ref") == Plain && HoldingOf("nullable") == Plain && HoldingOf("enum") == Plain
    ensures !Annotation("$ref") && !Annotation("nullable") && !Annotation("enum")
  {
    var none := Extensions(map[], fields => []);
    DroppedIsAnnotation("$ref", none);
    DroppedIsAnnotation("nullable", none);
    DroppedIsAnnotation("enum", none);
  }

  // The schema-bearing keywords are the object's own, cleaned.
  lemma StructuralAgrees(fields: map<string, Json>, key: string, ext: Extensions)
    requires Declared(ext) && TargetsPlain(ext) && HoldingOf(key) != Plain
    ensures var out := CleanedFields(fields, ext); var seen := Seen(fields, Vendor(ext));
            && (key in out <==> key in fields) && (key in seen <==> key in fields)
            && (key in fields ==> seen[key] == fields[key] && out[key] == CleanedAt(key, fields[key], ext))
  {
    hide CleanedAt, Supplied, HoldingOf, Declared, Annotation;
    DroppedIsAnnotation(key, ext);
    NamesNoAnnotation(key);
    MappedIsPlain(key, ext);
    SuppliedIsPlain(fields, ext, key);
  }

  lemma NamesNoAnnotation(key: string)
    ensures HoldingOf(key) != Plain ==> !Annotation(key)
  {
    DroppedIsAnnotation(key, Extensions(map[], fields => []));
  }

  lemma SuppliedIsPlain(fields: map<string, Json>, ext: Extensions, t: string)
    requires Declared(ext) && TargetsPlain(ext)
    ensures t in Supplied(fields, ext) ==> HoldingOf(t) == Plain && t !in fields
  {
    hide HoldingOf;
    if t in Supplied(fields, ext) {
      var from := LastOnto(ext.order(fields), ext.target, t);
      assert from in ext.target && ext.target[from] == t && from in fields;
    }
  }

  lemma TargetPreserved(k: nat, ref: Json, v: Json, env: Env, o: Validator, ext: Extensions)
    requires Sound(o, ext) && ref.Str?
    ensures TargetAccepts(k, ref, v, CleanedEnv(env, ext), o, Standard)
       <==> TargetAccepts(k, ref, v, env, o, Vendor(ext))
    decreases k, 0
  {
    hide Accepts, Cleaned;
    if IsSchemaRef("$ref", ref) && k > 0 && env.find(env.at, RefName(ref)).Some? {
      var target := env.find(env.at, RefName(ref)).value;
      CleaningPreservesAcceptance(k - 1, target.0, v, Env(env.find, target.1), o, ext);
    }
  }

  // The folded choice accepts null and whatever the reference accepts.
  lemma FoldedAccepts(k: nat, fields: map<string, Json>, v: Json, env: Env, o: Validator)
    requires Sane(o) && IsNullableRef(fields)
    ensures Accepts(k, FoldNullableRef(fields), v, env, o, Standard)
       <==> v == Null || TargetAccepts(k, fields["$ref"], v, env, o, Standard)
  {
    var ref := Obj(map["$ref" := fields["$ref"]]);
    var branches := [ref, NULL_BRANCH];
    RefAccepts(k, fields["$ref"], v, env, o);
    NullBranchAccepts(k, v, env, o);
    assert ListAccepts(k, "anyOf", branches, v, env, o, Standard)
      <==> Accepts(k, branches[0], v, env, o, Standard) || Accepts(k, branches[1], v, env, o, Standard);
    AnyOfAccepts(k, branches, v, env, o);
  }

  lemma RefAccepts(k: nat, ref: Json, v: Json, env: Env, o: Validator)
    requires ref.Str?
    ensures Accepts(k, Obj(map["$ref" := ref]), v, env, o, Standard) <==> TargetAccepts(k, ref, v, env, o, Standard)
  {
    hide HoldingOf, TargetAccepts, KeywordAccepts;
    SeenByStandard(map["$ref" := ref]);
  }

  lemma AnyOfAccepts(k: nat, branches: seq<Json>, v: Json, env: Env, o: Validator)
    requires Sane(o)
    ensures Accepts(k, Obj(map["anyOf" := Arr(branches)]), v, env, o, Standard)
       <==> ListAccepts(k, "anyOf", branches, v, env, o, Standard)
  {
    var fields := map["anyOf" := Arr(branches)];
    assert HoldingOf("anyOf") == List;
    hide HoldingOf, ListAccepts;
    SeenByStandard(fields);
    assert LeafKeywords(fields) == map[];
    assert KeywordAccepts(k, "anyOf", fields["anyOf"], fields, v, env, o, Standard)
      <==> ListAccepts(k, "anyOf", branches, v, env, o, Standard);
  }

  lemma NullBranchAccepts(k: nat, v: Json, env: Env, o: Validator)
    requires Sane(o)
    ensures Accepts(k, NULL_BRANCH, v, env, o, Standard) <==> v == Null
  {
    var fields := map["enum" := Arr([Null])];
    PlainRef();
    hide HoldingOf;
    SeenByStandard(fields);
    assert LeafKeywords(fields) == fields;
  }

  lemma SpokenPreserved(fields: map<string, Json>, name: string, o: Validator, ext: Extensions)
    requires Declared(ext) && TargetsPlain(ext)
    ensures Spoken(CleanedFields(fields, ext), name, o) <==> Spoken(Seen(fields, Vendor(ext)), name, o)
  {
    NamesPreserved(fields, "properties", ext);
    NamesPreserved(fields, "patternProperties", ext);
    StructuralAgrees(fields, "properties", ext);
    StructuralAgrees(fields, "patternProperties", ext);
    hide Seen, CleanedFields;
  }

  // Cleaning strips keywords, never the names of properties or patterns.
  lemma NamesPreserved(fields: map<string, Json>, key: string, ext: Extensions)
    requires Declared(ext) && TargetsPlain(ext) && HoldingOf(key) == Named
    ensures key in CleanedFields(fields, ext) <==> key in fields
    ensures key in fields ==>
              var value := CleanedFields(fields, ext)[key];
              (value.Obj? <==> fields[key].Obj?) && (value.Obj? ==> value.fields.Keys == fields[key].fields.Keys)
  {
    hide Seen, CleanedFields, Declared, TargetsPlain, Cleaned;
    StructuralAgrees(fields, key, ext);
  }

  lemma KeywordPreserved(k: nat, key: string, fields: map<string, Json>, v: Json,
                         env: Env, o: Validator, ext: Extensions)
    requires Sound(o, ext) && key in fields && HoldingOf(key) != Plain
    requires key in CleanedFields(fields, ext) && key in Seen(fields, Vendor(ext))
    ensures KeywordAccepts(k, key, CleanedFields(fields, ext)[key], CleanedFields(fields, ext), v,
        CleanedEnv(env, ext), o, Standard)
       <==> KeywordAccepts(k, key, Seen(fields, Vendor(ext))[key], Seen(fields, Vendor(ext)), v, env, o, Vendor(ext))
    decreases k, 1, Obj(fields), 0, 0
  {
    hide CleanedFields, Seen, Sane, Silent, Declared, TargetsPlain, CleanedEnv;
    StructuralAgrees(fields, key, ext);
    var value := fields[key];
    var out, seen := CleanedFields(fields, ext), Seen(fields, Vendor(ext));
    match HoldingOf(key)
    case Named => NamedPreserved(k, key, value, out, seen, v, env, o, ext);
    case Single =>
      forall member
        ensures Spoken(out, member, o) <==> Spoken(seen, member, o)
      {
        SpokenPreserved(fields, member, o, ext);
      }
      SinglePreserved(k, key, value, out, seen, v, env, o, ext);
    case List =>
      hide HoldingOf, ListAccepts;
      if value.Arr? { ListPreserved(k, key, value.items, v, env, o, ext); }
  }

  lemma NamedPreserved(k: nat, key: string, value: Json, out: map<string, Json>, seen: map<string, Json>, v: Json,
                       env: Env, o: Validator, ext: Extensions)
    requires Sound(o, ext) && HoldingOf(key) == Named
    ensures KeywordAccepts(k, key, CleanedAt(key, value, ext), out, v, CleanedEnv(env, ext), o, Standard)
       <==> KeywordAccepts(k, key, value, seen, v, env, o, Vendor(ext))
    decreases k, 1, value, 3
  {
    hide HoldingOf, Accepts, Cleaned;
    if value.Obj? && v.Obj? {
      var cleaned := CleanedAt(key, value, ext).fields;
      assert cleaned.Keys == value.fields.Keys;
      forall name, member | name in value.fields && member in v.fields
        ensures Accepts(k, cleaned[name], v.fields[member], CleanedEnv(env, ext), o, Standard)
           <==> Accepts(k, value.fields[name], v.fields[member], env, o, Vendor(ext))
      {
        CleaningPreservesAcceptance(k, value.fields[name], v.fields[member], env, o, ext);
      }
    }
  }

  lemma SinglePreserved(k: nat, key: string, value: Json, out: map<string, Json>, seen: map<string, Json>, v: Json,
                        env: Env, o: Validator, ext: Extensions)
    requires Sound(o, ext) && HoldingOf(key) == Single
    requires forall member :: Spoken(out, member, o) <==> Spoken(seen, member, o)
    ensures KeywordAccepts(k, key, CleanedAt(key, value, ext), out, v, CleanedEnv(env, ext), o, Standard)
       <==> KeywordAccepts(k, key, value, seen, v, env, o, Vendor(ext))
    decreases k, 1, value, 3
  {
    hide HoldingOf, CleanedAt, Cleaned, Accepts, Spoken, ItemAccepts, CleanedEnv, Sane, Declared, TargetsPlain;
    SingleCleaned(key, value, ext);
    SingleKeyword(k, key, Cleaned(value, ext), out, v, CleanedEnv(env, ext), o, Standard);
    SingleKeyword(k, key, value, seen, v, env, o, Vendor(ext));
    hide KeywordAccepts;
    if key == "not" {
      CleaningPreservesAcceptance(k, value, v, env, o, ext);
    } else if key == "items" {
      if v.Arr? { ItemsPreserved(k, value, v.items, env, o, ext); }
    } else if v.Obj? {
      MembersPreserved(k, value, v.fields, env, o, ext);
    }
  }

  lemma SingleKeyword(k: nat, key: string, value: Json, seen: map<string, Json>, v: Json, env: Env,
                      o: Validator,
                      reading: Reading)
    requires HoldingOf(key) == Single
    ensures KeywordAccepts(k, key, value, seen, v, env, o, reading)
        <==> SingleAccepts(k, key, value, seen, v, env, o, reading)
  {
    hide HoldingOf, SingleAccepts;
  }

  lemma SingleCleaned(key: string, value: Json, ext: Extensions)
    requires HoldingOf(key) == Single
    ensures CleanedAt(key, value, ext) == Cleaned(value, ext)
  {
    hide HoldingOf, Cleaned;
  }

  lemma ItemsPreserved(k: nat, value: Json, items: seq<Json>, env: Env, o: Validator, ext: Extensions)
    requires Sound(o, ext)
    ensures forall i :: 0 <= i < |items| ==>
              (ItemAccepts(k, Cleaned(value, ext), i, items[i], CleanedEnv(env, ext), o, Standard)
               <==> ItemAccepts(k, value, i, items[i], env, o, Vendor(ext)))
    decreases k, 1, value, 2, 1
  {
    hide Cleaned, ItemAccepts, CleanedEnv;
    forall i | 0 <= i < |items|
      ensures ItemAccepts(k, Cleaned(value, ext), i, items[i], CleanedEnv(env, ext), o, Standard)
         <==> ItemAccepts(k, value, i, items[i], env, o, Vendor(ext))
    {
      ItemPreserved(k, value, i, items[i], env, o, ext);
    }
  }

  lemma MembersPreserved(k: nat, value: Json, members: map<string, Json>, env: Env, o: Validator,
                         ext: Extensions)
    requires Sound(o, ext)
    ensures forall member :: member in members ==>
              (Accepts(k, Cleaned(value, ext), members[member], CleanedEnv(env, ext), o, Standard)
               <==> Accepts(k, value, members[member], env, o, Vendor(ext)))
    decreases k, 1, value, 2
  {
    hide Cleaned, Accepts, CleanedEnv;
    forall member | member in members
      ensures Accepts(k, Cleaned(value, ext), members[member], CleanedEnv(env, ext), o, Standard)
         <==> Accepts(k, value, members[member], env, o, Vendor(ext))
    {
      CleaningPreservesAcceptance(k, value, members[member], env, o, ext);
    }
  }

  lemma ItemPreserved(k: nat, value: Json, i: nat, v: Json, env: Env, o: Validator, ext: Extensions)
    requires Sound(o, ext)
    ensures ItemAccepts(k, Cleaned(value, ext), i, v, CleanedEnv(env, ext), o, Standard)
       <==> ItemAccepts(k, value, i, v, env, o, Vendor(ext))
    decreases k, 1, value, 2, 0
  {
    hide Accepts, CleanedFields;
    if !value.Arr? {
      CleaningPreservesAcceptance(k, value, v, env, o, ext);
    } else if i < |value.items| {
      CleaningPreservesAcceptance(k, value.items[i], v, env, o, ext);
    }
  }

  lemma ListPreserved(k: nat, key: string, items: seq<Json>, v: Json,
                      env: Env, o: Validator, ext: Extensions)
    requires Sound(o, ext)
    ensures ListAccepts(k, key, CleanedItems(items, ext), v, CleanedEnv(env, ext), o, Standard)
       <==> ListAccepts(k, key, items, v, env, o, Vendor(ext))
    decreases k, 1, Arr(items), 0
  {
    hide Accepts, Cleaned, CleanedEnv, ListAccepts, Sound;
    var out := CleanedItems(items, ext);
    forall i | 0 <= i < |items|
      ensures Accepts(k, out[i], v, CleanedEnv(env, ext), o, Standard) <==> Accepts(k, items[i], v, env, o, Vendor(ext))
    {
      assert items[i] < Arr(items);
      CleaningPreservesAcceptance(k, items[i], v, env, o, ext);
    }
    ListChosen(k, key, out, v, CleanedEnv(env, ext), o, Standard);
    ListChosen(k, key, items, v, env, o, Vendor(ext));
    assert Verdicts(k, out, v, CleanedEnv(env, ext), o, Standard) == Verdicts(k, items, v, env, o, Vendor(ext));
  }

  // Which of its schemas accept decides a list.
  ghost function Verdicts(k: nat, items: seq<Json>, v: Json, env: Env, o: Validator, reading: Reading): seq<bool> {
    seq(|items|, i requires 0 <= i < |items| => Accepts(k, items[i], v, env, o, reading))
  }

  ghost predicate Chosen(key: string, verdicts: seq<bool>) {
    if key == "allOf" then forall i :: 0 <= i < |verdicts| ==> verdicts[i]
    else if key == "anyOf" then exists i :: 0 <= i < |verdicts| && verdicts[i]
    else exists i :: 0 <= i < |verdicts| && verdicts[i] && forall j :: 0 <= j < |verdicts| && j != i ==> !verdicts[j]
  }

  lemma ListChosen(k: nat, key: string, items: seq<Json>, v: Json, env: Env, o: Validator, reading: Reading)
    ensures ListAccepts(k, key, items, v, env, o, reading) <==> Chosen(key, Verdicts(k, items, v, env, o, reading))
  {
    hide Accepts;
    var verdicts := Verdicts(k, items, v, env, o, reading);
    assert forall i :: 0 <= i < |items| ==> verdicts[i] == Accepts(k, items[i], v, env, o, reading);
  }

  // ----- a target that holds schemas

  // A nullable reference to a schema nothing satisfies: null is accepted by the vendor's reading alone.
  const NULLABLE := map["$ref" := RefTo("A"), "nullable" := Bool(true)]
  const NOTHING := Whole(map["A" := Bool(false)])

  lemma NullableReadings(o: Validator, ext: Extensions)
    requires Declared(ext)
    ensures !Accepts(1, Obj(NULLABLE), Null, CleanedEnv(NOTHING, ext), o, Standard)
    ensures Accepts(1, Obj(NULLABLE), Null, NOTHING, o, Vendor(ext))
  {
    hide HoldingOf, Seen, KeywordAccepts, CleanedEnv, TargetAccepts, Declared, VendorKey, Kept;
    NullableKept(ext);
    PlainSeen(NULLABLE, ext);
    SeenByStandard(NULLABLE);
    assert "$ref" in NULLABLE && NULLABLE["$ref"] == RefTo("A") && IsNullableRef(NULLABLE);
    NothingAccepted(CleanedEnv(NOTHING, ext), o) by { NothingStays(ext); }
  }

  lemma NullableKept(ext: Extensions)
    requires Declared(ext)
    ensures forall key :: key in NULLABLE ==> Kept(key, ext)
  {
    KeptKeyword("$ref", ext);
    KeptKeyword("nullable", ext);
  }

  lemma NothingStays(ext: Extensions)
    ensures NOTHING.find(0, "A") == Some((Bool(false), 0)) && NOTHING.at == 0
    ensures CleanedEnv(NOTHING, ext).find(0, "A") == Some((Bool(false), 0)) && CleanedEnv(NOTHING, ext).at == 0
  {
    var schemas := map["A" := Bool(false)];
    assert "A" in schemas && schemas["A"] == Bool(false);
    assert NOTHING.find(0, "A") == Some((Bool(false), 0));
    assert Cleaned(Bool(false), ext) == Bool(false);
    assert CleanedFinder(NOTHING.find, ext)(0, "A") == Some((Cleaned(Bool(false), ext), 0));
  }

  lemma NothingAccepted(env: Env, o: Validator)
    requires env.find(0, "A") == Some((Bool(false), 0)) && env.at == 0
    ensures !TargetAccepts(1, RefTo("A"), Null, env, o, Standard)
  {
    assert IsSchemaRef("$ref", RefTo("A")) && RefName(RefTo("A")) == "A";
    hide HasPrefix, HoldingOf, KeywordAccepts;
  }

  lemma PlainSeen(fields: map<string, Json>, ext: Extensions)
    requires Declared(ext) && forall key :: key in fields ==> Kept(key, ext)
    ensures Seen(fields, Vendor(ext)) == fields
  {
    hide Supplied, Seen, Declared;
    KeptIsOwn(fields, ext);
    NoExtensions(fields, ext);
    SeenAdds(fields, ext);
    assert fields + map[] == fields;
  }

  lemma KeptIsOwn(fields: map<string, Json>, ext: Extensions)
    requires forall key :: key in fields ==> Kept(key, ext)
    ensures fields.Keys !! ext.target.Keys
  {
  }

  // A value that a schema under the keyword speaks about, given one that it speaks about itself.
  function Carrier(t: string, v: Json): Json {
    if HoldingOf(t) == Named || t == "additionalProperties" then Obj(map["p" := v])
    else if t == "items" then Arr([v])
    else v
  }

  const LENIENT := Validator((fields: map<string, Json>, v: Json) => NullOnly(fields) ==> v == Null,
                             (pattern: string, name: string) => true, (ref: string, v: Json) => true)

  // Nothing but annotations stands beside the keyword.
  ghost predicate Carries(fields: map<string, Json>, t: string, schema: Json) {
    && t in fields && fields[t] == Wrapped(t, schema)
    && forall key :: key in fields && key != t ==> Annotation(key) && HoldingOf(key) == Plain
  }

  predicate NullOnly(fields: map<string, Json>) {
    "enum" in fields && fields["enum"] == Arr([Null])
  }

  // Under such a keyword alone, a schema's verdict on the value is the object's, or under `not` its opposite.
  lemma CarriedVerdict(k: nat, t: string, schema: Json, fields: map<string, Json>, v: Json, env: Env,
                       reading: Reading)
    requires HoldingOf(t) != Plain && schema.Obj? && Carries(fields, t, schema)
    ensures KeywordAccepts(k, t, Wrapped(t, schema), fields, Carrier(t, v), env, LENIENT, reading)
       <==> (Accepts(k, schema, v, env, LENIENT, reading) <==> t != "not")
  {
    hide Accepts;
    match HoldingOf(t)
    case Named =>
      assert Wrapped(t, schema).fields["p"] == schema && Carrier(t, v).fields["p"] == v;
    case List =>
      assert Wrapped(t, schema).items == [schema];
      OneBranch(k, t, schema, v, env, reading);
    case Single =>
      if t == "items" {
        assert Carrier(t, v).items[0] == v;
        assert ItemAccepts(k, schema, 0, v, env, LENIENT, reading) <==> Accepts(k, schema, v, env, LENIENT, reading);
      } else if t == "additionalProperties" {
        assert Carrier(t, v).fields["p"] == v;
      }
  }

  lemma OneBranch(k: nat, t: string, schema: Json, v: Json, env: Env, reading: Reading)
    ensures ListAccepts(k, t, [schema], v, env, LENIENT, reading) <==> Accepts(k, schema, v, env, LENIENT, reading)
  {
    hide Accepts;
    assert [schema][0] == schema;
  }

  lemma CarriedByObject(k: nat, t: string, schema: Json, node: map<string, Json>, v: Json, env: Env,
                        reading: Reading)
    requires HoldingOf(t) != Plain && schema.Obj? && Carries(Seen(node, reading), t, schema)
    ensures Accepts(k, Obj(node), Carrier(t, v), env, LENIENT, reading)
       <==> (Accepts(k, schema, v, env, LENIENT, reading) <==> t != "not")
  {
    var seen := Seen(node, reading);
    CarriedVerdict(k, t, schema, seen, v, env, reading);
    PlainRef();
    LenientIsSane();
    assert forall key :: key in LeafKeywords(seen) ==> key != t;
    OnlyAnnotations(LeafKeywords(seen), Carrier(t, v));
    hide HoldingOf, KeywordAccepts, Seen, Wrapped, Carrier, LeafKeywords, Accepts, Annotation;
    ObjectAccepts(k, node, Carrier(t, v), env, LENIENT, reading);
  }

  lemma OnlyAnnotations(fields: map<string, Json>, v: Json)
    requires forall key :: key in fields ==> Annotation(key)
    ensures LENIENT.holds(fields, v)
  {
    PlainRef();
  }

  // An extension that stands for a keyword holding schemas is copied as it is, and what is inside loses its meaning.
  lemma HoldingTargetLosesMeaning(key: string, ext: Extensions)
    requires Declared(ext) && key in ext.target && ext.target[key] != key && HoldingOf(ext.target[key]) != Plain
    ensures exists k: nat, node, v, env, o :: Sane(o) && Silent(o) && !Preserves(k, node, v, env, o, ext)
  {
    LenientIsSane();
    MeaningLost(key, ext);
    hide Preserves, Sane, HoldingOf, Wrapped, Carrier, Declared;
  }

  lemma MeaningLost(key: string, ext: Extensions)
    requires Declared(ext) && key in ext.target && ext.target[key] != key && HoldingOf(ext.target[key]) != Plain
    ensures !Preserves(1, Obj(map[key := Wrapped(ext.target[key], Obj(NULLABLE))]), Carrier(ext.target[key], Null),
        NOTHING, LENIENT, ext)
  {
    hide HoldingOf, Seen, Wrapped, Carrier, Accepts, CleanedEnv, Declared, Cleaned;
    var t := ext.target[key];
    var value := Wrapped(t, Obj(NULLABLE));
    SuppliedAlone(key, value, ext);
    NullableReadings(LENIENT, ext);
    SeenByStandard(map[t := value]);
    MappedIsPlain(key, ext);
    CarriedByObject(1, t, Obj(NULLABLE), map[t := value], Null, CleanedEnv(NOTHING, ext), Standard);
    CarriedByObject(1, t, Obj(NULLABLE), map[key := value], Null, NOTHING, Vendor(ext));
  }

  lemma SuppliedAlone(key: string, value: Json, ext: Extensions)
    requires Declared(ext) && key in ext.target && ext.target[key] != key
    ensures Seen(map[key := value], Vendor(ext)) == map[key := value, ext.target[key] := value]
    ensures Cleaned(Obj(map[key := value]), ext) == Obj(map[ext.target[key] := value])
  {
    hide *;
    OneExtension(key, value, ext);
    LoneNotNullable(ext.target[key], value);
    ExtensionUnkept(key, ext);
    CleanedUnkept(map[key := value], ext);
    SeenAdds(map[key := value], ext);
    Laid(key, ext.target[key], value);
    ObjectCleaned(map[key := value], ext);
    Unfolded(map[ext.target[key] := value]);
  }

  lemma ObjectCleaned(fields: map<string, Json>, ext: Extensions)
    ensures Cleaned(Obj(fields), ext) == FoldNullableRef(CleanedFields(fields, ext))
  {
    hide CleanedFields;
  }

  lemma Unfolded(fields: map<string, Json>)
    ensures !IsNullableRef(fields) ==> FoldNullableRef(fields) == Obj(fields)
  {
  }

  lemma Laid(key: string, t: string, value: Json)
    ensures map[key := value] + map[t := value] == map[key := value, t := value]
  {
  }

  lemma SeenAdds(fields: map<string, Json>, ext: Extensions)
    ensures Seen(fields, Vendor(ext)) == fields + Supplied(fields, ext)
  {
    hide Supplied;
  }

  lemma ExtensionUnkept(key: string, ext: Extensions)
    ensures key in ext.target ==> !Kept(key, ext)
  {
  }

  // An object of extensions alone is cleaned to what they supply.
  lemma CleanedUnkept(fields: map<string, Json>, ext: Extensions)
    requires forall key :: key in fields ==> !Kept(key, ext)
    ensures CleanedFields(fields, ext) == Supplied(fields, ext)
  {
    hide Supplied, Kept;
  }

  lemma LenientIsSane()
    ensures Sane(LENIENT) && Silent(LENIENT)
  {
    var none: map<string, Json>, lone := map[], map["enum" := Arr([Null])];
    assert "enum" !in none && "enum" in lone && lone["enum"] == Arr([Null]);
    assert !NullOnly(none) && NullOnly(lone);
    forall a, b, v | AlikeButAnnotations(a, b) ensures LENIENT.holds(a, v) <==> LENIENT.holds(b, v) {
      AlikeNullOnly(a, b);
    }
  }

  lemma AlikeNullOnly(a: map<string, Json>, b: map<string, Json>)
    requires AlikeButAnnotations(a, b)
    ensures NullOnly(a) <==> NullOnly(b)
  {
    PlainRef();
    hide Annotation;
  }
}
