/** One kept operation (`_cut_operation` and what it calls): what stays of it, and what the ledger learns. */
module Operations {
  import opened Wrappers
  import opened JsonTree
  import opened References
  import opened Cleaning
  import opened Closures
  import Pointers

  // ----- references to anything but a schema

  // Down the members of objects, one step a name.
  function Walk(target: Json, steps: seq<string>): Option<Json> {
    if steps == [] then Some(target)
    else if target.Obj? && steps[0] in target.fields then Walk(target.fields[steps[0]], steps[1..])
    else None
  }

  // `"$ref": "#/..."`, other than to a schema.
  predicate IsLocalRef(node: Json) {
    && node.Obj? && "$ref" in node.fields && node.fields["$ref"].Str?
    && HasPrefix(node.fields["$ref"].text, "#/") && !HasPrefix(node.fields["$ref"].text, SCHEMA_REF_PREFIX)
  }

  function Steps(ref: string): seq<string>
    requires HasPrefix(ref, "#/")
  {
    Pointers.UnescapeAll(Pointers.Split(ref[2..]))
  }

  // What the node stands for in its document; none when it refers to nothing.
  function Target(document: Json, node: Json): Option<Json> {
    if IsLocalRef(node) then Walk(document, Steps(node.fields["$ref"].text)) else Some(node)
  }

  function TargetOrNull(document: Json, node: Json): Json {
    if Target(document, node).Some? then Target(document, node).value else Null
  }

  function TargetOf(document: Json, node: Option<Json>): Option<Json> {
    if node.Some? then Target(document, node.value) else None
  }

  function Member(node: Option<Json>, key: string): Option<Json> {
    if node.Some? && node.value.Obj? && key in node.value.fields then Some(node.value.fields[key]) else None
  }

  /** `_resolve_local`: none where the source raises. */
  method ResolveLocal(document: Json, node: Json) returns (target: Option<Json>)
    ensures target == Target(document, node)
  {
    if !IsLocalRef(node) { return Some(node); }
    var raws := Pointers.Split(node.fields["$ref"].text[2..]);
    var at := document;
    UnescapedEach(raws);
    for i := 0 to |raws|
      invariant Walk(document, Steps(node.fields["$ref"].text)) == Walk(at, Pointers.UnescapeAll(raws)[i..])
    {
      var step := Pointers.Unescape(raws[i]);
      assert Pointers.UnescapeAll(raws)[i..][1..] == Pointers.UnescapeAll(raws)[i + 1..];
      if !at.Obj? || step !in at.fields { return None; }
      at := at.fields[step];
    }
    target := Some(at);
  }

  lemma UnescapedEach(raws: seq<string>)
    ensures |Pointers.UnescapeAll(raws)| == |raws|
    ensures forall i :: 0 <= i < |raws| ==> Pointers.UnescapeAll(raws)[i] == Pointers.Unescape(raws[i])
  {
    hide Pointers.Unescape;
  }

  // ----- what stays

  // Which of an operation's objects a member stands in.
  datatype Role = InParameter | InMedia | InContent | InBody | InResponse | InResponses | InOperation

  // What a member leaves in the extract, and what the ledger of stripped keys learns of it.
  datatype Piece = Piece(kept: Option<Json>, dropped: set<string>)

  function Rank(role: Role): nat {
    match role
    case InParameter => 0
    case InMedia => 0
    case InContent => 1
    case InBody => 2
    case InResponse => 2
    case InResponses => 3
    case InOperation => 4
  }

  function AsIs(value: Json): Piece {
    Piece(Some(value), {})
  }

  function Dropped(key: string): Piece {
    Piece(None, {key})
  }

  function SchemaPiece(schema: Json, ext: Extensions): Piece {
    Piece(Some(Cleaned(schema, ext)), Stripped(schema, ext))
  }

  // An object cut member by member; what is no object leaves an empty one.
  function ObjectPiece(role: Role, document: Json, value: Json, ext: Extensions): Piece
    decreases Rank(role), 2
  {
    if value.Obj? then
      Piece(Some(Obj(MembersKept(role, document, value.fields, ext))), MembersDrops(role, document, value.fields, ext))
    else Piece(Some(Obj(map[])), {})
  }

  function PieceOf(role: Role, document: Json, key: string, value: Json, ext: Extensions): Piece
    decreases Rank(role), 0
  {
    match role
    case InParameter =>
      if key in {"name", "in", "required"} then AsIs(value)
      else if key == "schema" then SchemaPiece(value, ext)
      else Dropped(key)
    case InMedia => if key == "schema" then SchemaPiece(value, ext) else Dropped(key)
    case InContent => ObjectPiece(InMedia, document, value, ext)
    case InBody =>
      if key == "required" then AsIs(value)
      else if key == "content" then
        if value.Obj? then ObjectPiece(InContent, document, value, ext) else Piece(None, {})
      else Dropped(key)
    case InResponse =>
      if key == "content" then
        if value.Obj? then ObjectPiece(InContent, document, value, ext) else Piece(None, {})
      else if key == "description" then Piece(None, {})
      else Dropped(key)
    case InResponses =>
      var piece := ObjectPiece(InResponse, document, TargetOrNull(document, value), ext);
      piece.(kept := Some(Obj(map["description" := Str(key)] + piece.kept.value.fields)))
    case InOperation =>
      if key in {"operationId", "deprecated"} then AsIs(value)
      else if key == "parameters" then
        Piece(Some(Arr(if value.Arr? then ParametersKept(document, value.items, ext) else [])),
              if value.Arr? then ParametersDrops(document, value.items, ext) else {})
      else if key == "requestBody" then ObjectPiece(InBody, document, TargetOrNull(document, value), ext)
      else if key == "responses" then ObjectPiece(InResponses, document, value, ext)
      else Dropped(key)
  }

  function MembersKept(role: Role, document: Json, fields: map<string, Json>, ext: Extensions): map<string, Json>
    decreases Rank(role), 1
  {
    map key | key in fields.Keys && PieceOf(role, document, key, fields[key], ext).kept.Some?
      :: PieceOf(role, document, key, fields[key], ext).kept.value
  }

  function MembersDrops(role: Role, document: Json, fields: map<string, Json>, ext: Extensions): set<string>
    decreases Rank(role), 1
  {
    set key, dropped | key in fields.Keys && dropped in PieceOf(role, document, key, fields[key], ext).dropped
      :: dropped
  }

  function ParametersKept(document: Json, items: seq<Json>, ext: Extensions): seq<Json>
    decreases Rank(InParameter), 2, |items|
  {
    if items == [] then []
    else
      var parameter := TargetOrNull(document, items[|items| - 1]);
      ParametersKept(document, items[..|items| - 1], ext)
      + if parameter.Obj? then [Obj(MembersKept(InParameter, document, parameter.fields, ext))] else []
  }

  function ParametersDrops(document: Json, items: seq<Json>, ext: Extensions): set<string>
    decreases Rank(InParameter), 2, |items|
  {
    if items == [] then {}
    else
      var parameter := TargetOrNull(document, items[|items| - 1]);
      ParametersDrops(document, items[..|items| - 1], ext)
      + if parameter.Obj? then MembersDrops(InParameter, document, parameter.fields, ext) else {}
  }

  /** What `_cut_operation` keeps of an operation all of whose references are defined. */
  function OperationCut(document: Json, raw: Json, ext: Extensions): Json {
    if raw.Obj? then Obj(MembersKept(InOperation, document, raw.fields, ext)) else Obj(map[])
  }

  function OperationDrops(document: Json, raw: Json, ext: Extensions): set<string> {
    if raw.Obj? then MembersDrops(InOperation, document, raw.fields, ext) else {}
  }

  // Every parameter, body and response referred to is defined; anything else raises.
  predicate FineMember(role: Role, document: Json, key: string, value: Json)
    decreases Rank(role), 0
  {
    match role
    case InResponses => Target(document, value).Some?
    case InOperation =>
      && (key == "parameters" && value.Arr? ==>
            forall i :: 0 <= i < |value.items| ==> Target(document, value.items[i]).Some?)
      && (key == "requestBody" ==> Target(document, value).Some?)
      && (key == "responses" && value.Obj? ==> Fine(InResponses, document, value.fields))
    case _ => true
  }

  predicate Fine(role: Role, document: Json, fields: map<string, Json>)
    decreases Rank(role), 1
  {
    forall key :: key in fields ==> FineMember(role, document, key, fields[key])
  }

  predicate PartsDefined(document: Json, raw: Json) {
    raw.Obj? ==> Fine(InOperation, document, raw.fields)
  }

  // ----- the loops

  // One more member, whatever its place.
  lemma MoreKept(role: Role, document: Json, done: map<string, Json>, key: string, value: Json, ext: Extensions)
    requires key !in done
    ensures var piece, more := PieceOf(role, document, key, value, ext), done[key := value];
            MembersKept(role, document, more, ext) ==
              (if piece.kept.Some? then MembersKept(role, document, done, ext)[key := piece.kept.value]
               else MembersKept(role, document, done, ext))
  {
    hide PieceOf, MembersDrops, MembersKept;
    var piece, more := PieceOf(role, document, key, value, ext), done[key := value];
    var was, now := MembersKept(role, document, done, ext), MembersKept(role, document, more, ext);
    var all := if piece.kept.Some? then was[key := piece.kept.value] else was;
    forall other ensures other in now <==> other in all
                 ensures other in now ==> now[other] == all[other]
    {
      KeptAt(role, document, more, ext, other);
      KeptAt(role, document, done, ext, other);
    }
  }

  // Whether and how a member of an object stands among what is kept of it.
  ghost predicate InKept(role: Role, document: Json, fields: map<string, Json>, ext: Extensions, key: string) {
    var kept := MembersKept(role, document, fields, ext);
    && (key in kept <==> key in fields && PieceOf(role, document, key, fields[key], ext).kept.Some?)
    && (key in kept ==> kept[key] == PieceOf(role, document, key, fields[key], ext).kept.value)
  }

  lemma KeptAt(role: Role, document: Json, fields: map<string, Json>, ext: Extensions, key: string)
    ensures InKept(role, document, fields, ext, key)
  {
    hide PieceOf, MembersDrops;
  }

  lemma MoreDrops(role: Role, document: Json, done: map<string, Json>, key: string, value: Json, ext: Extensions)
    requires key !in done
    ensures MembersDrops(role, document, done[key := value], ext)
         == MembersDrops(role, document, done, ext) + PieceOf(role, document, key, value, ext).dropped
  {
    hide PieceOf, MembersKept, MembersDrops;
    var more := done[key := value];
    forall d ensures d in MembersDrops(role, document, more, ext)
        <==> d in MembersDrops(role, document, done, ext) || d in PieceOf(role, document, key, value, ext).dropped
    {
      InDrops(role, document, more, ext, d);
      InDrops(role, document, done, ext, d);
      if other :| other in done && d in PieceOf(role, document, other, done[other], ext).dropped {
        assert other in more && more[other] == done[other];
      }
      assert key in more && more[key] == value;
    }
  }

  lemma InDrops(role: Role, document: Json, fields: map<string, Json>, ext: Extensions, d: string)
    ensures d in MembersDrops(role, document, fields, ext)
       <==> exists key :: key in fields && d in PieceOf(role, document, key, fields[key], ext).dropped
  {
    hide PieceOf, MembersKept;
  }

  lemma MoreFine(role: Role, document: Json, done: map<string, Json>, key: string, value: Json)
    requires key !in done
    ensures Fine(role, document, done[key := value])
       <==> Fine(role, document, done) && FineMember(role, document, key, value)
  {
    hide FineMember;
    var more := done[key := value];
    if Fine(role, document, more) {
      forall other | other in done ensures FineMember(role, document, other, done[other]) {
        assert other in more && more[other] == done[other];
      }
      assert key in more && more[key] == value;
    }
  }

  function Without(fields: map<string, Json>, left: set<string>): map<string, Json> {
    map key | key in fields.Keys && key !in left :: fields[key]
  }

  lemma WithoutEnds(fields: map<string, Json>)
    ensures Without(fields, fields.Keys) == map[] && Without(fields, {}) == fields
  {
  }

  lemma WithoutLess(fields: map<string, Json>, left: set<string>, key: string)
    requires left <= fields.Keys && key in left
    ensures key !in Without(fields, left) && Without(fields, left - {key}) == Without(fields, left)[key := fields[key]]
  {
  }

  // One member less to go.
  lemma OneMore(role: Role, document: Json, fields: map<string, Json>, left: set<string>, key: string, ext: Extensions)
    requires left <= fields.Keys && key in left
    ensures var done, next := Without(fields, left), Without(fields, left - {key});
            var piece := PieceOf(role, document, key, fields[key], ext);
            && MembersKept(role, document, next, ext) ==
                 (if piece.kept.Some? then MembersKept(role, document, done, ext)[key := piece.kept.value]
                  else MembersKept(role, document, done, ext))
            && MembersDrops(role, document, next, ext) == MembersDrops(role, document, done, ext) + piece.dropped
            && (Fine(role, document, next) <==>
                  Fine(role, document, done) && FineMember(role, document, key, fields[key]))
  {
    hide PieceOf, MembersKept, MembersDrops, Fine, FineMember;
    var done := Without(fields, left);
    WithoutLess(fields, left, key);
    hide Without;
    MoreKept(role, document, done, key, fields[key], ext);
    MoreDrops(role, document, done, key, fields[key], ext);
    MoreFine(role, document, done, key, fields[key]);
  }

  // The loop over an object's members, in any order.
  method CutMembers(cut: Cut, role: Role, document: Json, fields: map<string, Json>)
    returns (ok: bool, out: map<string, Json>)
    requires cut.Valid()
    modifies cut`stripped
    ensures ok <==> Fine(role, document, fields)
    ensures ok ==> out == MembersKept(role, document, fields, cut.ext)
    ensures ok ==> cut.stripped == old(cut.stripped) + MembersDrops(role, document, fields, cut.ext)
    decreases Rank(role), 1
  {
    hide PieceOf, MembersKept, MembersDrops, Fine, FineMember, Without;
    out := map[];
    var left := fields.Keys;
    NoMembers(role, document, cut.ext);
    WithoutEnds(fields);
    while left != {}
      invariant left <= fields.Keys && Fine(role, document, Without(fields, left))
      invariant out == MembersKept(role, document, Without(fields, left), cut.ext)
      invariant cut.stripped == old(cut.stripped) + MembersDrops(role, document, Without(fields, left), cut.ext)
    {
      var key :| key in left;
      OneMore(role, document, fields, left, key, cut.ext);
      var fine, kept := CutMember(cut, role, document, key, fields[key]);
      if !fine {
        NotFine(role, document, fields, key);
        return false, out;
      }
      if kept.Some? { out := out[key := kept.value]; }
      left := left - {key};
    }
    ok := true;
  }

  lemma NoMembers(role: Role, document: Json, ext: Extensions)
    ensures MembersKept(role, document, map[], ext) == map[] && MembersDrops(role, document, map[], ext) == {}
    ensures Fine(role, document, map[])
  {
  }

  lemma NotFine(role: Role, document: Json, fields: map<string, Json>, key: string)
    requires key in fields && !FineMember(role, document, key, fields[key])
    ensures !Fine(role, document, fields)
  {
    hide FineMember;
  }

  // An object cut, and nothing of what is no object.
  method CutObject(cut: Cut, role: Role, document: Json, value: Json) returns (ok: bool, out: Json)
    requires cut.Valid()
    modifies cut`stripped
    ensures ok <==> (value.Obj? ==> Fine(role, document, value.fields))
    ensures ok ==> Some(out) == ObjectPiece(role, document, value, cut.ext).kept
    ensures ok ==> cut.stripped == old(cut.stripped) + ObjectPiece(role, document, value, cut.ext).dropped
    decreases Rank(role), 2
  {
    hide MembersKept, MembersDrops, Fine;
    if value.Obj? {
      var fine, fields := CutMembers(cut, role, document, value.fields);
      ok, out := fine, Obj(fields);
    } else {
      ok, out := true, Obj(map[]);
    }
  }

  // One member: copied, cleaned, cut in turn, or dropped.
  method CutMember(cut: Cut, role: Role, document: Json, key: string, value: Json)
    returns (ok: bool, kept: Option<Json>)
    requires cut.Valid()
    modifies cut`stripped
    ensures ok <==> FineMember(role, document, key, value)
    ensures ok ==> kept == PieceOf(role, document, key, value, cut.ext).kept
    ensures ok ==> cut.stripped == old(cut.stripped) + PieceOf(role, document, key, value, cut.ext).dropped
    decreases Rank(role), 0
  {
    hide MembersKept, MembersDrops, Fine, Cleaned, Stripped, Target, ObjectPiece, ParametersKept, ParametersDrops;
    AlwaysFine(document);
    ok, kept := true, None;
    match role
    case InParameter => kept := CutLeaf(cut, role, document, key, value);
    case InMedia => kept := CutLeaf(cut, role, document, key, value);
    case InContent =>
      var fine, body := CutObject(cut, InMedia, document, value);
      kept := Some(body);
    case InBody => kept := CutBodyMember(cut, role, document, key, value);
    case InResponse => kept := CutBodyMember(cut, role, document, key, value);
    case InResponses =>
      var response := ResolveLocal(document, value);
      if response.None? { return false, None; }
      var fine, body := CutObject(cut, InResponse, document, response.value);
      IsObject(InResponse, document, response.value, cut.ext);
      kept := Some(Obj(map["description" := Str(key)] + body.fields));
    case InOperation => ok, kept := CutOperationMember(cut, document, key, value);
  }

  // A member of a parameter, or of what stands under a media type: a schema is cleaned.
  method CutLeaf(cut: Cut, role: Role, document: Json, key: string, value: Json) returns (kept: Option<Json>)
    requires cut.Valid() && (role == InParameter || role == InMedia)
    modifies cut`stripped
    ensures kept == PieceOf(role, document, key, value, cut.ext).kept
    ensures cut.stripped == old(cut.stripped) + PieceOf(role, document, key, value, cut.ext).dropped
  {
    hide Cleaned, Stripped;
    kept := None;
    if role == InParameter && key in {"name", "in", "required"} {
      kept := Some(value);
    } else if key == "schema" {
      var schema := cut.CleanSchema(value);
      kept := Some(schema);
    } else {
      cut.Drop(key);
    }
  }

  // A member of a request body or of a response: content is cut, and a response's description replaced.
  method CutBodyMember(cut: Cut, role: Role, document: Json, key: string, value: Json) returns (kept: Option<Json>)
    requires cut.Valid() && (role == InBody || role == InResponse)
    modifies cut`stripped
    ensures kept == PieceOf(role, document, key, value, cut.ext).kept
    ensures cut.stripped == old(cut.stripped) + PieceOf(role, document, key, value, cut.ext).dropped
    decreases Rank(InContent), 3
  {
    hide MembersKept, MembersDrops, Fine, ObjectPiece;
    AlwaysFine(document);
    kept := None;
    if role == InBody && key == "required" {
      kept := Some(value);
    } else if key == "content" {
      if value.Obj? {
        var fine, content := CutObject(cut, InContent, document, value);
        kept := Some(content);
      }
    } else if role == InBody || key != "description" {
      cut.Drop(key);
    }
  }

  // A member of the operation itself.
  method CutOperationMember(cut: Cut, document: Json, key: string, value: Json) returns (ok: bool, kept: Option<Json>)
    requires cut.Valid()
    modifies cut`stripped
    ensures ok <==> FineMember(InOperation, document, key, value)
    ensures ok ==> kept == PieceOf(InOperation, document, key, value, cut.ext).kept
    ensures ok ==> cut.stripped == old(cut.stripped) + PieceOf(InOperation, document, key, value, cut.ext).dropped
    decreases Rank(InResponses), 3
  {
    hide MembersKept, MembersDrops, Fine, Target, ObjectPiece, ParametersKept, ParametersDrops;
    AlwaysFine(document);
    ok, kept := true, None;
    if key in {"operationId", "deprecated"} {
      kept := Some(value);
    } else if key == "parameters" {
      var parameters: seq<Json> := [];
      if value.Arr? { ok, parameters := CutParameters(cut, document, value.items); }
      kept := Some(Arr(parameters));
    } else if key == "requestBody" {
      var body := ResolveLocal(document, value);
      if body.None? { return false, None; }
      var fine, out := CutObject(cut, InBody, document, body.value);
      kept := Some(out);
    } else if key == "responses" {
      var fine, out := CutObject(cut, InResponses, document, value);
      ok, kept := fine, Some(out);
    } else {
      cut.Drop(key);
    }
  }

  lemma AlwaysFine(document: Json)
    ensures forall role, fields :: Rank(role) < Rank(InResponses) ==> Fine(role, document, fields)
  {
  }

  lemma IsObject(role: Role, document: Json, value: Json, ext: Extensions)
    ensures ObjectPiece(role, document, value, ext).kept.Some?
    ensures ObjectPiece(role, document, value, ext).kept.value.Obj?
  {
  }

  /** `_cut_parameters`: one row for each parameter that is an object. */
  method CutParameters(cut: Cut, document: Json, items: seq<Json>) returns (ok: bool, kept: seq<Json>)
    requires cut.Valid()
    modifies cut`stripped
    ensures ok <==> forall i :: 0 <= i < |items| ==> Target(document, items[i]).Some?
    ensures ok ==> kept == ParametersKept(document, items, cut.ext)
    ensures ok ==> cut.stripped == old(cut.stripped) + ParametersDrops(document, items, cut.ext)
    decreases Rank(InParameter), 2
  {
    hide MembersKept, MembersDrops, Fine, Target;
    AlwaysFine(document);
    kept := [];
    for i := 0 to |items|
      invariant forall j :: 0 <= j < i ==> Target(document, items[j]).Some?
      invariant kept == ParametersKept(document, items[..i], cut.ext)
      invariant cut.stripped == old(cut.stripped) + ParametersDrops(document, items[..i], cut.ext)
    {
      assert items[..i + 1][..i] == items[..i];
      var parameter := ResolveLocal(document, items[i]);
      if parameter.None? { return false, kept; }
      if parameter.value.Obj? {
        var fine, row := CutMembers(cut, InParameter, document, parameter.value.fields);
        kept := kept + [Obj(row)];
      }
    }
    assert items[..|items|] == items;
    ok := true;
  }

  /** `_cut_operation`: not where a parameter, body or response is referred to that the document does not define. */
  method CutOperation(cut: Cut, document: Json, raw: Json) returns (ok: bool, out: Json)
    requires cut.Valid()
    modifies cut`stripped
    ensures ok <==> PartsDefined(document, raw)
    ensures ok ==> out == OperationCut(document, raw, cut.ext)
    ensures ok ==> cut.stripped == old(cut.stripped) + OperationDrops(document, raw, cut.ext)
  {
    hide MembersKept, MembersDrops, Fine;
    ok, out := CutObject(cut, InOperation, document, raw);
  }

  // ----- what is kept stands alone

  // Cut again, in any document, a member that was kept is kept as it is, and nothing is dropped.
  ghost predicate StaysCut(role: Role, other: Json, key: string, kept: Json, ext: Extensions) {
    PieceOf(role, other, key, kept, ext) == AsIs(kept) && FineMember(role, other, key, kept)
  }

  ghost predicate Regular(ext: Extensions) {
    Declared(ext) && TargetsSettled(ext)
  }

  lemma {:induction false} PieceAgain(role: Role, document: Json, other: Json, key: string, value: Json,
                                      ext: Extensions)
    requires Regular(ext) && PieceOf(role, document, key, value, ext).kept.Some?
    ensures StaysCut(role, other, key, PieceOf(role, document, key, value, ext).kept.value, ext)
    decreases Rank(role), 1
  {
    hide PieceOf, StaysCut, Regular;
    match role
    case InParameter => LeafMemberAgain(role, document, other, key, value, ext);
    case InMedia => LeafMemberAgain(role, document, other, key, value, ext);
    case InContent => ContentAgain(role, document, other, key, value, ext);
    case InBody => ContentAgain(role, document, other, key, value, ext);
    case InResponse => ContentAgain(role, document, other, key, value, ext);
    case InResponses => ResponseAgain(document, other, key, value, ext);
    case InOperation => OperationMemberAgain(document, other, key, value, ext);
  }

  lemma LeafMemberAgain(role: Role, document: Json, other: Json, key: string, value: Json, ext: Extensions)
    requires Regular(ext) && (role == InParameter || role == InMedia)
    requires PieceOf(role, document, key, value, ext).kept.Some?
    ensures StaysCut(role, other, key, PieceOf(role, document, key, value, ext).kept.value, ext)
  {
    hide Cleaned, Stripped, Regular;
    SchemaAgain(value, ext);
  }

  lemma {:induction false} ContentAgain(role: Role, document: Json, other: Json, key: string, value: Json,
                                        ext: Extensions)
    requires Regular(ext) && (role == InContent || role == InBody || role == InResponse)
    requires PieceOf(role, document, key, value, ext).kept.Some?
    ensures StaysCut(role, other, key, PieceOf(role, document, key, value, ext).kept.value, ext)
    decreases if role == InContent then 1 else 2, 0
  {
    hide MembersKept, MembersDrops, Fine, Cleaned, Stripped, Regular, ObjectPiece;
    ObjectAgain(if role == InContent then InMedia else InContent, document, other, value, ext);
  }

  lemma {:induction false} OperationMemberAgain(document: Json, other: Json, key: string, value: Json,
                                                ext: Extensions)
    requires Regular(ext) && PieceOf(InOperation, document, key, value, ext).kept.Some?
    ensures StaysCut(InOperation, other, key, PieceOf(InOperation, document, key, value, ext).kept.value, ext)
    decreases Rank(InResponses), 4
  {
    hide MembersKept, MembersDrops, Fine, ParametersKept, ParametersDrops, Regular, Target, TargetOrNull, ObjectPiece;
    if key == "parameters" {
      ParametersMemberAgain(document, other, value, ext);
    } else if key == "requestBody" {
      ObjectAgain(InBody, document, other, TargetOrNull(document, value), ext);
    } else if key == "responses" {
      ObjectAgain(InResponses, document, other, value, ext);
    }
  }

  lemma {:induction false} ParametersMemberAgain(document: Json, other: Json, value: Json, ext: Extensions)
    requires Regular(ext)
    ensures var piece := PieceOf(InOperation, document, "parameters", value, ext);
            piece.kept.Some? && StaysCut(InOperation, other, "parameters", piece.kept.value, ext)
    decreases Rank(InParameter), 5
  {
    hide MembersKept, MembersDrops, Fine, ParametersKept, ParametersDrops, Regular, Target, TargetOrNull, ObjectPiece;
    if value.Arr? { ParametersAgain(document, other, value.items, ext); } else { NoParameters(other, ext); }
  }

  lemma SchemaAgain(schema: Json, ext: Extensions)
    requires Regular(ext)
    ensures SchemaPiece(Cleaned(schema, ext), ext) == AsIs(Cleaned(schema, ext))
  {
    hide Cleaned, Stripped;
    CleaningIdempotent(schema, ext);
    NothingLeftToStrip(schema, ext);
  }

  // An object made of kept members refers to nothing itself, and is cut to itself.
  lemma {:induction false} ObjectAgain(role: Role, document: Json, other: Json, value: Json, ext: Extensions)
    requires Regular(ext) && role != InOperation
    ensures var kept := ObjectPiece(role, document, value, ext).kept;
            && kept.Some? && kept.value.Obj?
            && ObjectPiece(role, other, kept.value, ext) == AsIs(kept.value)
            && Fine(role, other, kept.value.fields)
            && (role == InBody ==>
                  Target(other, kept.value) == Some(kept.value) && TargetOrNull(other, kept.value) == kept.value)
    decreases Rank(role), 3
  {
    hide PieceOf, FineMember, Regular, Cleaned, Stripped;
    NoMembers(role, other, ext);
    if value.Obj? {
      KeptAgain(role, document, other, value.fields, ext);
      if role == InBody { KeptAt(role, document, value.fields, ext, "$ref"); NoRefKept(document, value.fields, ext); }
    }
  }

  // None of these objects keeps a `$ref`.
  lemma NoRefKept(document: Json, fields: map<string, Json>, ext: Extensions)
    ensures "$ref" !in MembersKept(InBody, document, fields, ext)
    ensures "$ref" !in MembersKept(InParameter, document, fields, ext)
    ensures "$ref" !in MembersKept(InResponse, document, fields, ext)
    ensures "description" !in MembersKept(InResponse, document, fields, ext)
  {
    hide MembersKept, MembersDrops, Cleaned, Stripped, ObjectPiece;
    KeptAt(InBody, document, fields, ext, "$ref");
    KeptAt(InParameter, document, fields, ext, "$ref");
    KeptAt(InResponse, document, fields, ext, "$ref");
    KeptAt(InResponse, document, fields, ext, "description");
  }

  lemma {:induction false} KeptAgain(role: Role, document: Json, other: Json, fields: map<string, Json>,
                                     ext: Extensions)
    requires Regular(ext)
    ensures var kept := MembersKept(role, document, fields, ext);
            && MembersKept(role, other, kept, ext) == kept && MembersDrops(role, other, kept, ext) == {}
            && Fine(role, other, kept)
    decreases Rank(role), 2
  {
    hide PieceOf, FineMember, Regular, MembersKept, MembersDrops;
    var kept := MembersKept(role, document, fields, ext);
    forall key | key in kept ensures StaysCut(role, other, key, kept[key], ext) {
      KeptAt(role, document, fields, ext, key);
      PieceAgain(role, document, other, key, fields[key], ext);
    }
    var again := MembersKept(role, other, kept, ext);
    forall key ensures key in again <==> key in kept
               ensures key in again ==> again[key] == kept[key]
    {
      KeptAt(role, other, kept, ext, key);
    }
    forall d ensures d !in MembersDrops(role, other, kept, ext) { InDrops(role, other, kept, ext, d); }
  }

  lemma {:induction false} ResponseAgain(document: Json, other: Json, key: string, value: Json, ext: Extensions)
    requires Regular(ext)
    ensures PieceOf(InResponses, document, key, value, ext).kept.Some?
    ensures StaysCut(InResponses, other, key, PieceOf(InResponses, document, key, value, ext).kept.value, ext)
    decreases Rank(InResponse), 3
  {
    hide MembersKept, MembersDrops, Regular, TargetOrNull, Cleaned, Stripped;
    var response := TargetOrNull(document, value);
    var inner: map<string, Json> :=
      if response.Obj? then MembersKept(InResponse, document, response.fields, ext) else map[];
    var described := map["description" := Str(key)];
    NoMembers(InResponse, document, ext);
    NoMembers(InResponse, other, ext);
    if response.Obj? {
      KeptAgain(InResponse, document, other, response.fields, ext);
      NoRefKept(document, response.fields, ext);
    }
    assert PieceOf(InResponses, document, key, value, ext).kept == Some(Obj(described + inner));
    MoreKept(InResponse, other, inner, "description", Str(key), ext);
    MoreDrops(InResponse, other, inner, "description", Str(key), ext);
    assert described + inner == inner["description" := Str(key)];
    assert "$ref" !in described + inner;
    StandsForItself(other, inner, key);
    assert TargetOrNull(other, Obj(described + inner)) == Obj(described + inner);
  }

  lemma StandsForItself(other: Json, inner: map<string, Json>, key: string)
    requires "$ref" !in inner
    ensures Target(other, Obj(map["description" := Str(key)] + inner))
         == Some(Obj(map["description" := Str(key)] + inner))
    ensures TargetOrNull(other, Obj(map["description" := Str(key)] + inner))
         == Obj(map["description" := Str(key)] + inner)
  {
    assert "$ref" !in map["description" := Str(key)] + inner;
  }

  lemma {:induction false} ParametersAgain(document: Json, other: Json, items: seq<Json>, ext: Extensions)
    requires Regular(ext)
    ensures var kept := ParametersKept(document, items, ext);
            && ParametersKept(other, kept, ext) == kept && ParametersDrops(other, kept, ext) == {}
            && forall i :: 0 <= i < |kept| ==> Target(other, kept[i]).Some?
    decreases Rank(InParameter), 4, |items|
  {
    hide MembersKept, MembersDrops, Regular, TargetOrNull;
    if items != [] {
      var front, parameter := items[..|items| - 1], TargetOrNull(document, items[|items| - 1]);
      ParametersAgain(document, other, front, ext);
      if parameter.Obj? {
        var row := Obj(MembersKept(InParameter, document, parameter.fields, ext));
        var before := ParametersKept(document, front, ext);
        KeptAgain(InParameter, document, other, parameter.fields, ext);
        NoRefKept(document, parameter.fields, ext);
        assert Target(other, row) == Some(row) && TargetOrNull(other, row) == row by { ItselfWithoutRef(other, row); }
        assert ParametersKept(document, items, ext) == before + [row];
        assert MembersKept(InParameter, other, row.fields, ext) == row.fields;
        ParametersMore(other, before, row, ext);
      } else {
        assert ParametersKept(document, items, ext) == ParametersKept(document, front, ext);
      }
    }
  }

  lemma ParametersMore(document: Json, items: seq<Json>, item: Json, ext: Extensions)
    ensures var parameter := TargetOrNull(document, item);
            && ParametersKept(document, items + [item], ext) == ParametersKept(document, items, ext)
                 + (if parameter.Obj? then [Obj(MembersKept(InParameter, document, parameter.fields, ext))] else [])
            && ParametersDrops(document, items + [item], ext) == ParametersDrops(document, items, ext)
                 + (if parameter.Obj? then MembersDrops(InParameter, document, parameter.fields, ext) else {})
  {
    hide MembersKept, MembersDrops, TargetOrNull;
    assert (items + [item])[..|items|] == items;
  }

  lemma ItselfWithoutRef(other: Json, node: Json)
    requires node.Obj? && "$ref" !in node.fields
    ensures Target(other, node) == Some(node) && TargetOrNull(other, node) == node
  {
  }

  lemma NoParameters(other: Json, ext: Extensions)
    ensures ParametersKept(other, [], ext) == [] && ParametersDrops(other, [], ext) == {}
  {
  }

  /**
   A kept operation needs no component section but the schemas: in any document whatever it stands for itself, is cut to
   itself, and has nothing more to drop, when every extension stands for a plain keyword.
   */
  lemma CutStandsAlone(document: Json, other: Json, raw: Json, ext: Extensions)
    requires Regular(ext)
    ensures var operation := OperationCut(document, raw, ext);
            && PartsDefined(other, operation) && OperationCut(other, operation, ext) == operation
            && OperationDrops(other, operation, ext) == {}
  {
    hide MembersKept, MembersDrops, Fine, Regular;
    NoMembers(InOperation, other, ext);
    if raw.Obj? { KeptAgain(InOperation, document, other, raw.fields, ext); }
  }
}
