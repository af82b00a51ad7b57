/** The cut of an operation, read off the operation itself: all that is left of it, and all that the ledger learns. */
module Keeping {
  import opened Wrappers
  import opened JsonTree
  import opened Cleaning
  import opened Positions
  import opened Operations
  import opened Places

  // ----- what is left

  predicate OnlyMembers(node: Json, names: set<string>) {
    node.Obj? && node.fields.Keys <= names
  }

  // The two have the same member, or neither has one.
  predicate SameMember(a: Json, b: Json, key: string) {
    Member(Some(a), key) == Member(Some(b), key)
  }

  predicate SchemaCleaned(node: Json, vendor: Json, ext: Extensions) {
    Member(Some(node), "schema") == CleanedIf(Member(Some(vendor), "schema"), ext)
  }

  predicate RowOf(row: Json, parameter: Json, ext: Extensions) {
    && OnlyMembers(row, {"name", "in", "required", "schema"}) && SchemaCleaned(row, parameter, ext)
    && SameMember(row, parameter, "name") && SameMember(row, parameter, "in") && SameMember(row, parameter, "required")
  }

  ghost predicate IsObject(document: Json, item: Json) {
    Target(document, item).Some? && Target(document, item).value.Obj?
  }

  ghost function ObjectPlaces(document: Json, items: seq<Json>): set<nat> {
    set i: nat | i < |items| && IsObject(document, items[i])
  }

  // These and no others, in increasing order.
  ghost predicate InOrder(at: seq<nat>, which: set<nat>) {
    (forall i, j :: 0 <= i < j < |at| ==> at[i] < at[j]) && forall i: nat :: i in at <==> i in which
  }

  // One row for each parameter that is an object, in order.
  ghost predicate RowsOf(document: Json, rows: seq<Json>, items: seq<Json>, ext: Extensions) {
    exists at: seq<nat> :: InOrder(at, ObjectPlaces(document, items)) && RowsAt(document, rows, items, at, ext)
  }

  ghost predicate RowsAt(document: Json, rows: seq<Json>, items: seq<Json>, at: seq<nat>, ext: Extensions) {
    |rows| == |at| && forall j :: 0 <= j < |at| ==> at[j] < |items| && IsRow(document, rows[j], items[at[j]], ext)
  }

  ghost predicate IsRow(document: Json, row: Json, item: Json, ext: Extensions) {
    Target(document, item).Some? && RowOf(row, Target(document, item).value, ext)
  }

  // Every media type, each with its schema alone.
  ghost predicate ContentOf(content: Option<Json>, vendor: Option<Json>, ext: Extensions) {
    if vendor.Some? && vendor.value.Obj? then
      && content.Some? && content.value.Obj? && content.value.fields.Keys == vendor.value.fields.Keys
      && forall media :: media in vendor.value.fields ==>
           && OnlyMembers(content.value.fields[media], {"schema"})
           && SchemaCleaned(content.value.fields[media], vendor.value.fields[media], ext)
    else content == None
  }

  ghost predicate BodyOf(body: Json, vendor: Json, ext: Extensions) {
    && OnlyMembers(body, {"required", "content"}) && SameMember(body, vendor, "required")
    && ContentOf(Member(Some(body), "content"), Member(Some(vendor), "content"), ext)
  }

  ghost predicate ReplyOf(reply: Json, status: string, vendor: Json, ext: Extensions) {
    && OnlyMembers(reply, {"description", "content"}) && Member(Some(reply), "description") == Some(Str(status))
    && ContentOf(Member(Some(reply), "content"), Member(Some(vendor), "content"), ext)
  }

  // Every status, each with its reply; of what is no object, nothing.
  ghost predicate RepliesOf(document: Json, replies: Json, vendor: Json, ext: Extensions) {
    && replies.Obj? && replies.fields.Keys == (if vendor.Obj? then vendor.fields.Keys else {})
    && forall status :: status in replies.fields ==>
         var reply := Target(document, vendor.fields[status]);
         reply.Some? && ReplyOf(replies.fields[status], status, reply.value, ext)
  }

  ghost predicate ParametersOf(document: Json, kept: Option<Json>, vendor: Option<Json>, ext: Extensions) {
    && (kept.Some? <==> vendor.Some?)
    && (kept.Some? ==> kept.value.Arr? && RowsOf(document, kept.value.items, Items(vendor), ext))
  }

  ghost predicate RequestOf(document: Json, kept: Option<Json>, vendor: Option<Json>, ext: Extensions) {
    && (kept.Some? <==> vendor.Some?)
    && (kept.Some? ==> var body := Target(document, vendor.value);
                       body.Some? && BodyOf(kept.value, body.value, ext))
  }

  ghost predicate ResponsesOf(document: Json, kept: Option<Json>, vendor: Option<Json>, ext: Extensions) {
    && (kept.Some? <==> vendor.Some?)
    && (kept.Some? ==> RepliesOf(document, kept.value, vendor.value, ext))
  }

  ghost predicate CutOf(out: Json, document: Json, raw: Json, ext: Extensions) {
    && OnlyMembers(out, {"operationId", "deprecated", "parameters", "requestBody", "responses"})
    && SameMember(out, raw, "operationId") && SameMember(out, raw, "deprecated")
    && ParametersOf(document, Member(Some(out), "parameters"), Member(Some(raw), "parameters"), ext)
    && RequestOf(document, Member(Some(out), "requestBody"), Member(Some(raw), "requestBody"), ext)
    && ResponsesOf(document, Member(Some(out), "responses"), Member(Some(raw), "responses"), ext)
  }

  lemma NothingOfNothing(key: string)
    ensures Member(Some(Obj(map[])), key) == None
    ensures forall node: Json :: !node.Obj? ==> Member(Some(node), key) == None
  {
  }

  lemma LeafKept(document: Json, fields: map<string, Json>, ext: Extensions)
    ensures RowOf(Obj(MembersKept(InParameter, document, fields, ext)), Obj(fields), ext)
    ensures OnlyMembers(Obj(MembersKept(InMedia, document, fields, ext)), {"schema"})
    ensures SchemaCleaned(Obj(MembersKept(InMedia, document, fields, ext)), Obj(fields), ext)
  {
    hide MembersKept, Cleaned, Stripped;
    forall key | key in MembersKept(InParameter, document, fields, ext)
      ensures key in {"name", "in", "required", "schema"}
    {
      KeptAt(InParameter, document, fields, ext, key);
    }
    forall key | key in MembersKept(InMedia, document, fields, ext) ensures key in {"schema"} {
      KeptAt(InMedia, document, fields, ext, key);
    }
    KeptMember(InParameter, document, fields, ext, "name");
    KeptMember(InParameter, document, fields, ext, "in");
    KeptMember(InParameter, document, fields, ext, "required");
    KeptMember(InParameter, document, fields, ext, "schema");
    KeptMember(InMedia, document, fields, ext, "schema");
  }

  lemma ContentKeptExactly(document: Json, value: Option<Json>, ext: Extensions)
    ensures value.Some? && value.value.Obj? ==>
              ContentOf(ObjectPiece(InContent, document, value.value, ext).kept, value, ext)
    ensures !(value.Some? && value.value.Obj?) ==> ContentOf(None, value, ext)
  {
    hide MembersKept, MembersDrops, Cleaned, Stripped, SchemaCleaned;
    if value.Some? && value.value.Obj? {
      var fields := value.value.fields;
      var kept := MembersKept(InContent, document, fields, ext);
      forall media ensures media in kept <==> media in fields { KeptAt(InContent, document, fields, ext, media); }
      forall media | media in fields
        ensures OnlyMembers(kept[media], {"schema"}) && SchemaCleaned(kept[media], fields[media], ext)
      {
        KeptAt(InContent, document, fields, ext, media);
        MediaKept(document, fields[media], ext);
      }
    }
  }

  lemma MediaKept(document: Json, spec: Json, ext: Extensions)
    ensures var kept := ObjectPiece(InMedia, document, spec, ext).kept;
            kept.Some? && OnlyMembers(kept.value, {"schema"}) && SchemaCleaned(kept.value, spec, ext)
  {
    hide MembersKept, MembersDrops, Cleaned, Stripped;
    NothingOfNothing("schema");
    if spec.Obj? { LeafKept(document, spec.fields, ext); }
  }

  lemma BodyKept(document: Json, body: Json, ext: Extensions)
    ensures var kept := ObjectPiece(InBody, document, body, ext).kept; kept.Some? && BodyOf(kept.value, body, ext)
  {
    hide MembersKept, MembersDrops, Cleaned, Stripped, ContentOf, Member;
    NothingOfNothing("required");
    NothingOfNothing("content");
    if body.Obj? {
      BodyMembersKept(InBody, document, body.fields, ext);
      KeptMember(InBody, document, body.fields, ext, "required");
      MemberThere(body, "required");
    } else {
      ContentKeptExactly(document, None, ext);
    }
  }

  lemma MemberThere(node: Json, key: string)
    requires node.Obj?
    ensures Member(Some(node), key) == if key in node.fields then Some(node.fields[key]) else None
  {
  }

  lemma BodyMembersKept(role: Role, document: Json, fields: map<string, Json>, ext: Extensions)
    requires role == InBody || role == InResponse
    ensures OnlyMembers(Obj(MembersKept(role, document, fields, ext)),
        if role == InBody then {"required", "content"} else {"content"})
    ensures ContentOf(Member(Some(Obj(MembersKept(role, document, fields, ext))), "content"),
        Member(Some(Obj(fields)), "content"), ext)
  {
    hide MembersKept, MembersDrops, Cleaned, Stripped, ContentOf, Member, ObjectPiece;
    forall key | key in MembersKept(role, document, fields, ext)
      ensures key == "content" || (role == InBody && key == "required")
    {
      KeptAt(role, document, fields, ext, key);
    }
    KeptMember(role, document, fields, ext, "content");
    MemberThere(Obj(fields), "content");
    ContentKeptExactly(document, Member(Some(Obj(fields)), "content"), ext);
  }

  lemma ReplyKeptExactly(document: Json, status: string, item: Json, ext: Extensions)
    requires Target(document, item).Some?
    ensures var kept := PieceOf(InResponses, document, status, item, ext).kept;
            kept.Some? && ReplyOf(kept.value, status, Target(document, item).value, ext)
  {
    hide MembersKept, MembersDrops, Cleaned, Stripped, ContentOf, Member, Target, TargetOrNull;
    BodyIsTarget(document, item);
    var reply := Target(document, item).value;
    var inner: map<string, Json> :=
      if reply.Obj? then MembersKept(InResponse, document, reply.fields, ext) else map[];
    var described := Obj(map["description" := Str(status)] + inner);
    assert PieceOf(InResponses, document, status, item, ext).kept == Some(described);
    NothingOfNothing("content");
    if reply.Obj? {
      BodyMembersKept(InResponse, document, reply.fields, ext);
    } else {
      ContentKeptExactly(document, None, ext);
    }
    MemberThere(described, "description");
    MemberThere(described, "content");
    MemberThere(Obj(inner), "content");
  }

  lemma RepliesKept(document: Json, value: Json, ext: Extensions)
    requires value.Obj? ==> Fine(InResponses, document, value.fields)
    ensures var kept := ObjectPiece(InResponses, document, value, ext).kept;
            kept.Some? && RepliesOf(document, kept.value, value, ext)
  {
    hide MembersKept, MembersDrops, PieceOf, ReplyOf, Target;
    if value.Obj? {
      forall status
        ensures status in MembersKept(InResponses, document, value.fields, ext) <==> status in value.fields
        ensures status in value.fields ==>
          && Target(document, value.fields[status]).Some?
          && ReplyOf(MembersKept(InResponses, document, value.fields, ext)[status], status,
              Target(document, value.fields[status]).value, ext)
      {
        KeptAt(InResponses, document, value.fields, ext, status);
        if status in value.fields {
          assert FineMember(InResponses, document, status, value.fields[status]);
          ReplyKeptExactly(document, status, value.fields[status], ext);
        }
      }
    }
  }

  lemma {:induction false} ParametersKeptExactly(document: Json, items: seq<Json>, ext: Extensions)
    requires forall i :: 0 <= i < |items| ==> Target(document, items[i]).Some?
    ensures RowsOf(document, ParametersKept(document, items, ext), items, ext)
  {
    hide MembersKept, ParametersKept, ObjectPlaces, InOrder, IsRow, Target, TargetOrNull;
    if items == [] {
      NoParameters(document, ext);
      NoObjects(document);
      assert RowsAt(document, [], [], [], ext);
    } else {
      var n := |items| - 1;
      var front := items[..n];
      ParametersKeptExactly(document, front, ext);
      var rows := ParametersKept(document, front, ext);
      var at :| InOrder(at, ObjectPlaces(document, front)) && RowsAt(document, rows, front, at, ext);
      OneMoreRow(document, front, items[n], rows, at, ext);
      assert items == front + [items[n]];
      ParametersMore(document, front, items[n], ext);
      BodyIsTarget(document, items[n]);
    }
  }

  lemma NoObjects(document: Json)
    ensures InOrder([], ObjectPlaces(document, []))
  {
  }

  lemma OneMoreRow(document: Json, front: seq<Json>, item: Json, rows: seq<Json>, at: seq<nat>, ext: Extensions)
    requires Target(document, item).Some?
    requires InOrder(at, ObjectPlaces(document, front)) && RowsAt(document, rows, front, at, ext)
    ensures var parameter := Target(document, item).value;
            var more := if parameter.Obj? then [Obj(MembersKept(InParameter, document, parameter.fields, ext))] else [];
            RowsOf(document, rows + more, front + [item], ext)
  {
    hide MembersKept, InOrder, Target, RowOf, RowsAt, ObjectPlaces, IsRow;
    var parameter, n := Target(document, item).value, |front|;
    OneMorePlace(document, front, item);
    RowsStay(document, front, item, rows, at, ext);
    if parameter.Obj? {
      InOrderMore(at, ObjectPlaces(document, front), n);
      LeafKept(document, parameter.fields, ext);
      var row := Obj(MembersKept(InParameter, document, parameter.fields, ext));
      RowsMore(document, front + [item], rows, at, row, n, ext) by { ItsRow(document, row, item, ext); }
    } else {
      assert rows + [] == rows;
      assert ObjectPlaces(document, front + [item]) == ObjectPlaces(document, front);
    }
  }

  lemma ItsRow(document: Json, row: Json, item: Json, ext: Extensions)
    requires Target(document, item).Some? && RowOf(row, Target(document, item).value, ext)
    ensures IsRow(document, row, item, ext)
  {
  }

  lemma OneMorePlace(document: Json, front: seq<Json>, item: Json)
    requires Target(document, item).Some?
    ensures ObjectPlaces(document, front + [item])
         == ObjectPlaces(document, front) + if Target(document, item).value.Obj? then {|front|} else {}
    ensures forall i :: i in ObjectPlaces(document, front) ==> i < |front|
  {
    hide Target;
    assert forall i :: 0 <= i < |front| ==> (front + [item])[i] == front[i];
  }

  lemma InOrderMore(at: seq<nat>, which: set<nat>, n: nat)
    requires InOrder(at, which) && forall i :: i in which ==> i < n
    ensures InOrder(at + [n], which + {n})
  {
    forall i | 0 <= i < |at| ensures at[i] < n { assert at[i] in at; }
  }

  lemma RowsStay(document: Json, front: seq<Json>, item: Json, rows: seq<Json>, at: seq<nat>, ext: Extensions)
    requires RowsAt(document, rows, front, at, ext)
    ensures RowsAt(document, rows, front + [item], at, ext)
  {
    hide IsRow;
    assert forall j :: 0 <= j < |at| ==> (front + [item])[at[j]] == front[at[j]];
  }

  lemma RowsMore(document: Json, items: seq<Json>, rows: seq<Json>, at: seq<nat>, row: Json, n: nat, ext: Extensions)
    requires RowsAt(document, rows, items, at, ext) && n < |items| && IsRow(document, row, items[n], ext)
    ensures RowsAt(document, rows + [row], items, at + [n], ext)
  {
    hide IsRow;
  }

  /** The cut is this and nothing else: of each part of the operation, exactly the members listed, each the vendor's. */
  lemma CutExactly(document: Json, raw: Json, ext: Extensions)
    requires PartsDefined(document, raw)
    ensures CutOf(OperationCut(document, raw, ext), document, raw, ext)
  {
    hide MembersKept, MembersDrops, Member, RepliesOf, BodyOf, RowsOf, Target, TargetOrNull, ObjectPiece,
        ParametersKept, Fine;
    if raw.Obj? {
      var out := MembersKept(InOperation, document, raw.fields, ext);
      forall key | key in out
        ensures key in {"operationId", "deprecated", "parameters", "requestBody", "responses"}
      {
        KeptAt(InOperation, document, raw.fields, ext, key);
      }
      KeptMember(InOperation, document, raw.fields, ext, "operationId");
      KeptMember(InOperation, document, raw.fields, ext, "deprecated");
      MemberThere(raw, "operationId");
      MemberThere(raw, "deprecated");
      OperationPartsKept(document, raw, ext);
    } else {
      NothingOfNothing("operationId");
      NothingOfNothing("deprecated");
      NothingOfNothing("parameters");
      NothingOfNothing("requestBody");
      NothingOfNothing("responses");
    }
  }

  lemma OperationPartsKept(document: Json, raw: Json, ext: Extensions)
    requires raw.Obj? && Fine(InOperation, document, raw.fields)
    ensures var out := Obj(MembersKept(InOperation, document, raw.fields, ext));
            && ParametersOf(document, Member(Some(out), "parameters"), Member(Some(raw), "parameters"), ext)
            && RequestOf(document, Member(Some(out), "requestBody"), Member(Some(raw), "requestBody"), ext)
            && ResponsesOf(document, Member(Some(out), "responses"), Member(Some(raw), "responses"), ext)
  {
    hide MembersKept, MembersDrops, RepliesOf, BodyOf, RowsOf, Target, TargetOrNull, ObjectPiece, ParametersKept,
        ParametersDrops;
    var fields := raw.fields;
    KeptMember(InOperation, document, fields, ext, "parameters");
    KeptMember(InOperation, document, fields, ext, "requestBody");
    KeptMember(InOperation, document, fields, ext, "responses");
    if "parameters" in fields {
      assert FineMember(InOperation, document, "parameters", fields["parameters"]);
      var items := Items(Some(fields["parameters"]));
      ParametersKeptExactly(document, items, ext);
      NoParameters(document, ext);
    }
    if "requestBody" in fields {
      assert FineMember(InOperation, document, "requestBody", fields["requestBody"]);
      BodyIsTarget(document, fields["requestBody"]);
      BodyKept(document, Target(document, fields["requestBody"]).value, ext);
    }
    if "responses" in fields {
      assert FineMember(InOperation, document, "responses", fields["responses"]);
      RepliesKept(document, fields["responses"], ext);
    }
  }

  // What stands there, if anything does, stands for something.
  ghost predicate Defined(document: Json, node: Option<Json>) {
    node.Some? ==> Target(document, node.value).Some?
  }

  ghost predicate AllDefined(document: Json, items: seq<Json>) {
    forall i :: 0 <= i < |items| ==> Defined(document, Some(items[i]))
  }

  /** It can be cut exactly when each parameter, the body and each response stands for something. */
  lemma DefinedExactly(document: Json, raw: Json)
    ensures PartsDefined(document, raw)
       <==> && AllDefined(document, Items(Member(Some(raw), "parameters")))
            && Defined(document, Member(Some(raw), "requestBody"))
            && forall status :: Defined(document, Member(Member(Some(raw), "responses"), status))
  {
    hide Target, FineMember, Defined, AllDefined, Member;
    MemberOf(raw, "parameters");
    MemberOf(raw, "requestBody");
    MemberOf(raw, "responses");
    NothingDefined(document);
    if raw.Obj? {
      forall key | key in raw.fields
        ensures FineMember(InOperation, document, key, raw.fields[key])
           <==> && (key == "parameters" ==> AllDefined(document, Items(Some(raw.fields[key]))))
                && (key == "requestBody" ==> Defined(document, Some(raw.fields[key])))
                && (key == "responses" ==>
                      forall status :: Defined(document, Member(Some(raw.fields[key]), status)))
      {
        MemberDefined(document, key, raw.fields[key]);
      }
    }
  }

  lemma MemberOf(node: Json, key: string)
    ensures Member(Some(node), key) == if node.Obj? && key in node.fields then Some(node.fields[key]) else None
    ensures forall next :: Member(None, next) == None
  {
  }

  lemma NothingDefined(document: Json)
    ensures AllDefined(document, []) && Defined(document, None) && Items(None) == []
  {
  }

  lemma MemberDefined(document: Json, key: string, value: Json)
    ensures FineMember(InOperation, document, key, value)
       <==> && (key == "parameters" ==> AllDefined(document, Items(Some(value))))
            && (key == "requestBody" ==> Defined(document, Some(value)))
            && (key == "responses" ==> forall status :: Defined(document, Member(Some(value), status)))
  {
    hide Target;
    if key == "responses" {
      if value.Obj? {
        forall status | status in value.fields
          ensures FineMember(InResponses, document, status, value.fields[status])
             <==> Defined(document, Member(Some(value), status))
        {
        }
      }
    } else if key == "parameters" && value.Arr? {
      forall i | 0 <= i < |value.items|
        ensures Target(document, value.items[i]).Some? <==> Defined(document, Some(value.items[i]))
      {
      }
    }
  }

  // ----- what the ledger learns

  // A member that the object has and that is none of these.
  predicate Struck(node: Json, names: set<string>, name: string) {
    node.Obj? && name in node.fields && name !in names
  }

  ghost predicate SchemaStrikes(node: Json, name: string, ext: Extensions) {
    Member(Some(node), "schema").Some? && ShownIn(Member(Some(node), "schema").value, name, ext)
  }

  ghost predicate RowStrikes(parameter: Json, name: string, ext: Extensions) {
    Struck(parameter, {"name", "in", "required", "schema"}, name) || SchemaStrikes(parameter, name, ext)
  }

  ghost predicate MediaStrikes(spec: Json, name: string, ext: Extensions) {
    Struck(spec, {"schema"}, name) || SchemaStrikes(spec, name, ext)
  }

  ghost predicate ContentStrikes(node: Json, name: string, ext: Extensions) {
    && node.Obj? && "content" in node.fields && node.fields["content"].Obj?
    && exists media :: media in node.fields["content"].fields
         && MediaStrikes(node.fields["content"].fields[media], name, ext)
  }

  ghost predicate BodyStrikes(body: Json, name: string, ext: Extensions) {
    Struck(body, {"required", "content"}, name) || ContentStrikes(body, name, ext)
  }

  ghost predicate ReplyStrikes(reply: Json, name: string, ext: Extensions) {
    Struck(reply, {"description", "content"}, name) || ContentStrikes(reply, name, ext)
  }

  ghost predicate ParametersStrike(document: Json, raw: Json, name: string, ext: Extensions) {
    var items := Items(Member(Some(raw), "parameters"));
    exists i :: 0 <= i < |items| && Target(document, items[i]).Some?
      && RowStrikes(Target(document, items[i]).value, name, ext)
  }

  ghost predicate RequestStrikes(document: Json, raw: Json, name: string, ext: Extensions) {
    var body := TargetOf(document, Member(Some(raw), "requestBody"));
    body.Some? && BodyStrikes(body.value, name, ext)
  }

  ghost predicate ReplyStrikesAt(document: Json, item: Json, name: string, ext: Extensions) {
    Target(document, item).Some? && ReplyStrikes(Target(document, item).value, name, ext)
  }

  ghost predicate ResponsesStrike(document: Json, raw: Json, name: string, ext: Extensions) {
    && raw.Obj? && "responses" in raw.fields && raw.fields["responses"].Obj?
    && exists status :: status in raw.fields["responses"].fields
         && ReplyStrikesAt(document, raw.fields["responses"].fields[status], name, ext)
  }

  // The name of a member that is left out somewhere in the operation, or of an annotation in some schema of it.
  ghost predicate OperationStrikes(document: Json, raw: Json, name: string, ext: Extensions) {
    || Struck(raw, {"operationId", "deprecated", "parameters", "requestBody", "responses"}, name)
    || ParametersStrike(document, raw, name, ext) || RequestStrikes(document, raw, name, ext)
    || ResponsesStrike(document, raw, name, ext)
  }

  lemma LeafDropsExactly(role: Role, document: Json, node: Json, name: string, ext: Extensions)
    requires Declared(ext) && (role == InParameter || role == InMedia)
    ensures name in ObjectPiece(role, document, node, ext).dropped
       <==> if role == InParameter then RowStrikes(node, name, ext) else MediaStrikes(node, name, ext)
  {
    hide MembersKept, MembersDrops, Cleaned, Stripped, Declared, ShownIn;
    if node.Obj? {
      InDrops(role, document, node.fields, ext, name);
      if "schema" in node.fields { StrippedExactly(node.fields["schema"], ext, name); }
    }
  }

  lemma ContentDropsExactly(document: Json, node: Json, name: string, ext: Extensions)
    requires Declared(ext) && node.Obj? && "content" in node.fields && node.fields["content"].Obj?
    ensures name in ObjectPiece(InContent, document, node.fields["content"], ext).dropped
       <==> ContentStrikes(node, name, ext)
  {
    hide MembersKept, MembersDrops, Cleaned, Stripped, Declared, MediaStrikes;
    var content := node.fields["content"].fields;
    InDrops(InContent, document, content, ext, name);
    forall media | media in content
      ensures name in PieceOf(InContent, document, media, content[media], ext).dropped
         <==> MediaStrikes(content[media], name, ext)
    {
      LeafDropsExactly(InMedia, document, content[media], name, ext);
    }
  }

  lemma BodyDropsExactly(role: Role, document: Json, node: Json, name: string, ext: Extensions)
    requires Declared(ext) && (role == InBody || role == InResponse)
    ensures name in ObjectPiece(role, document, node, ext).dropped
       <==> if role == InBody then BodyStrikes(node, name, ext) else ReplyStrikes(node, name, ext)
  {
    hide MembersKept, MembersDrops, Cleaned, Stripped, Declared, MediaStrikes;
    if node.Obj? {
      InDrops(role, document, node.fields, ext, name);
      if "content" in node.fields && node.fields["content"].Obj? { ContentDropsExactly(document, node, name, ext); }
    }
  }

  lemma {:induction false} ParametersDropExactly(document: Json, items: seq<Json>, name: string, ext: Extensions)
    requires Declared(ext) && forall i :: 0 <= i < |items| ==> Target(document, items[i]).Some?
    ensures name in ParametersDrops(document, items, ext)
       <==> exists i :: 0 <= i < |items| && RowStrikes(Target(document, items[i]).value, name, ext)
  {
    hide MembersKept, MembersDrops, Declared, RowStrikes, Target, TargetOrNull;
    if items != [] {
      var n := |items| - 1;
      ParametersDropExactly(document, items[..n], name, ext);
      BodyIsTarget(document, items[n]);
      LeafDropsExactly(InParameter, document, Target(document, items[n]).value, name, ext);
      NoMembers(InParameter, document, ext);
      assert forall i :: 0 <= i < n ==> items[..n][i] == items[i];
    }
  }

  lemma ParametersStrikeExactly(document: Json, raw: Json, value: Json, name: string, ext: Extensions)
    requires Declared(ext) && Member(Some(raw), "parameters") == Some(value)
    requires FineMember(InOperation, document, "parameters", value)
    ensures name in PieceOf(InOperation, document, "parameters", value, ext).dropped
       <==> ParametersStrike(document, raw, name, ext)
  {
    hide MembersKept, MembersDrops, Declared, RowStrikes, Target, TargetOrNull, ParametersKept, ParametersDrops, Member;
    if value.Arr? {
      ParametersDropExactly(document, value.items, name, ext);
      if i :| 0 <= i < |value.items| && RowStrikes(Target(document, value.items[i]).value, name, ext) {
        assert Target(document, Items(Some(value))[i]).Some?;
      }
    }
  }

  lemma RepliesDropExactly(document: Json, fields: map<string, Json>, name: string, ext: Extensions)
    requires Declared(ext) && Fine(InResponses, document, fields)
    ensures name in MembersDrops(InResponses, document, fields, ext)
       <==> exists status :: status in fields && ReplyStrikesAt(document, fields[status], name, ext)
  {
    hide MembersKept, MembersDrops, Declared, ReplyStrikes, Target, TargetOrNull;
    InDrops(InResponses, document, fields, ext, name);
    forall status | status in fields
      ensures name in PieceOf(InResponses, document, status, fields[status], ext).dropped
         <==> ReplyStrikesAt(document, fields[status], name, ext)
    {
      assert FineMember(InResponses, document, status, fields[status]);
      BodyIsTarget(document, fields[status]);
      BodyDropsExactly(InResponse, document, Target(document, fields[status]).value, name, ext);
    }
  }

  // What each member of the operation adds.
  ghost predicate MemberStrikes(document: Json, raw: Json, key: string, name: string, ext: Extensions) {
    if key == "parameters" then ParametersStrike(document, raw, name, ext)
    else if key == "requestBody" then RequestStrikes(document, raw, name, ext)
    else if key == "responses" then ResponsesStrike(document, raw, name, ext)
    else name == key && key != "operationId" && key != "deprecated"
  }

  lemma MemberDropsExactly(document: Json, raw: Json, key: string, name: string, ext: Extensions)
    requires Declared(ext) && raw.Obj? && key in raw.fields && FineMember(InOperation, document, key, raw.fields[key])
    ensures name in PieceOf(InOperation, document, key, raw.fields[key], ext).dropped
       <==> MemberStrikes(document, raw, key, name, ext)
  {
    hide MembersKept, MembersDrops, Declared, RowStrikes, BodyStrikes, ReplyStrikes, Target, TargetOrNull,
        ParametersKept, ParametersDrops, ParametersStrike, ReplyStrikesAt;
    var value := raw.fields[key];
    if key == "parameters" {
      assert Member(Some(raw), "parameters") == Some(value);
      ParametersStrikeExactly(document, raw, value, name, ext);
    } else if key == "requestBody" {
      BodyIsTarget(document, value);
      BodyDropsExactly(InBody, document, Target(document, value).value, name, ext);
    } else if key == "responses" {
      if value.Obj? { RepliesDropExactly(document, value.fields, name, ext); }
    }
  }

  /** The ledger's part of a cut, exactly. */
  lemma DropsExactly(document: Json, raw: Json, name: string, ext: Extensions)
    requires Declared(ext) && PartsDefined(document, raw)
    ensures name in OperationDrops(document, raw, ext) <==> OperationStrikes(document, raw, name, ext)
  {
    hide MembersKept, MembersDrops, Declared, ParametersStrike, RequestStrikes, ResponsesStrike, PieceOf, FineMember;
    NothingStrikes(document, raw, name, ext);
    if raw.Obj? {
      InDrops(InOperation, document, raw.fields, ext, name);
      forall key | key in raw.fields
        ensures name in PieceOf(InOperation, document, key, raw.fields[key], ext).dropped
           <==> MemberStrikes(document, raw, key, name, ext)
      {
        MemberDropsExactly(document, raw, key, name, ext);
      }
    }
  }

  // Only a member that is there strikes anything.
  lemma NothingStrikes(document: Json, raw: Json, name: string, ext: Extensions)
    ensures ParametersStrike(document, raw, name, ext) ==> raw.Obj? && "parameters" in raw.fields
    ensures RequestStrikes(document, raw, name, ext) ==> raw.Obj? && "requestBody" in raw.fields
    ensures ResponsesStrike(document, raw, name, ext) ==> raw.Obj? && "responses" in raw.fields
  {
    hide RowStrikes, BodyStrikes, ReplyStrikesAt, Target;
  }
}
