/** Where an operation holds schemas, and that cutting and renaming leave there what the vendor has. */
module Places {
  import opened Wrappers
  import opened JsonTree
  import opened References
  import opened Cleaning
  import opened Operations

  // Where an operation holds a schema: in the body it asks for, in one it answers with, or in its n-th parameter.
  datatype Place = Request(media: string) | Reply(status: string, media: string) | Row(n: nat)

  function ContentSchema(node: Option<Json>, media: string): Option<Json> {
    Member(Member(Member(node, "content"), media), "schema")
  }

  // The parameters that are objects, their references followed, in order.
  function Rows(document: Json, items: seq<Json>): seq<Json> {
    if items == [] then []
    else
      var parameter := TargetOrNull(document, items[|items| - 1]);
      Rows(document, items[..|items| - 1]) + if parameter.Obj? then [parameter] else []
  }

  function Items(node: Option<Json>): seq<Json> {
    if node.Some? && node.value.Arr? then node.value.items else []
  }

  function At(items: seq<Json>, n: nat): Option<Json> {
    if n < |items| then Some(items[n]) else None
  }

  // The request, reply or parameter that a place is in, its reference followed.
  function Holder(document: Json, operation: Json, place: Place): Option<Json> {
    match place
    case Row(n) => At(Rows(document, Items(Member(Some(operation), "parameters"))), n)
    case Request(_) => TargetOf(document, Member(Some(operation), "requestBody"))
    case Reply(status, _) => TargetOf(document, Member(Member(Some(operation), "responses"), status))
  }

  function SchemaIn(holder: Option<Json>, place: Place): Option<Json> {
    if place.Row? then Member(holder, "schema") else ContentSchema(holder, place.media)
  }

  function SchemaAt(document: Json, operation: Json, place: Place): Option<Json> {
    SchemaIn(Holder(document, operation, place), place)
  }

  function CleanedIf(schema: Option<Json>, ext: Extensions): Option<Json> {
    if schema.Some? then Some(Cleaned(schema.value, ext)) else None
  }

  lemma KeptMember(role: Role, document: Json, fields: map<string, Json>, ext: Extensions, key: string)
    ensures Member(Some(Obj(MembersKept(role, document, fields, ext))), key)
         == if key in fields then PieceOf(role, document, key, fields[key], ext).kept else None
  {
    hide MembersKept, PieceOf;
    KeptAt(role, document, fields, ext, key);
  }

  lemma MediaSchema(document: Json, spec: Json, ext: Extensions)
    ensures ObjectPiece(InMedia, document, spec, ext).kept.Some?
    ensures Member(ObjectPiece(InMedia, document, spec, ext).kept, "schema")
         == CleanedIf(Member(Some(spec), "schema"), ext)
  {
    hide MembersKept, MembersDrops, Cleaned, Stripped;
    if spec.Obj? { KeptMember(InMedia, document, spec.fields, ext, "schema"); }
  }

  // What a body or a response keeps under a media type is the schema there, cleaned.
  lemma ContentKept(role: Role, document: Json, fields: map<string, Json>, ext: Extensions, media: string)
    requires role == InBody || role == InResponse
    ensures ContentSchema(Some(Obj(MembersKept(role, document, fields, ext))), media)
         == CleanedIf(ContentSchema(Some(Obj(fields)), media), ext)
  {
    hide MembersKept, MembersDrops, Cleaned, Stripped;
    KeptMember(role, document, fields, ext, "content");
    if "content" in fields && fields["content"].Obj? {
      var content := fields["content"].fields;
      KeptMember(InContent, document, content, ext, media);
      if media in content { MediaSchema(document, content[media], ext); }
    }
  }

  lemma ObjectContentKept(role: Role, document: Json, value: Json, ext: Extensions, media: string)
    requires role == InBody || role == InResponse
    ensures ObjectPiece(role, document, value, ext).kept.Some?
    ensures ContentSchema(ObjectPiece(role, document, value, ext).kept, media)
         == CleanedIf(ContentSchema(Some(value), media), ext)
  {
    hide MembersKept, MembersDrops, Cleaned, ContentSchema;
    if value.Obj? {
      ContentKept(role, document, value.fields, ext, media);
    } else {
      NoContent(value, media);
    }
  }

  lemma NoContent(value: Json, media: string)
    ensures !value.Obj? ==> ContentSchema(Some(value), media) == None
    ensures ContentSchema(Some(Obj(map[])), media) == None
  {
  }

  /** A kept operation has at every place the vendor's schema there, cleaned, whichever document it is read in. */
  lemma PlaceKept(document: Json, other: Json, raw: Json, place: Place, ext: Extensions)
    requires PartsDefined(document, raw)
    ensures SchemaAt(other, OperationCut(document, raw, ext), place)
         == CleanedIf(SchemaAt(document, raw, place), ext)
  {
    hide MembersKept, MembersDrops, Cleaned, PieceOf, Fine, SchemaAt;
    if raw.Obj? {
      match place
      case Request(media) => RequestKept(document, other, raw.fields, media, ext);
      case Reply(status, media) => ReplyKept(document, other, raw.fields, status, media, ext);
      case Row(n) => RowKept(document, other, raw.fields, n, ext);
    } else {
      NothingAt(document, raw, place);
      NothingAt(other, Obj(map[]), place);
    }
  }

  lemma NothingAt(document: Json, operation: Json, place: Place)
    requires operation.Obj? ==> operation.fields == map[]
    ensures SchemaAt(document, operation, place) == None
  {
    hide ContentSchema, Rows;
    NoRows(document);
    if !place.Row? { NothingThere(place.media); }
  }

  lemma NoRows(document: Json)
    ensures Rows(document, []) == []
  {
  }

  // What is kept of the parameters is what is kept of each that is an object.
  lemma {:induction false} RowsKept(document: Json, items: seq<Json>, ext: Extensions)
    ensures var rows, kept := Rows(document, items), ParametersKept(document, items, ext);
            && |kept| == |rows|
            && forall n :: 0 <= n < |rows| ==>
                 rows[n].Obj? && kept[n] == Obj(MembersKept(InParameter, document, rows[n].fields, ext))
  {
    hide MembersKept, TargetOrNull;
    if items != [] { RowsKept(document, items[..|items| - 1], ext); }
  }

  // Objects that are no references are their own rows.
  lemma {:induction false} RowsThemselves(document: Json, items: seq<Json>)
    requires forall n :: 0 <= n < |items| ==> Unreferring(Some(items[n]))
    ensures Rows(document, items) == items
  {
    if items != [] {
      RowsThemselves(document, items[..|items| - 1]);
      ItselfWithoutRef(document, items[|items| - 1]);
    }
  }

  lemma KeptRowsUnreferring(document: Json, items: seq<Json>, ext: Extensions)
    ensures forall n :: 0 <= n < |ParametersKept(document, items, ext)| ==>
              Unreferring(Some(ParametersKept(document, items, ext)[n]))
  {
    hide MembersKept, ParametersKept, Rows;
    RowsKept(document, items, ext);
    var kept := ParametersKept(document, items, ext);
    forall n | 0 <= n < |kept| ensures Unreferring(Some(kept[n])) {
      NoRefKept(document, Rows(document, items)[n].fields, ext);
    }
  }

  lemma RowKept(document: Json, other: Json, fields: map<string, Json>, n: nat, ext: Extensions)
    ensures SchemaAt(other, Obj(MembersKept(InOperation, document, fields, ext)), Row(n))
         == CleanedIf(SchemaAt(document, Obj(fields), Row(n)), ext)
  {
    hide MembersKept, MembersDrops, Cleaned, Stripped, ParametersKept, ParametersDrops, Rows;
    KeptMember(InOperation, document, fields, ext, "parameters");
    var items := Items(Member(Some(Obj(fields)), "parameters"));
    RowsKept(document, items, ext);
    KeptRowsUnreferring(document, items, ext);
    RowsThemselves(other, ParametersKept(document, items, ext));
    NoneOfNone(document, other, ext);
    if n < |Rows(document, items)| {
      KeptMember(InParameter, document, Rows(document, items)[n].fields, ext, "schema");
    }
  }

  lemma NoneOfNone(document: Json, other: Json, ext: Extensions)
    ensures ParametersKept(document, [], ext) == [] && Rows(document, []) == [] == Rows(other, [])
  {
  }

  lemma RequestKept(document: Json, other: Json, fields: map<string, Json>, media: string, ext: Extensions)
    requires Fine(InOperation, document, fields)
    ensures SchemaAt(other, Obj(MembersKept(InOperation, document, fields, ext)), Request(media))
         == CleanedIf(SchemaAt(document, Obj(fields), Request(media)), ext)
  {
    hide MembersKept, MembersDrops, Cleaned, ContentSchema, ObjectPiece, Target, TargetOrNull;
    KeptMember(InOperation, document, fields, ext, "requestBody");
    if "requestBody" in fields {
      assert FineMember(InOperation, document, "requestBody", fields["requestBody"]);
      var body := Target(document, fields["requestBody"]).value;
      BodyIsTarget(document, fields["requestBody"]);
      ObjectContentKept(InBody, document, body, ext, media);
      BodyStands(document, other, body, ext);
    } else {
      NothingThere(media);
    }
  }

  lemma NothingThere(media: string)
    ensures ContentSchema(None, media) == None
  {
  }

  lemma BodyIsTarget(document: Json, node: Json)
    requires Target(document, node).Some?
    ensures TargetOrNull(document, node) == Target(document, node).value
  {
  }

  // A kept body or response is no reference.
  lemma BodyStands(document: Json, other: Json, value: Json, ext: Extensions)
    ensures ObjectPiece(InBody, document, value, ext).kept.Some?
    ensures Target(other, ObjectPiece(InBody, document, value, ext).kept.value)
         == ObjectPiece(InBody, document, value, ext).kept
  {
    hide MembersKept, MembersDrops;
    if value.Obj? { NoRefKept(document, value.fields, ext); }
  }

  lemma ReplyKept(document: Json, other: Json, fields: map<string, Json>, status: string, media: string,
                  ext: Extensions)
    requires Fine(InOperation, document, fields)
    ensures SchemaAt(other, Obj(MembersKept(InOperation, document, fields, ext)), Reply(status, media))
         == CleanedIf(SchemaAt(document, Obj(fields), Reply(status, media)), ext)
  {
    hide MembersKept, MembersDrops, Cleaned, ContentSchema, Target, TargetOrNull;
    NothingThere(media);
    KeptMember(InOperation, document, fields, ext, "responses");
    if "responses" in fields && fields["responses"].Obj? {
      var replies := fields["responses"].fields;
      KeptMember(InResponses, document, replies, ext, status);
      if status in replies {
        assert FineMember(InOperation, document, "responses", fields["responses"]);
        assert FineMember(InResponses, document, status, replies[status]);
        BodyIsTarget(document, replies[status]);
        ResponseKept(document, other, status, replies[status], media, ext);
      }
    }
  }

  lemma ResponseKept(document: Json, other: Json, status: string, item: Json, media: string, ext: Extensions)
    requires Target(document, item).Some?
    ensures var kept := PieceOf(InResponses, document, status, item, ext).kept;
            && kept.Some?
            && ContentSchema(TargetOf(other, kept), media)
               == CleanedIf(ContentSchema(Target(document, item), media), ext)
  {
    hide MembersKept, MembersDrops, Cleaned, Target, TargetOrNull;
    BodyIsTarget(document, item);
    var response := Target(document, item).value;
    var inner: map<string, Json> :=
      if response.Obj? then MembersKept(InResponse, document, response.fields, ext) else map[];
    if response.Obj? {
      NoRefKept(document, response.fields, ext);
      ContentKept(InResponse, document, response.fields, ext, media);
    }
    StandsForItself(other, inner, status);
    assert PieceOf(InResponses, document, status, item, ext).kept
        == Some(Obj(map["description" := Str(status)] + inner));
    var described := Obj(map["description" := Str(status)] + inner);
    assert Member(Some(described), "content") == Member(Some(Obj(inner)), "content");
  }

  // ----- the places of a rewritten operation

  function RewrittenIf(node: Option<Json>, rename: map<string, string>): Option<Json> {
    if node.Some? then Some(Rewrite(node.value, rename)) else None
  }

  lemma RewrittenMember(node: Option<Json>, key: string, rename: map<string, string>)
    ensures Member(RewrittenIf(node, rename), key)
         == if Member(node, key).Some? then Some(RewriteAt(key, Member(node, key).value, rename)) else None
  {
    hide RewriteAt;
    if node.Some? && node.value.Obj? { assert Rewrite(node.value, rename).fields.Keys == node.value.fields.Keys; }
  }

  // A member of a rewritten node is the member rewritten, as far as it has members itself.
  lemma MemberRewritten(node: Option<Json>, key: string, rename: map<string, string>)
    ensures key != "$ref" || Unreferring(Member(node, key)) ==>
              Member(RewrittenIf(node, rename), key) == RewrittenIf(Member(node, key), rename)
    ensures forall next :: Member(Member(RewrittenIf(node, rename), key), next)
                        == Member(RewrittenIf(Member(node, key), rename), next)
  {
    hide Member, RewrittenIf;
    RewrittenMember(node, key, rename);
    if Member(node, key).Some? { AtOrNot(key, Member(node, key).value, rename); }
    RewrittenNothing(rename);
  }

  lemma RewrittenNothing(rename: map<string, string>)
    ensures RewrittenIf(None, rename) == None
    ensures forall value :: RewrittenIf(Some(value), rename) == Some(Rewrite(value, rename))
  {
  }

  lemma AtOrNot(key: string, value: Json, rename: map<string, string>)
    ensures key != "$ref" || value.Obj? ==> RewriteAt(key, value, rename) == Rewrite(value, rename)
    ensures forall next ::
              Member(Some(RewriteAt(key, value, rename)), next) == Member(Some(Rewrite(value, rename)), next)
  {
  }

  lemma ContentRewritten(node: Option<Json>, media: string, rename: map<string, string>)
    ensures ContentSchema(RewrittenIf(node, rename), media) == RewrittenIf(ContentSchema(node, media), rename)
  {
    hide Rewrite, Member;
    MemberRewritten(node, "content", rename);
    MemberRewritten(Member(node, "content"), media, rename);
    MemberRewritten(Member(Member(node, "content"), media), "schema", rename);
  }

  // What stands for the request, reply or parameter before any reference is followed.
  function Slot(operation: Json, place: Place): Option<Json> {
    match place
    case Row(n) => At(Items(Member(Some(operation), "parameters")), n)
    case Request(_) => Member(Some(operation), "requestBody")
    case Reply(status, _) => Member(Member(Some(operation), "responses"), status)
  }

  predicate Unreferring(node: Option<Json>) {
    node.Some? ==> node.value.Obj? && "$ref" !in node.value.fields
  }

  // No reference stands at the place, nor among the parameters when it is one.
  ghost predicate Standing(operation: Json, place: Place) {
    if place.Row? then
      var items := Items(Member(Some(operation), "parameters"));
      forall n :: 0 <= n < |items| ==> Unreferring(Some(items[n]))
    else Unreferring(Slot(operation, place))
  }

  lemma KeptSlots(document: Json, raw: Json, place: Place, ext: Extensions)
    ensures Standing(OperationCut(document, raw, ext), place)
  {
    hide MembersKept, MembersDrops, Cleaned, Stripped, TargetOrNull, ParametersKept, ParametersDrops;
    if raw.Obj? {
      match place
      case Row(_) =>
        KeptMember(InOperation, document, raw.fields, ext, "parameters");
        KeptRowsUnreferring(document, Items(Member(Some(raw), "parameters")), ext);
      case Request(_) =>
        KeptMember(InOperation, document, raw.fields, ext, "requestBody");
        if "requestBody" in raw.fields {
          var body := TargetOrNull(document, raw.fields["requestBody"]);
          if body.Obj? { NoRefKept(document, body.fields, ext); }
        }
      case Reply(status, _) =>
        KeptMember(InOperation, document, raw.fields, ext, "responses");
        if "responses" in raw.fields && raw.fields["responses"].Obj? {
          var replies := raw.fields["responses"].fields;
          KeptMember(InResponses, document, replies, ext, status);
          if status in replies {
            var response := TargetOrNull(document, replies[status]);
            if response.Obj? { NoRefKept(document, response.fields, ext); }
          }
        }
    }
  }

  lemma SlotRewritten(operation: Json, place: Place, rename: map<string, string>)
    requires Standing(operation, place)
    ensures Slot(Rewrite(operation, rename), place) == RewrittenIf(Slot(operation, place), rename)
    ensures Standing(Rewrite(operation, rename), place)
  {
    hide Rewrite, Member;
    var node := Some(operation);
    assert RewrittenIf(node, rename) == Some(Rewrite(operation, rename));
    match place
    case Row(n) =>
      MemberRewritten(node, "parameters", rename);
      RowsRewritten(Member(node, "parameters"), rename);
    case Request(_) =>
      StillUnreferring(Slot(operation, place), rename);
      MemberRewritten(node, "requestBody", rename);
    case Reply(status, _) =>
      StillUnreferring(Slot(operation, place), rename);
      MemberRewritten(node, "responses", rename);
      MemberRewritten(Member(node, "responses"), status, rename);
  }

  lemma RowsRewritten(node: Option<Json>, rename: map<string, string>)
    ensures var items, rewritten := Items(node), Items(RewrittenIf(node, rename));
            && |items| == |rewritten|
            && forall n :: 0 <= n < |items| ==>
                 && rewritten[n] == Rewrite(items[n], rename)
                 && (Unreferring(Some(items[n])) ==> Unreferring(Some(rewritten[n])))
  {
    var items := Items(node);
    forall n | 0 <= n < |items| ensures Unreferring(Some(items[n])) ==> Unreferring(Some(Rewrite(items[n], rename))) {
      if Unreferring(Some(items[n])) { StillUnreferring(Some(items[n]), rename); }
    }
  }

  lemma StillUnreferring(node: Option<Json>, rename: map<string, string>)
    requires Unreferring(node)
    ensures Unreferring(RewrittenIf(node, rename))
  {
  }

  lemma UnreferringStands(other: Json, node: Option<Json>)
    requires Unreferring(node)
    ensures TargetOf(other, node) == node
  {
  }

  /** Once its references follow its source's renames, a kept operation has at every place the schema rewritten. */
  lemma PlaceRewritten(document: Json, other: Json, raw: Json, place: Place, ext: Extensions,
                       rename: map<string, string>)
    ensures var operation := OperationCut(document, raw, ext);
            SchemaAt(other, Rewrite(operation, rename), place) == RewrittenIf(SchemaAt(other, operation, place), rename)
  {
    hide OperationCut, Rewrite, Member, ContentSchema, TargetOf, Slot, Holder, Standing;
    var operation := OperationCut(document, raw, ext);
    KeptSlots(document, raw, place, ext);
    SlotRewritten(operation, place, rename);
    HolderIsSlot(other, operation, place);
    HolderIsSlot(other, Rewrite(operation, rename), place);
    if place.Row? {
      MemberRewritten(Slot(operation, place), "schema", rename);
    } else {
      ContentRewritten(Slot(operation, place), place.media, rename);
    }
  }

  lemma HolderIsSlot(other: Json, operation: Json, place: Place)
    requires Standing(operation, place)
    ensures Holder(other, operation, place) == Slot(operation, place)
  {
    if place.Row? {
      RowsThemselves(other, Items(Member(Some(operation), "parameters")));
    } else {
      UnreferringStands(other, Slot(operation, place));
    }
  }

  // A schema refers to nothing but what the operation refers to.
  lemma PlaceRefs(other: Json, operation: Json, place: Place)
    requires Standing(operation, place) && SchemaAt(other, operation, place).Some?
    ensures Refs(SchemaAt(other, operation, place).value) <= Refs(operation)
  {
    hide Refs, Member, Standing;
    HolderIsSlot(other, operation, place);
    hide Holder;
    var slot := Slot(operation, place);
    match place
    case Request(media) =>
      MemberIn(Some(operation), "requestBody");
      ContentIn(slot, media);
    case Reply(status, media) =>
      MemberIn(Some(operation), "responses");
      MemberIn(Member(Some(operation), "responses"), status);
      ContentIn(slot, media);
    case Row(n) =>
      MemberIn(Some(operation), "parameters");
      RowIn(Member(Some(operation), "parameters"), n);
      MemberIn(slot, "schema");
  }

  lemma ContentIn(holder: Option<Json>, media: string)
    ensures RefsIf(ContentSchema(holder, media)) <= RefsIf(holder)
  {
    hide Refs, Member;
    MemberIn(holder, "content");
    MemberIn(Member(holder, "content"), media);
    MemberIn(Member(Member(holder, "content"), media), "schema");
  }

  lemma RowIn(list: Option<Json>, n: nat)
    ensures RefsIf(At(Items(list), n)) <= RefsIf(list)
  {
    hide Refs;
    if n < |Items(list)| { ItemRefs(list.value, n); }
  }

  function RefsIf(node: Option<Json>): set<string> {
    if node.Some? then Refs(node.value) else {}
  }

  lemma MemberIn(node: Option<Json>, key: string)
    ensures RefsIf(Member(node, key)) <= RefsIf(node)
    ensures Member(node, key).Some? ==> node.Some?
  {
    hide Refs;
    if Member(node, key).Some? {
      MemberRefs(node.value, key);
      NoneMoreAt(key, node.value.fields[key]);
    }
  }

  lemma NoneMoreAt(key: string, value: Json)
    ensures Refs(value) <= RefsAt(key, value)
  {
  }
}
