/** The session's validator: which schema checks a body, remembered per route and status, and what is counted. */
module Validators {
  import opened Wrappers
  import opened JsonTree
  import opened Ledgers
  import Judging

  // ----- which schema

  // A key of an operation's `responses`: "404", "4XX" or "default".
  datatype StatusKey = Exact(status: int) | Range(hundreds: int) | Default

  // What an operation declares: each status's JSON schema, if it has a JSON body, and the request body's.
  datatype Operation = Operation(responses: map<StatusKey, Option<string>>, request: Option<string>)

  type Slot = (string, int)

  // `error_envelope` names the status whose schema also describes error bodies.
  datatype Declaration = Declaration(overrides: map<Slot, string>, errorSchema: Option<string>,
      errorEnvelope: Option<StatusKey>)

  // The schema a validator is built for: a named component, or one that stands in the operation.
  datatype Picked = Component(name: string) | Inline(schema: string)

  datatype Kind = InternalRoute | ExcusedRoute | UndeclaredRoute | OperationRoute(operation: Operation)

  /**
   What the session is given: the declaration, the extract's component names, the classification of routes,
   the two switches, and the parts this model does not look into. `collect` judges a body against a schema,
   `deliveries` are the webhooks entries with a schema, and `carries` says whether an error body carries the declared
   error member.
   */
  datatype Config = Config(
    declaration: Declaration,
    schemas: set<string>,
    classify: string -> Kind,
    strictUndeclared: bool,
    validateRequests: bool,
    collect: (Picked, Json, string) -> Judging.Verdict,
    collectRequest: (string, Json, string) -> Judging.Verdict,
    deliveries: set<string>,
    collectDelivery: (string, Json) -> Judging.Verdict,
    carries: Json -> bool)

  function SchemaFor(op: Operation, key: StatusKey): Option<string> {
    if key in op.responses then op.responses[key] else None
  }

  /** `Operation.response_schema`: exact, then range, then default, then, for an error, the envelope. */
  function ResponseSchema(op: Operation, status: int, envelope: Option<StatusKey>): Option<string> {
    var exact, range, default_ := SchemaFor(op, Exact(status)), SchemaFor(op, Range(status / 100)),
        SchemaFor(op, Default);
    if exact.Some? then exact
    else if range.Some? then range
    else if default_.Some? then default_
    else if status >= 400 && envelope.Some? then SchemaFor(op, envelope.value)
    else None
  }

  // The operation names the status, exactly or by its range.
  predicate NamesStatus(op: Operation, status: int) {
    Exact(status) in op.responses || Range(status / 100) in op.responses
  }

  predicate ViaEnvelope(cfg: Config, op: Operation, status: int) {
    && ResponseSchema(op, status, cfg.declaration.errorEnvelope).Some?
    && cfg.declaration.errorEnvelope.Some?
    && !NamesStatus(op, status) && Default !in op.responses
  }

  /** The resolution order: override, declared schema or envelope, error schema, nothing. None is an error. */
  function Resolved(cfg: Config, key: string, op: Operation, status: int): Option<Option<Picked>> {
    var d := cfg.declaration;
    var schema := ResponseSchema(op, status, d.errorEnvelope);
    if (key, status) in d.overrides then
      if d.overrides[(key, status)] in cfg.schemas then Some(Some(Component(d.overrides[(key, status)]))) else None
    else if schema.Some? then Some(Some(Inline(schema.value)))
    else if status >= 400 && d.errorSchema.Some? then
      if d.errorSchema.value in cfg.schemas then Some(Some(Component(d.errorSchema.value))) else None
    else Some(None)
  }

  // A status the document does not declare, answered through the error schema or the envelope.
  predicate IsUndeclaredStatus(cfg: Config, key: string, op: Operation, status: int) {
    var schema := ResponseSchema(op, status, cfg.declaration.errorEnvelope);
    && (key, status) !in cfg.declaration.overrides
    && (if schema.Some? then ViaEnvelope(cfg, op, status)
        else status >= 400 && cfg.declaration.errorSchema.Some? && !NamesStatus(op, status))
  }

  // ----- the memo

  // `hooks` says of each webhooks entry met so far whether the extract has a schema for it.
  datatype Memo = Memo(validators: map<Slot, Option<Picked>>, via: map<Slot, bool>, undeclared: set<Slot>, built: nat,
                       hooks: map<string, bool>)

  const NO_MEMO := Memo(map[], map[], {}, 0, map[])

  /** `_validator_for`, branch by branch; none is the source's RuntimeError, which leaves the tables half filled. */
  function ValidatorFor(memo: Memo, cfg: Config, key: string, op: Operation, status: int): (Memo,
                        Option<Option<Picked>>) {
    var slot := (key, status);
    if slot in memo.validators then (memo, Some(memo.validators[slot]))
    else
      var d := cfg.declaration;
      var schema := ResponseSchema(op, status, d.errorEnvelope);
      var via := ViaEnvelope(cfg, op, status);
      var noted := memo.(via := memo.via[slot := via]);
      if slot in d.overrides then
        if d.overrides[slot] !in cfg.schemas then (noted, None)
        else Remember(noted, slot, Some(Component(d.overrides[slot])))
      else if schema.None? && status >= 400 && d.errorSchema.Some? then
        var marked := if NamesStatus(op, status) then noted else noted.(undeclared := noted.undeclared + {slot});
        if d.errorSchema.value !in cfg.schemas then (marked, None)
        else Remember(marked, slot, Some(Component(d.errorSchema.value)))
      else if schema.Some? then
        var marked := if via then noted.(undeclared := noted.undeclared + {slot}) else noted;
        Remember(marked, slot, Some(Inline(schema.value)))
      else Remember(noted, slot, None)
  }

  function Remember(memo: Memo, slot: Slot, picked: Option<Picked>): (Memo, Option<Option<Picked>>) {
    (memo.(validators := memo.validators[slot := picked], built := memo.built + if picked.Some? then 1 else 0),
        Some(picked))
  }

  ghost predicate SlotAgrees(memo: Memo, cfg: Config, slot: Slot) {
    var kind := cfg.classify(slot.0);
    && kind.OperationRoute?
    && (slot in memo.via ==> memo.via[slot] == ViaEnvelope(cfg, kind.operation, slot.1))
    && (slot in memo.undeclared ==> IsUndeclaredStatus(cfg, slot.0, kind.operation, slot.1))
    && (slot in memo.validators ==>
          && slot in memo.via
          && Resolved(cfg, slot.0, kind.operation, slot.1) == Some(memo.validators[slot])
          && (slot in memo.undeclared <==> IsUndeclaredStatus(cfg, slot.0, kind.operation, slot.1)))
  }

  // Every remembered schema is what the uncached rule gives, and so are the two tables.
  ghost predicate MemoAgrees(memo: Memo, cfg: Config) {
    && (forall slot :: slot in memo.validators || slot in memo.via || slot in memo.undeclared ==>
       SlotAgrees(memo, cfg, slot))
    && memo.built == |set slot | slot in memo.validators && memo.validators[slot].Some?|
    && (forall name :: name in memo.hooks ==> memo.hooks[name] == (name in cfg.deliveries))
  }

  lemma MemoStaysRight(memo: Memo, cfg: Config, key: string, status: int)
    requires MemoAgrees(memo, cfg) && cfg.classify(key).OperationRoute?
    ensures var op := cfg.classify(key).operation;
            var (next, picked) := ValidatorFor(memo, cfg, key, op, status);
            && MemoAgrees(next, cfg) && picked == Resolved(cfg, key, op, status)
            && (picked.Some? ==>
                  && (key, status) in next.via && next.via[(key, status)] == ViaEnvelope(cfg, op, status)
                  && ((key, status) in next.undeclared <==> IsUndeclaredStatus(cfg, key, op, status)))
  {
    hide Resolved, ViaEnvelope, IsUndeclaredStatus, ValidatorFor;
    var op := cfg.classify(key).operation;
    var slot := (key, status);
    var (next, picked) := ValidatorFor(memo, cfg, key, op, status);
    if slot in memo.validators {
      Remembered(memo, cfg, key, op, status);
      assert SlotAgrees(memo, cfg, slot);
    } else {
      Fresh(memo, cfg, key, op, status);
      if slot in memo.undeclared { assert SlotAgrees(memo, cfg, slot); }
      assert SlotAgrees(next, cfg, slot);
      forall s | s in next.validators || s in next.via || s in next.undeclared ensures SlotAgrees(next, cfg, s) {
        if s != slot { assert SlotAgrees(memo, cfg, s); }
      }
      BuiltCounts(memo, slot, picked);
    }
  }

  lemma Remembered(memo: Memo, cfg: Config, key: string, op: Operation, status: int)
    requires (key, status) in memo.validators
    ensures ValidatorFor(memo, cfg, key, op, status) == (memo, Some(memo.validators[(key, status)]))
  {
  }

  // What a first look at a route and status adds to the memo, whether or not it ends in an error.
  lemma Fresh(memo: Memo, cfg: Config, key: string, op: Operation, status: int)
    requires (key, status) !in memo.validators
    ensures var slot := (key, status);
            var (next, picked) := ValidatorFor(memo, cfg, key, op, status);
            && picked == Resolved(cfg, key, op, status)
            && next.via == memo.via[slot := ViaEnvelope(cfg, op, status)]
            && next.undeclared
               == (if IsUndeclaredStatus(cfg, key, op, status) then memo.undeclared + {slot} else memo.undeclared)
            && next.validators == Kept(memo, slot, picked) && next.hooks == memo.hooks
            && next.built == memo.built + if picked.Some? && picked.value.Some? then 1 else 0
  {
    hide ResponseSchema, NamesStatus;
  }

  function Kept(memo: Memo, slot: Slot, picked: Option<Option<Picked>>): map<Slot, Option<Picked>> {
    if picked.Some? then memo.validators[slot := picked.value] else memo.validators
  }

  lemma BuiltCounts(memo: Memo, slot: Slot, picked: Option<Option<Picked>>)
    requires memo.built == |set s | s in memo.validators && memo.validators[s].Some?|
    requires slot !in memo.validators
    ensures var kept := Kept(memo, slot, picked);
            memo.built + (if picked.Some? && picked.value.Some? then 1 else 0) == |set s | s in kept && kept[s].Some?|
  {
    var kept := Kept(memo, slot, picked);
    var was := set s | s in memo.validators && memo.validators[s].Some?;
    var now := set s | s in kept && kept[s].Some?;
    assert now == if picked.Some? && picked.value.Some? then was + {slot} else was;
  }

  // ----- one exchange

  // A body as the validator reads it: none, of another media type, not JSON after all, or JSON.
  datatype Body = NoBody | OtherMedia | Garbled | Parsed(value: Json)

  datatype Exchange = Exchange(key: string, routed: bool, status: int, request: Body, response: Body)

  datatype State = State(memo: Memo, books: Books)

  // Whether a step returned normally; the other outcome is that it raised, with the state it had reached.
  datatype Step = Step(state: State, returned: bool)

  function Success(status: int): bool {
    200 <= status < 300
  }

  /** `_validate_request`: the body the unit accepted, against the vendor's request schema. */
  function ValidatedRequest(s: State, cfg: Config, op: Operation, e: Exchange): Step {
    if !Success(e.status) || e.request.NoBody? || op.request.None? || e.request.OtherMedia? then Step(s, true)
    else if e.request.Garbled? then Step(s, false)
    else
      var v := cfg.collectRequest(op.request.value, e.request.value, e.key);
      if v.remaining != [] then Step(s, false)
      else Step(s.(books := AllAbsorbed(Recorded(s.books, e.key, RequestValidated), e.key, RequestDeviated,
          v.absorbed)), true)
  }

  /** `_validate`: the response body, against the schema the memo gives. */
  function ValidatedResponse(s: State, cfg: Config, op: Operation, e: Exchange): Step {
    if e.response.NoBody? || e.response.OtherMedia? then
      Step(s.(books := Recorded(s.books, e.key, SkippedNonJson)), true)
    else if e.response.Garbled? then Step(s, false)
    else
      var (memo, picked) := ValidatorFor(s.memo, cfg, e.key, op, e.status);
      if picked.None? || picked.value.None? then Step(s.(memo := memo), false)
      else
        var slot := (e.key, e.status);
        var v := cfg.collect(picked.value.value, e.response.value, e.key);
        var unmarked := e.status >= 400 && slot in memo.via && memo.via[slot] && !cfg.carries(e.response.value);
        if v.remaining != [] || unmarked then Step(s.(memo := memo), false)
        else
          var counted := Recorded(s.books, e.key, Counter.Validated);
          var noted := if slot in memo.undeclared then Recorded(counted, e.key, Counter.UndeclaredStatus) else counted;
          Step(State(memo, AllAbsorbed(noted, e.key, Deviated, v.absorbed)), true)
  }

  /** `observe` */
  function Observed(s: State, cfg: Config, e: Exchange): Step {
    if !e.routed then
      if Success(e.status) then Step(s, false) else Step(s.(books := Recorded(s.books, e.key, Unmatched)), true)
    else
      match cfg.classify(e.key)
      case InternalRoute => Step(s.(books := Recorded(s.books, e.key, Internal)), true)
      case ExcusedRoute => Step(s.(books := Recorded(s.books, e.key, Excused)), true)
      case UndeclaredRoute =>
        if cfg.strictUndeclared then Step(s, false)
        else Step(s.(books := Recorded(s.books, e.key, Counter.Undeclared)), true)
      case OperationRoute(op) =>
        var asked := if cfg.validateRequests then ValidatedRequest(s, cfg, op, e) else Step(s, true);
        if !asked.returned then asked else ValidatedResponse(asked.state, cfg, op, e)
  }

  /** `observe_delivery` */
  function Delivered(s: State, cfg: Config, name: string, body: Json): Step {
    var key := "WEBHOOK " + name;
    var memo := if name in s.memo.hooks then s.memo else s.memo.(hooks := s.memo.hooks[name := name in cfg.deliveries]);
    var v := cfg.collectDelivery(name, body);
    if !memo.hooks[name] || v.remaining != [] then Step(s.(memo := memo), false)
    else Step(State(memo, AllAbsorbed(Recorded(s.books, key, DeliveryValidated), key, Deviated, v.absorbed)), true)
  }

  // ----- any session

  datatype Event = Exchanged(exchange: Exchange) | Delivery(name: string,
      body: Json) | UnmatchedDelivery(eventType: string)

  function After(s: State, cfg: Config, event: Event): Step {
    match event
    case Exchanged(e) => Observed(s, cfg, e)
    case Delivery(name, body) => Delivered(s, cfg, name, body)
    case UnmatchedDelivery(eventType) =>
      Step(s.(books := Recorded(s.books, "DELIVERY " + eventType, DeliveryUnmatched)), true)
  }

  // A raise ends the one call; the session goes on from the state it left.
  function Session(s: State, cfg: Config, events: seq<Event>): State
    decreases |events|
  {
    if events == [] then s else After(Session(s, cfg, events[..|events| - 1]), cfg, events[|events| - 1]).state
  }

  // How many `observe` calls returned normally.
  function Returned(s: State, cfg: Config, events: seq<Event>): nat
    decreases |events|
  {
    if events == [] then 0
    else
      var front, last := events[..|events| - 1], events[|events| - 1];
      Returned(s, cfg, front) + if last.Exchanged? && After(Session(s, cfg, front), cfg, last).returned then 1 else 0
  }

  const START := State(NO_MEMO, NO_BOOKS)

  ghost predicate Balanced(b: Books) {
    Tally(b.rows, DEVIATIONS) == Sum(b.absorbed)
  }

  /**
   In any session, whichever calls raise part-way: the calls counted are the calls that returned, every use of a
   deviation is counted once by label and once by route, and the memo agrees with the uncached rule.
   */
  lemma {:induction false} SessionConserves(cfg: Config, events: seq<Event>)
    ensures var s := Session(START, cfg, events);
            && Tally(s.books.rows, CALLS) == Returned(START, cfg, events)
            && Balanced(s.books) && MemoAgrees(s.memo, cfg)
    decreases |events|
  {
    hide Observed, Delivered, Tally, MemoAgrees;
    if events == [] {
      NothingYet(cfg);
    } else {
      var front, last := events[..|events| - 1], events[|events| - 1];
      SessionConserves(cfg, front);
      var s := Session(START, cfg, front);
      match last
      case Exchanged(e) => ObservedConserves(s, cfg, e);
      case Delivery(name, body) => DeliveredConserves(s, cfg, name, body);
      case UnmatchedDelivery(eventType) => Tallied(s.books, "DELIVERY " + eventType, DeliveryUnmatched);
    }
  }

  lemma NothingYet(cfg: Config)
    ensures Tally(NO_BOOKS.rows, CALLS) == 0 && Balanced(NO_BOOKS) && MemoAgrees(NO_MEMO, cfg)
  {
    NoRows(CALLS);
    NoRows(DEVIATIONS);
    assert (set slot | slot in NO_MEMO.validators && NO_MEMO.validators[slot].Some?) == {};
  }

  lemma Tallied(b: Books, key: string, counter: Counter)
    ensures var next := Recorded(b, key, counter);
            && Tally(next.rows, CALLS) == Tally(b.rows, CALLS) + (if counter in CALLS then 1 else 0)
            && Tally(next.rows, DEVIATIONS) == Tally(b.rows, DEVIATIONS) + (if counter in DEVIATIONS then 1 else 0)
            && next.absorbed == b.absorbed
  {
    hide Tally;
    RecordTallies(b, key, counter, CALLS);
    RecordTallies(b, key, counter, DEVIATIONS);
  }

  lemma AbsorbedTallied(b: Books, key: string, counter: Counter, names: seq<string>)
    requires counter == Deviated || counter == RequestDeviated
    ensures var next := AllAbsorbed(b, key, counter, names);
            && Tally(next.rows, CALLS) == Tally(b.rows, CALLS)
            && (Balanced(b) ==> Balanced(next))
  {
    hide Tally, Sum, AllAbsorbed;
    AbsorbAllSums(b, key, counter, names, CALLS);
    AbsorbAllSums(b, key, counter, names, DEVIATIONS);
  }

  // What every step of a session keeps.
  ghost predicate Keeps(before: State, after: State, cfg: Config, called: bool) {
    && Tally(after.books.rows, CALLS) == Tally(before.books.rows, CALLS) + (if called then 1 else 0)
    && (Balanced(before.books) ==> Balanced(after.books))
    && (MemoAgrees(before.memo, cfg) ==> MemoAgrees(after.memo, cfg))
  }

  lemma DeliveredConserves(s: State, cfg: Config, name: string, body: Json)
    ensures Keeps(s, Delivered(s, cfg, name, body).state, cfg, false)
  {
    hide Tally, Sum, AllAbsorbed, MemoAgrees, Recorded;
    var key := "WEBHOOK " + name;
    Tallied(s.books, key, DeliveryValidated);
    AbsorbedTallied(Recorded(s.books, key, DeliveryValidated), key, Deviated, cfg.collectDelivery(name, body).absorbed);
    if MemoAgrees(s.memo, cfg) { HooksStayRight(s.memo, cfg, name); }
  }

  lemma HooksStayRight(memo: Memo, cfg: Config, name: string)
    requires MemoAgrees(memo, cfg)
    ensures MemoAgrees(memo.(hooks := memo.hooks[name := name in cfg.deliveries]), cfg)
  {
    hide ViaEnvelope, IsUndeclaredStatus, Resolved;
    var next := memo.(hooks := memo.hooks[name := name in cfg.deliveries]);
    forall slot | slot in next.validators || slot in next.via || slot in next.undeclared
      ensures SlotAgrees(next, cfg, slot)
    {
      assert SlotAgrees(memo, cfg, slot);
    }
  }

  /** What a delivery comes to does not depend on the deliveries before it. */
  lemma DeliveryMemoIsInvisible(memo: Memo, b: Books, cfg: Config, name: string, body: Json)
    requires MemoAgrees(memo, cfg)
    ensures var with, without := Delivered(State(memo, b), cfg, name, body),
        Delivered(State(NO_MEMO, b), cfg, name, body);
            with.returned == without.returned && with.state.books == without.state.books
    ensures Delivered(State(memo, b), cfg, name, body).returned
       <==> name in cfg.deliveries && cfg.collectDelivery(name, body).remaining == []
  {
    hide AllAbsorbed, Recorded;
  }

  lemma RequestConserves(s: State, cfg: Config, op: Operation, e: Exchange)
    ensures Keeps(s, ValidatedRequest(s, cfg, op, e).state, cfg, false)
  {
    hide Tally, Sum, AllAbsorbed, MemoAgrees, Recorded;
    Tallied(s.books, e.key, RequestValidated);
    if op.request.Some? && e.request.Parsed? {
      var v := cfg.collectRequest(op.request.value, e.request.value, e.key);
      AbsorbedTallied(Recorded(s.books, e.key, RequestValidated), e.key, RequestDeviated, v.absorbed);
    }
  }

  lemma ResponseConserves(s: State, cfg: Config, op: Operation, e: Exchange)
    requires cfg.classify(e.key) == OperationRoute(op)
    ensures var step := ValidatedResponse(s, cfg, op, e);
            Keeps(s, step.state, cfg, step.returned)
  {
    hide Tally, Sum, AllAbsorbed, MemoAgrees, Recorded, ValidatorFor;
    Tallied(s.books, e.key, SkippedNonJson);
    if MemoAgrees(s.memo, cfg) { MemoStaysRight(s.memo, cfg, e.key, e.status); }
    var counted := Recorded(s.books, e.key, Counter.Validated);
    Tallied(s.books, e.key, Counter.Validated);
    Tallied(counted, e.key, Counter.UndeclaredStatus);
    var (memo, picked) := ValidatorFor(s.memo, cfg, e.key, op, e.status);
    if e.response.Parsed? && picked.Some? && picked.value.Some? {
      var v := cfg.collect(picked.value.value, e.response.value, e.key);
      AbsorbedTallied(counted, e.key, Deviated, v.absorbed);
      AbsorbedTallied(Recorded(counted, e.key, Counter.UndeclaredStatus), e.key, Deviated, v.absorbed);
    }
  }

  lemma ObservedConserves(s: State, cfg: Config, e: Exchange)
    ensures var step := Observed(s, cfg, e);
            Keeps(s, step.state, cfg, step.returned)
  {
    hide Tally, Sum, AllAbsorbed, MemoAgrees, Recorded, ValidatorFor, ValidatedRequest, ValidatedResponse;
    Tallied(s.books, e.key, Unmatched);
    Tallied(s.books, e.key, Internal);
    Tallied(s.books, e.key, Excused);
    Tallied(s.books, e.key, Counter.Undeclared);
    if e.routed && cfg.classify(e.key).OperationRoute? {
      var op := cfg.classify(e.key).operation;
      RequestConserves(s, cfg, op, e);
      ResponseConserves(s, cfg, op, e);
      ResponseConserves(ValidatedRequest(s, cfg, op, e).state, cfg, op, e);
    }
  }

  // ----- consequences

  /** What an exchange comes to never depends on what the memo holds, so remembering is invisible. */
  lemma MemoIsInvisible(memo: Memo, b: Books, cfg: Config, e: Exchange)
    requires MemoAgrees(memo, cfg)
    ensures var with, without := Observed(State(memo, b), cfg, e), Observed(State(NO_MEMO, b), cfg, e);
            with.returned == without.returned && with.state.books == without.state.books
  {
    hide AllAbsorbed, MemoAgrees, Recorded, ValidatorFor, ViaEnvelope, IsUndeclaredStatus, Resolved;
    NothingYet(cfg);
    if e.routed && cfg.classify(e.key).OperationRoute? {
      MemoStaysRight(memo, cfg, e.key, e.status);
      MemoStaysRight(NO_MEMO, cfg, e.key, e.status);
    }
  }

  /** A status below 400 with neither an override nor a declared schema is never counted `validated`. */
  lemma NothingUncheckedIsValidated(s: State, cfg: Config, e: Exchange)
    requires MemoAgrees(s.memo, cfg) && cfg.classify(e.key).OperationRoute?
    requires e.status < 400 && (e.key, e.status) !in cfg.declaration.overrides
    requires var op := cfg.classify(e.key).operation;
             && SchemaFor(op, Exact(e.status)).None? && SchemaFor(op, Range(e.status / 100)).None?
             && SchemaFor(op, Default).None?
    ensures var step := Observed(s, cfg, e);
            && Count(RowOf(step.state.books, e.key), Counter.Validated)
               == Count(RowOf(s.books, e.key), Counter.Validated)
            && (e.routed && (e.response.Parsed? || e.response.Garbled?) ==> !step.returned)
  {
    hide ValidatedRequest, ValidatedResponse, MemoAgrees, Count, RowOf;
    var op := cfg.classify(e.key).operation;
    RequestNeverValidates(s, cfg, op, e);
    UncheckedRaises(s, cfg, op, e);
    UncheckedRaises(ValidatedRequest(s, cfg, op, e).state, cfg, op, e);
    CountsApart(s.books, e.key, Unmatched);
  }

  ghost predicate SameValidated(before: Books, after: Books, key: string) {
    Count(RowOf(after, key), Counter.Validated) == Count(RowOf(before, key), Counter.Validated)
  }

  lemma CountsApart(b: Books, key: string, counter: Counter)
    requires counter != Counter.Validated
    ensures SameValidated(b, Recorded(b, key, counter), key)
  {
  }

  lemma RequestNeverValidates(s: State, cfg: Config, op: Operation, e: Exchange)
    ensures var next := ValidatedRequest(s, cfg, op, e).state;
            SameValidated(s.books, next.books, e.key) && next.memo == s.memo
  {
    hide AllAbsorbed, Recorded, Count, RowOf;
    if op.request.Some? && e.request.Parsed? {
      var v := cfg.collectRequest(op.request.value, e.request.value, e.key);
      CountsApart(s.books, e.key, RequestValidated);
      OthersKept(Recorded(s.books, e.key, RequestValidated), e.key, RequestDeviated, v.absorbed, Counter.Validated);
    }
  }

  // With nothing to check it against, a JSON body raises.
  lemma UncheckedRaises(s: State, cfg: Config, op: Operation, e: Exchange)
    requires MemoAgrees(s.memo, cfg) && cfg.classify(e.key) == OperationRoute(op)
    requires Resolved(cfg, e.key, op, e.status) == Some(None)
    ensures var step := ValidatedResponse(s, cfg, op, e);
            && SameValidated(s.books, step.state.books, e.key)
            && (e.response.Parsed? || e.response.Garbled? ==> !step.returned)
  {
    hide ValidatorFor, MemoAgrees, Resolved, Recorded, AllAbsorbed, Count, RowOf;
    MemoStaysRight(s.memo, cfg, e.key, e.status);
    CountsApart(s.books, e.key, SkippedNonJson);
  }

  lemma {:induction false} OthersKept(b: Books, key: string, counter: Counter, names: seq<string>, other: Counter)
    requires other != counter
    ensures Count(RowOf(AllAbsorbed(b, key, counter, names), key), other) == Count(RowOf(b, key), other)
  {
    if names != [] { OthersKept(b, key, counter, names[..|names| - 1], other); }
  }

  // The schema came from the envelope: no declared key gives one, and the envelope does.
  predicate FromEnvelope(cfg: Config, op: Operation, status: int) {
    && SchemaFor(op, Exact(status)).None? && SchemaFor(op, Range(status / 100)).None? && SchemaFor(op, Default).None?
    && ResponseSchema(op, status, cfg.declaration.errorEnvelope).Some?
  }

  /**
   The table of envelope answers misses exactly the statuses that a declared key names without a body: those are
   answered through the envelope too, and the error member is not asked of them.
   */
  lemma EnvelopeTableExactlyWhen(cfg: Config, op: Operation, status: int)
    ensures ViaEnvelope(cfg, op, status) ==> FromEnvelope(cfg, op, status)
    ensures FromEnvelope(cfg, op, status) && !ViaEnvelope(cfg, op, status)
       <==> FromEnvelope(cfg, op, status) && (NamesStatus(op, status) || Default in op.responses)
  {
  }

  // An error body checked without a complaint, but without the declared error member.
  ghost predicate Memberless(cfg: Config, op: Operation, e: Exchange) {
    && e.routed && cfg.classify(e.key) == OperationRoute(op) && e.status >= 400 && e.response.Parsed?
    && (var picked := Resolved(cfg, e.key, op, e.status);
        && picked.Some? && picked.value.Some?
        && cfg.collect(picked.value.value, e.response.value, e.key).remaining == [])
    && !cfg.carries(e.response.value)
  }

  /**
   The member is asked for exactly when the table says envelope; otherwise such a body passes and counts as validated.
   */
  lemma MemberAskedExactlyWhen(s: State, cfg: Config, op: Operation, e: Exchange)
    requires MemoAgrees(s.memo, cfg) && Memberless(cfg, op, e)
    ensures var step := Observed(s, cfg, e);
            && (step.returned <==> !ViaEnvelope(cfg, op, e.status))
            && (step.returned ==>
                  Count(RowOf(step.state.books, e.key), Counter.Validated)
                      == Count(RowOf(s.books, e.key), Counter.Validated) + 1)
  {
    hide ValidatorFor, MemoAgrees, Resolved, Recorded, AllAbsorbed, Count, RowOf, ViaEnvelope, IsUndeclaredStatus;
    MemoStaysRight(s.memo, cfg, e.key, e.status);
    var picked := Resolved(cfg, e.key, op, e.status).value.value;
    var names := cfg.collect(picked, e.response.value, e.key).absorbed;
    var counted := Recorded(s.books, e.key, Counter.Validated);
    var noted := Recorded(counted, e.key, Counter.UndeclaredStatus);
    CountedOnce(s.books, e.key);
    CountsApart(counted, e.key, Counter.UndeclaredStatus);
    OthersKept(counted, e.key, Deviated, names, Counter.Validated);
    OthersKept(noted, e.key, Deviated, names, Counter.Validated);
  }

  lemma CountedOnce(b: Books, key: string)
    ensures Count(RowOf(Recorded(b, key, Counter.Validated), key), Counter.Validated)
        == Count(RowOf(b, key), Counter.Validated) + 1
  {
  }

  /** A 404 declared without a body passes on the success schema alone: the member is not asked of it. */
  lemma EnvelopeUnnoticed(s: State, cfg: Config, success: string, e: Exchange)
    requires cfg.declaration.errorEnvelope == Some(Exact(200)) && e.status == 404
        && (e.key, 404) !in cfg.declaration.overrides
    requires MemoAgrees(s.memo, cfg) && e.routed && e.response.Parsed? && !cfg.carries(e.response.value)
    requires cfg.classify(e.key)
        == OperationRoute(Operation(map[Exact(200) := Some(success), Exact(404) := None], None))
    requires cfg.collect(Inline(success), e.response.value, e.key).remaining == []
    ensures var op := Operation(map[Exact(200) := Some(success), Exact(404) := None], None);
            && FromEnvelope(cfg, op, 404) && !ViaEnvelope(cfg, op, 404) && Observed(s, cfg, e).returned
            && Count(RowOf(Observed(s, cfg, e).state.books, e.key), Counter.Validated)
               == Count(RowOf(s.books, e.key), Counter.Validated) + 1
  {
    var op := Operation(map[Exact(200) := Some(success), Exact(404) := None], None);
    assert Range(4) !in op.responses && Default !in op.responses;
    assert ResponseSchema(op, 404, cfg.declaration.errorEnvelope) == Some(success);
    assert FromEnvelope(cfg, op, 404) && !ViaEnvelope(cfg, op, 404);
    assert Resolved(cfg, e.key, op, 404) == Some(Some(Inline(success)));
    hide Observed, Resolved, ViaEnvelope, ResponseSchema, MemoAgrees, Count, RowOf, FromEnvelope;
    MemberAskedExactlyWhen(s, cfg, op, e);
  }

  // ----- the validator itself

  class ResponseValidator {
    const cfg: Config
    const ledger: Ledger
    var validators: map<Slot, Option<Picked>>
    var viaEnvelope: map<Slot, bool>
    var undeclaredStatus: set<Slot>
    var built: nat
    var deliveryValidators: map<string, bool>

    constructor (cfg: Config, ledger: Ledger)
      ensures this.cfg == cfg && this.ledger == ledger && View() == State(NO_MEMO, ledger.View())
    {
      this.cfg, this.ledger := cfg, ledger;
      validators, viaEnvelope, undeclaredStatus, built, deliveryValidators := map[], map[], {}, 0, map[];
    }

    function View(): State
      reads this, ledger
    {
      State(Memo(validators, viaEnvelope, undeclaredStatus, built, deliveryValidators), ledger.View())
    }

    method ValidatorForSlot(key: string, op: Operation, status: int) returns (picked: Option<Option<Picked>>)
      modifies this
      ensures (View().memo, picked) == ValidatorFor(old(View().memo), cfg, key, op, status)
    {
      hide ViaEnvelope, ResponseSchema, NamesStatus;
      var slot := (key, status);
      if slot in validators { return Some(validators[slot]); }
      var d := cfg.declaration;
      var schema := ResponseSchema(op, status, d.errorEnvelope);
      viaEnvelope := viaEnvelope[slot := ViaEnvelope(cfg, op, status)];
      var chosen: Option<Picked> := None;
      if slot in d.overrides {
        if d.overrides[slot] !in cfg.schemas { return None; }
        chosen := Some(Component(d.overrides[slot]));
      } else if schema.None? && status >= 400 && d.errorSchema.Some? {
        if !NamesStatus(op, status) { undeclaredStatus := undeclaredStatus + {slot}; }
        if d.errorSchema.value !in cfg.schemas { return None; }
        chosen := Some(Component(d.errorSchema.value));
      } else if schema.Some? {
        if viaEnvelope[slot] { undeclaredStatus := undeclaredStatus + {slot}; }
        chosen := Some(Inline(schema.value));
      }
      if chosen.Some? { built := built + 1; }
      validators := validators[slot := chosen];
      picked := Some(chosen);
    }

    method ValidateRequest(op: Operation, e: Exchange) returns (returned: bool)
      modifies ledger
      ensures Step(View(), returned) == ValidatedRequest(old(View()), cfg, op, e)
    {
      if !Success(e.status) || e.request.NoBody? || op.request.None? || e.request.OtherMedia? { return true; }
      if e.request.Garbled? { return false; }
      var v := cfg.collectRequest(op.request.value, e.request.value, e.key);
      if v.remaining != [] { return false; }
      ledger.Record(e.key, RequestValidated);
      ledger.AbsorbAll(e.key, RequestDeviated, v.absorbed);
      returned := true;
    }

    method ValidateResponse(op: Operation, e: Exchange) returns (returned: bool)
      modifies this, ledger
      ensures Step(View(), returned) == ValidatedResponse(old(View()), cfg, op, e)
    {
      hide ValidatorFor, Recorded, AllAbsorbed;
      if e.response.NoBody? || e.response.OtherMedia? {
        ledger.Record(e.key, SkippedNonJson);
        return true;
      }
      if e.response.Garbled? { return false; }
      var picked := ValidatorForSlot(e.key, op, e.status);
      if picked.None? || picked.value.None? { return false; }
      var slot := (e.key, e.status);
      var v := cfg.collect(picked.value.value, e.response.value, e.key);
      var unmarked := e.status >= 400 && slot in viaEnvelope && viaEnvelope[slot] && !cfg.carries(e.response.value);
      if v.remaining != [] || unmarked { return false; }
      ledger.Record(e.key, Counter.Validated);
      if slot in undeclaredStatus { ledger.Record(e.key, Counter.UndeclaredStatus); }
      ledger.AbsorbAll(e.key, Deviated, v.absorbed);
      returned := true;
    }

    /** `observe`: whether the call returned, rather than raised. */
    method Observe(e: Exchange) returns (returned: bool)
      modifies this, ledger
      ensures Step(View(), returned) == Observed(old(View()), cfg, e)
    {
      hide ValidatedRequest, ValidatedResponse, Recorded;
      if !e.routed {
        if Success(e.status) { return false; }
        ledger.Record(e.key, Unmatched);
        return true;
      }
      match cfg.classify(e.key)
      case InternalRoute =>
        ledger.Record(e.key, Internal);
        returned := true;
      case ExcusedRoute =>
        ledger.Record(e.key, Excused);
        returned := true;
      case UndeclaredRoute =>
        if cfg.strictUndeclared { return false; }
        ledger.Record(e.key, Counter.Undeclared);
        returned := true;
      case OperationRoute(op) =>
        if cfg.validateRequests {
          returned := ValidateRequest(op, e);
          if !returned { return; }
        }
        returned := ValidateResponse(op, e);
    }

    method ObserveDelivery(name: string, body: Json) returns (returned: bool)
      modifies this, ledger
      ensures Step(View(), returned) == Delivered(old(View()), cfg, name, body)
    {
      hide Recorded, AllAbsorbed;
      if name !in deliveryValidators {
        deliveryValidators := deliveryValidators[name := name in cfg.deliveries];
      }
      if !deliveryValidators[name] { return false; }
      var v := cfg.collectDelivery(name, body);
      if v.remaining != [] { return false; }
      ledger.Record("WEBHOOK " + name, DeliveryValidated);
      ledger.AbsorbAll("WEBHOOK " + name, Deviated, v.absorbed);
      returned := true;
    }
  }
}
