/**
 What one exchange or delivery comes to, and what it enters in the books: told by the declaration and the body alone,
 apart from the validator's own steps, its memo and its tables.
 */
module Accounts {
  import opened Wrappers
  import opened JsonTree
  import opened Ledgers
  import opened Validators

  // ----- entries

  // What is added to the counters of one route, and how often each label is used.
  datatype Entry = Entry(counts: map<Counter, nat>, labels: multiset<string>)

  const NO_ENTRY := Entry(map[], multiset{})

  function Once(counter: Counter): Entry {
    Entry(map[counter := 1], multiset{})
  }

  // One entry for a body that passed, and one for every error that a deviation excused.
  function Passed(counter: Counter, deviated: Counter, labels: seq<string>): Entry {
    Entry(map[counter := 1, deviated := |labels|], multiset(labels))
  }

  function Together(a: Entry, b: Entry): Entry {
    Entry(a.counts + b.counts, a.labels + b.labels)
  }

  function Added(entry: Entry, counter: Counter): nat {
    if counter in entry.counts then entry.counts[counter] else 0
  }

  // How many times the counter of a route goes up.
  function Raises(entry: Entry, key: string, route: string, counter: Counter): nat {
    if route == key && counter in entry.counts then entry.counts[counter] else 0
  }

  // The entry is made under the key, and nothing else is.
  ghost predicate Enters(before: Books, after: Books, key: string, entry: Entry) {
    && (forall route, counter ::
          Count(RowOf(after, route), counter) == Count(RowOf(before, route), counter)
                                                 + Raises(entry, key, route, counter))
    && (forall used :: Uses(after, used) == Uses(before, used) + entry.labels[used])
  }

  lemma NothingEntered(b: Books, key: string)
    ensures Enters(b, b, key, NO_ENTRY)
  {
    var none: map<Counter, nat> := map[];
    assert forall route, counter :: counter !in none && Raises(NO_ENTRY, key, route, counter) == 0;
  }

  lemma RecordedEnters(b: Books, key: string, counter: Counter)
    ensures Enters(b, Recorded(b, key, counter), key, Once(counter))
  {
    var after, one := Recorded(b, key, counter), map[counter := 1];
    forall route, c
      ensures Count(RowOf(after, route), c) == Count(RowOf(b, route), c) + Raises(Once(counter), key, route, c)
    {
      assert c in one <==> c == counter;
    }
    forall used ensures Uses(after, used) == Uses(b, used) + Once(counter).labels[used] {}
  }

  lemma EntersBoth(a: Books, b: Books, c: Books, key: string, first: Entry, second: Entry)
    requires Enters(a, b, key, first) && Enters(b, c, key, second) && first.counts.Keys !! second.counts.Keys
    ensures Enters(a, c, key, Together(first, second))
  {
    hide RowOf, Count, Uses;
    forall route, counter
      ensures Raises(Together(first, second), key, route, counter)
           == Raises(first, key, route, counter) + Raises(second, key, route, counter)
    {
      assert counter !in first.counts.Keys || counter !in second.counts.Keys;
    }
  }

  lemma {:induction false} AllAbsorbedEnters(b: Books, key: string, counter: Counter, labels: seq<string>)
    ensures Enters(b, AllAbsorbed(b, key, counter, labels), key, Entry(map[counter := |labels|], multiset(labels)))
  {
    if labels == [] {
      var none := map[counter := |labels|];
      assert forall route, c :: Raises(Entry(none, multiset(labels)), key, route, c) == 0;
    } else {
      var front, last := labels[..|labels| - 1], labels[|labels| - 1];
      assert labels == front + [last];
      AllAbsorbedEnters(b, key, counter, front);
      OneAbsorbed(b, AllAbsorbed(b, key, counter, front), key, counter, front, last);
    }
  }

  lemma OneAbsorbed(b: Books, c: Books, key: string, counter: Counter, front: seq<string>, last: string)
    requires Enters(b, c, key, Entry(map[counter := |front|], multiset(front)))
    ensures Enters(b, Absorbed(Recorded(c, key, counter), last), key,
        Entry(map[counter := |front| + 1], multiset(front + [last])))
  {
    hide Recorded, Absorbed, RowOf, Count, Uses;
    RecordedEnters(c, key, counter);
    LastAbsorbed(Recorded(c, key, counter), last);
    var was, now := Entry(map[counter := |front|], multiset(front)),
        Entry(map[counter := |front| + 1], multiset(front + [last]));
    OneMoreRaised(key, counter, was, now);
    assert forall used :: now.labels[used] == was.labels[used] + if used == last then 1 else 0;
  }

  lemma LastAbsorbed(b: Books, last: string)
    ensures forall route :: RowOf(Absorbed(b, last), route) == RowOf(b, route)
    ensures forall used :: Uses(Absorbed(b, last), used) == Uses(b, used) + if used == last then 1 else 0
  {
  }

  lemma OneMoreRaised(key: string, counter: Counter, was: Entry, now: Entry)
    requires exists n: nat :: was.counts == map[counter := n] && now.counts == map[counter := n + 1]
    ensures forall route, other ::
              Raises(now, key, route, other)
              == Raises(was, key, route, other) + Raises(Once(counter), key, route, other)
  {
  }

  // ----- which schema

  // Where a status's schema is looked for, in order: its own key, its hundred's, the default, and for an error the key
  // of the envelope.
  function KeysFor(status: int, envelope: Option<StatusKey>): seq<StatusKey> {
    [Exact(status), Range(status / 100), Default]
    + if status >= 400 && envelope.Some? then [envelope.value] else []
  }

  predicate HasSchema(op: Operation, key: StatusKey) {
    key in op.responses && op.responses[key].Some?
  }

  // The schema under the first of these keys that has one.
  ghost predicate FirstSchema(op: Operation, keys: seq<StatusKey>, schema: string) {
    exists i :: 0 <= i < |keys| && HasSchema(op, keys[i]) && op.responses[keys[i]] == Some(schema)
      && forall j :: 0 <= j < i ==> !HasSchema(op, keys[j])
  }

  ghost predicate NoSchema(op: Operation, keys: seq<StatusKey>) {
    forall i :: 0 <= i < |keys| ==> !HasSchema(op, keys[i])
  }

  lemma ResponseSchemaExactly(op: Operation, status: int, envelope: Option<StatusKey>)
    ensures forall schema :: ResponseSchema(op, status, envelope) == Some(schema)
                        <==> FirstSchema(op, KeysFor(status, envelope), schema)
    ensures ResponseSchema(op, status, envelope) == None <==> NoSchema(op, KeysFor(status, envelope))
  {
    var keys := KeysFor(status, envelope);
    assert keys[0] == Exact(status) && keys[1] == Range(status / 100) && keys[2] == Default;
    assert |keys| == 4 ==> keys[3] == envelope.value;
    var found := ResponseSchema(op, status, envelope);
    if found.Some? {
      assert FirstSchema(op, keys, found.value) by { FirstOf(op, keys, found.value); }
    }
    forall schema | FirstSchema(op, keys, schema) ensures found == Some(schema) {
      var i :| 0 <= i < |keys| && HasSchema(op, keys[i]) && op.responses[keys[i]] == Some(schema)
        && forall j :: 0 <= j < i ==> !HasSchema(op, keys[j]);
    }
  }

  lemma FirstOf(op: Operation, keys: seq<StatusKey>, schema: string)
    requires 3 <= |keys| <= 4
    requires if HasSchema(op, keys[0]) then op.responses[keys[0]] == Some(schema)
             else if HasSchema(op, keys[1]) then op.responses[keys[1]] == Some(schema)
             else if HasSchema(op, keys[2]) then op.responses[keys[2]] == Some(schema)
             else |keys| == 4 && HasSchema(op, keys[3]) && op.responses[keys[3]] == Some(schema)
    ensures FirstSchema(op, keys, schema)
  {
    var i := if HasSchema(op, keys[0]) then 0 else if HasSchema(op, keys[1]) then 1
             else if HasSchema(op, keys[2]) then 2 else 3;
    assert HasSchema(op, keys[i]) && op.responses[keys[i]] == Some(schema);
  }

  // What a body of the status is checked against: the override before anything declared, and the error schema after.
  ghost predicate Checks(cfg: Config, key: string, op: Operation, status: int, picked: Picked) {
    var d := cfg.declaration;
    var keys := KeysFor(status, d.errorEnvelope);
    if (key, status) in d.overrides then
      d.overrides[(key, status)] in cfg.schemas && picked == Component(d.overrides[(key, status)])
    else
      || (picked.Inline? && FirstSchema(op, keys, picked.schema))
      || (&& NoSchema(op, keys) && status >= 400 && d.errorSchema.Some? && d.errorSchema.value in cfg.schemas
          && picked == Component(d.errorSchema.value))
  }

  lemma ResolvedChecks(cfg: Config, key: string, op: Operation, status: int)
    ensures forall picked ::
              Resolved(cfg, key, op, status) == Some(Some(picked)) <==> Checks(cfg, key, op, status, picked)
  {
    hide ResponseSchema, FirstSchema, NoSchema, KeysFor;
    ResponseSchemaExactly(op, status, cfg.declaration.errorEnvelope);
  }

  // No key of the operation is the status's, nor the default's, and a schema is found all the same.
  ghost predicate Borrowed(cfg: Config, op: Operation, status: int) {
    && cfg.declaration.errorEnvelope.Some? && !NoSchema(op, KeysFor(status, cfg.declaration.errorEnvelope))
    && Exact(status) !in op.responses && Range(status / 100) !in op.responses && Default !in op.responses
  }

  // The operation does not name the status, and what checks it is the envelope or the error schema.
  ghost predicate Unnamed(cfg: Config, key: string, op: Operation, status: int) {
    var d := cfg.declaration;
    && (key, status) !in d.overrides && Exact(status) !in op.responses && Range(status / 100) !in op.responses
    && (Borrowed(cfg, op, status)
        || (NoSchema(op, KeysFor(status, d.errorEnvelope)) && status >= 400 && d.errorSchema.Some?))
  }

  lemma TablesRead(cfg: Config, key: string, op: Operation, status: int)
    ensures ViaEnvelope(cfg, op, status) <==> Borrowed(cfg, op, status)
    ensures IsUndeclaredStatus(cfg, key, op, status) <==> Unnamed(cfg, key, op, status)
  {
    hide ResponseSchema, FirstSchema, NoSchema, KeysFor;
    ResponseSchemaExactly(op, status, cfg.declaration.errorEnvelope);
  }

  // ----- the request half

  // A JSON body that the unit accepted, where the operation has a schema for it.
  predicate Asked(op: Operation, e: Exchange) {
    200 <= e.status < 300 && op.request.Some? && (e.request.Parsed? || e.request.Garbled?)
  }

  predicate RequestPasses(cfg: Config, op: Operation, e: Exchange) {
    Asked(op, e) ==>
      e.request.Parsed? && cfg.collectRequest(op.request.value, e.request.value, e.key).remaining == []
  }

  function RequestEntry(cfg: Config, op: Operation, e: Exchange): Entry {
    if Asked(op, e) && RequestPasses(cfg, op, e) then
      Passed(RequestValidated, RequestDeviated,
          cfg.collectRequest(op.request.value, e.request.value, e.key).absorbed)
    else NO_ENTRY
  }

  /** The request half raises exactly for an accepted body that is not JSON or does not fit, and enters what passes. */
  lemma RequestAccount(s: State, cfg: Config, op: Operation, e: Exchange)
    ensures var step := ValidatedRequest(s, cfg, op, e);
            && (step.returned <==> RequestPasses(cfg, op, e)) && step.state.memo == s.memo
            && Enters(s.books, step.state.books, e.key, RequestEntry(cfg, op, e))
  {
    hide Enters, Recorded, AllAbsorbed;
    NothingEntered(s.books, e.key);
    if Asked(op, e) && RequestPasses(cfg, op, e) {
      PassedEnters(s.books, e.key, RequestValidated, RequestDeviated,
          cfg.collectRequest(op.request.value, e.request.value, e.key).absorbed);
    }
  }

  lemma PassedEnters(b: Books, key: string, counter: Counter, deviated: Counter, labels: seq<string>)
    requires counter != deviated
    ensures Enters(b, AllAbsorbed(Recorded(b, key, counter), key, deviated, labels), key,
        Passed(counter, deviated, labels))
  {
    hide Enters, Recorded, AllAbsorbed;
    RecordedEnters(b, key, counter);
    var once := Recorded(b, key, counter);
    AllAbsorbedEnters(once, key, deviated, labels);
    EntersBoth(b, once, AllAbsorbed(once, key, deviated, labels), key, Once(counter),
        Entry(map[deviated := |labels|], multiset(labels)));
    assert multiset{} + multiset(labels) == multiset(labels);
    assert map[counter := 1] + map[deviated := |labels|] == map[counter := 1, deviated := |labels|];
  }

  // ----- the response half

  // The schema says nothing that no deviation excuses, and an error answered through the envelope has its member.
  ghost predicate Fits(cfg: Config, op: Operation, e: Exchange, picked: Picked)
    requires e.response.Parsed?
  {
    && Checks(cfg, e.key, op, e.status, picked)
    && cfg.collect(picked, e.response.value, e.key).remaining == []
    && (e.status >= 400 && Borrowed(cfg, op, e.status) ==> cfg.carries(e.response.value))
  }

  // Nothing to check, or a JSON body that fits.
  ghost predicate ResponsePasses(cfg: Config, op: Operation, e: Exchange) {
    match e.response
    case NoBody => true
    case OtherMedia => true
    case Garbled => false
    case Parsed(_) => exists picked :: Fits(cfg, op, e, picked)
  }

  ghost predicate ResponseEntry(cfg: Config, op: Operation, e: Exchange, entry: Entry) {
    if !ResponsePasses(cfg, op, e) then entry == NO_ENTRY
    else if e.response.NoBody? || e.response.OtherMedia? then entry == Once(SkippedNonJson)
    else
      exists picked :: Fits(cfg, op, e, picked)
        && var passed := Passed(Counter.Validated, Deviated, cfg.collect(picked, e.response.value, e.key).absorbed);
           entry ==
             if Unnamed(cfg, e.key, op, e.status) then Together(passed, Once(Counter.UndeclaredStatus)) else passed
  }

  /** The response half raises exactly for a body that does not pass, and then enters nothing. */
  lemma ResponseAccount(s: State, cfg: Config, op: Operation, e: Exchange) returns (entry: Entry)
    requires MemoAgrees(s.memo, cfg) && cfg.classify(e.key) == OperationRoute(op)
    ensures var step := ValidatedResponse(s, cfg, op, e);
            && (step.returned <==> ResponsePasses(cfg, op, e))
            && ResponseEntry(cfg, op, e, entry) && Enters(s.books, step.state.books, e.key, entry)
  {
    hide Enters, Recorded, AllAbsorbed, MemoAgrees, ValidatorFor, Resolved, ViaEnvelope, IsUndeclaredStatus, Checks,
        Borrowed, Unnamed;
    entry := NO_ENTRY;
    NothingEntered(s.books, e.key);
    if e.response.NoBody? || e.response.OtherMedia? {
      entry := Once(SkippedNonJson);
      RecordedEnters(s.books, e.key, SkippedNonJson);
    } else if e.response.Parsed? {
      MemoStaysRight(s.memo, cfg, e.key, e.status);
      ResolvedChecks(cfg, e.key, op, e.status);
      TablesRead(cfg, e.key, op, e.status);
      var step := ValidatedResponse(s, cfg, op, e);
      if step.returned {
        var picked := Resolved(cfg, e.key, op, e.status).value.value;
        var labels := cfg.collect(picked, e.response.value, e.key).absorbed;
        assert Fits(cfg, op, e, picked);
        entry := Passed(Counter.Validated, Deviated, labels);
        if Unnamed(cfg, e.key, op, e.status) { entry := Together(entry, Once(Counter.UndeclaredStatus)); }
        ValidatedEnters(s.books, e.key, Unnamed(cfg, e.key, op, e.status), labels);
      }
    }
  }

  lemma ValidatedEnters(b: Books, key: string, unnamed: bool, labels: seq<string>)
    ensures var counted := Recorded(b, key, Counter.Validated);
            var noted := if unnamed then Recorded(counted, key, Counter.UndeclaredStatus) else counted;
            var passed := Passed(Counter.Validated, Deviated, labels);
            Enters(b, AllAbsorbed(noted, key, Deviated, labels), key,
                if unnamed then Together(passed, Once(Counter.UndeclaredStatus)) else passed)
  {
    hide Enters, Recorded, AllAbsorbed;
    if unnamed {
      var counted := Recorded(b, key, Counter.Validated);
      RecordedEnters(b, key, Counter.Validated);
      PassedEnters(counted, key, Counter.UndeclaredStatus, Deviated, labels);
      var passed := Passed(Counter.UndeclaredStatus, Deviated, labels);
      EntersBoth(b, counted, AllAbsorbed(Recorded(counted, key, Counter.UndeclaredStatus), key, Deviated, labels), key,
          Once(Counter.Validated), passed);
      SameEntry(labels);
    } else {
      PassedEnters(b, key, Counter.Validated, Deviated, labels);
    }
  }

  lemma SameEntry(labels: seq<string>)
    ensures Together(Once(Counter.Validated), Passed(Counter.UndeclaredStatus, Deviated, labels))
         == Together(Passed(Counter.Validated, Deviated, labels), Once(Counter.UndeclaredStatus))
  {
    assert multiset{} + multiset(labels) == multiset(labels) + multiset{};
  }

  // ----- the whole of it

  ghost predicate Passes(cfg: Config, e: Exchange) {
    if !e.routed then !(200 <= e.status < 300)
    else
      match cfg.classify(e.key)
      case InternalRoute => true
      case ExcusedRoute => true
      case UndeclaredRoute => !cfg.strictUndeclared
      case OperationRoute(op) => (cfg.validateRequests ==> RequestPasses(cfg, op, e)) && ResponsePasses(cfg, op, e)
  }

  // A call that raises enters nothing, but for a request that had passed.
  ghost predicate EntryOf(cfg: Config, e: Exchange, entry: Entry) {
    if !e.routed then entry == if Passes(cfg, e) then Once(Unmatched) else NO_ENTRY
    else
      match cfg.classify(e.key)
      case InternalRoute => entry == Once(Internal)
      case ExcusedRoute => entry == Once(Excused)
      case UndeclaredRoute => entry == if Passes(cfg, e) then Once(Counter.Undeclared) else NO_ENTRY
      case OperationRoute(op) =>
        if !cfg.validateRequests then ResponseEntry(cfg, op, e, entry)
        else if !RequestPasses(cfg, op, e) then entry == NO_ENTRY
        else
          exists answer :: ResponseEntry(cfg, op, e, answer) && entry == Together(RequestEntry(cfg, op, e), answer)
  }

  /** `observe`, exactly: when it returns, and what it enters in the books, under the one key and nowhere else. */
  lemma ExchangeAccount(s: State, cfg: Config, e: Exchange)
    requires MemoAgrees(s.memo, cfg)
    ensures var step := Observed(s, cfg, e);
            && (step.returned <==> Passes(cfg, e))
            && exists entry :: EntryOf(cfg, e, entry) && Enters(s.books, step.state.books, e.key, entry)
  {
    hide Enters, Recorded, MemoAgrees, ValidatedRequest, ValidatedResponse, RequestPasses, ResponsePasses,
        RequestEntry, ResponseEntry;
    var kind := cfg.classify(e.key);
    NothingEntered(s.books, e.key);
    if e.routed && kind.OperationRoute? {
      var entry := OperationAccount(s, cfg, kind.operation, e);
    } else {
      var counter := if !e.routed then Unmatched else if kind.InternalRoute? then Internal
                     else if kind.ExcusedRoute? then Excused else Counter.Undeclared;
      RecordedEnters(s.books, e.key, counter);
      var entry := if Passes(cfg, e) then Once(counter) else NO_ENTRY;
      assert EntryOf(cfg, e, entry) && Enters(s.books, Observed(s, cfg, e).state.books, e.key, entry);
    }
  }

  lemma OperationAccount(s: State, cfg: Config, op: Operation, e: Exchange) returns (entry: Entry)
    requires MemoAgrees(s.memo, cfg) && e.routed && cfg.classify(e.key) == OperationRoute(op)
    ensures var step := Observed(s, cfg, e);
            && (step.returned <==> Passes(cfg, e))
            && EntryOf(cfg, e, entry) && Enters(s.books, step.state.books, e.key, entry)
  {
    hide Enters, Recorded, MemoAgrees, ValidatedRequest, ValidatedResponse, RequestPasses, ResponsePasses,
        RequestEntry, ResponseEntry;
    if !cfg.validateRequests {
      entry := ResponseAccount(s, cfg, op, e);
    } else {
      var asked := ValidatedRequest(s, cfg, op, e);
      RequestAccount(s, cfg, op, e);
      if asked.returned {
        var answer := ResponseAccount(asked.state, cfg, op, e);
        entry := Together(RequestEntry(cfg, op, e), answer);
        EntriesApart(cfg, op, e, answer);
        EntersBoth(s.books, asked.state.books, ValidatedResponse(asked.state, cfg, op, e).state.books, e.key,
            RequestEntry(cfg, op, e), answer);
      } else {
        entry := NO_ENTRY;
        NoRequestEntry(cfg, op, e);
      }
    }
  }

  lemma NoRequestEntry(cfg: Config, op: Operation, e: Exchange)
    requires !RequestPasses(cfg, op, e)
    ensures RequestEntry(cfg, op, e) == NO_ENTRY
  {
  }

  lemma EntriesApart(cfg: Config, op: Operation, e: Exchange, answer: Entry)
    requires ResponseEntry(cfg, op, e, answer)
    ensures RequestEntry(cfg, op, e).counts.Keys !! answer.counts.Keys
  {
    hide Fits, ResponsePasses, RequestPasses, Unnamed;
    assert RequestEntry(cfg, op, e).counts.Keys <= {RequestValidated, RequestDeviated};
    assert answer.counts.Keys <= {SkippedNonJson, Counter.Validated, Deviated, Counter.UndeclaredStatus};
  }

  /** `observe_delivery`, exactly. */
  lemma DeliveryAccount(s: State, cfg: Config, name: string, body: Json)
    requires MemoAgrees(s.memo, cfg)
    ensures var step, v := Delivered(s, cfg, name, body), cfg.collectDelivery(name, body);
            && (step.returned <==> name in cfg.deliveries && v.remaining == [])
            && Enters(s.books, step.state.books, "WEBHOOK " + name,
                if step.returned then Passed(DeliveryValidated, Deviated, v.absorbed) else NO_ENTRY)
  {
    hide Enters, Recorded, AllAbsorbed;
    NothingEntered(s.books, "WEBHOOK " + name);
    PassedEnters(s.books, "WEBHOOK " + name, DeliveryValidated, Deviated, cfg.collectDelivery(name, body).absorbed);
  }
}
