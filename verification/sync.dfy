/**
 Forward sync: a client that replicates one resource by polling `after = version.max, deleted = true`, against a
 store whose every mutation draws from one retailer-global sequence.
 */
module ForwardSync {
  import opened Wrappers
  import opened Versions

  datatype Store = Store(rows: map<string, Row>, next: int)

  datatype Client = Client(cursor: int, replica: map<string, Row>)

  // A page on its way, with what was asked and, for the proofs, the store that answered.
  datatype Answer = Answer(q: ListQuery, page: seq<Row>, asked: Store)

  datatype System = System(store: Store, client: Client, inFlight: Option<Answer>)

  /**
   A write inserts, updates or soft-deletes a row of the resource and stamps it; a write elsewhere only draws a
   version. A poll is two steps, the server's answer and the client's receipt of it, with anything in between; an
   answer may be lost, and asking again forgets the one before.
   */
  datatype Event =
    | Write(id: string, deleted: bool, data: string) | Elsewhere | Ask(pageSize: Option<int>) | Receive | Lose

  // The page the server answers with, however its store lists the rows.
  ghost predicate Answers(page: seq<Row>, store: Store, q: ListQuery) {
    exists listing :: Lists(listing, store.rows.Values) && page == Selected(listing, q)
  }

  function Merged(replica: map<string, Row>, page: seq<Row>): map<string, Row> {
    if page == [] then replica
    else Merged(replica, page[..|page| - 1])[page[|page| - 1].id := page[|page| - 1]]
  }

  // The client keeps the rows of a page and moves its cursor to the envelope's maximum, if there is one.
  function Received(client: Client, page: seq<Row>): Client {
    Client(if MaxVersion(page).Some? then MaxVersion(page).value else client.cursor, Merged(client.replica, page))
  }

  function PollQuery(client: Client, pageSize: Option<int>, deleted: bool): Result<ListQuery, int> {
    ReadListQuery(Some(client.cursor), None, pageSize, deleted)
  }

  ghost predicate Next(s: System, e: Event, t: System) {
    match e
    case Write(id, deleted, data) =>
      t == s.(store := Store(s.store.rows[id := Row(id, s.store.next, deleted, data)], s.store.next + 1))
    case Elsewhere => t == s.(store := s.store.(next := s.store.next + 1))
    case Ask(pageSize) =>
      var q := PollQuery(s.client, pageSize, true);
      if q.Err? then t == s
      else exists page ::
             Answers(page, s.store, q.value) && t == s.(inFlight := Some(Answer(q.value, page, s.store)))
    case Receive =>
      if s.inFlight.None? then t == s
      else t == s.(client := Received(s.client, s.inFlight.value.page), inFlight := None)
    case Lose => t == s.(inFlight := None)
  }

  // Every row is stamped, each with its own version, all drawn from the sequence.
  ghost predicate Stamped(store: Store) {
    && (forall id :: id in store.rows ==> store.rows[id].id == id && 0 < store.rows[id].version < store.next)
    && (forall a, b :: a in store.rows && b in store.rows && a != b ==> store.rows[a].version != store.rows[b].version)
  }

  // The replica agrees with the store on every row whose version is at most the cursor, and knows of no other row.
  ghost predicate InSync(s: System) {
    && Stamped(s.store) && 0 <= s.client.cursor < s.store.next
    && (forall id :: id in s.store.rows && s.store.rows[id].version <= s.client.cursor ==>
          id in s.client.replica && s.client.replica[id] == s.store.rows[id])
    && (forall id :: id in s.client.replica ==> id in s.store.rows && s.client.replica[id].version <= s.client.cursor)
  }

  // A client that has not polled yet, against any stamped store.
  ghost predicate Start(s: System) {
    Stamped(s.store) && s.store.next > 0 && s.client == Client(0, map[]) && s.inFlight.None?
  }

  ghost predicate IsRun(states: seq<System>, events: seq<Event>) {
    && |states| == |events| + 1 && Start(states[0])
    && forall i :: 0 <= i < |events| ==> Next(states[i], events[i], states[i + 1])
  }

  lemma StampedDistinct(store: Store)
    requires Stamped(store)
    ensures Distinct(store.rows.Values)
  {
    forall a, b | a in store.rows.Values && b in store.rows.Values && a != b ensures a.version != b.version {
      var i :| i in store.rows && store.rows[i] == a;
      var j :| j in store.rows && store.rows[j] == b;
    }
  }

  lemma AnswerIsPage(page: seq<Row>, store: Store, q: ListQuery)
    requires Answers(page, store, q) && Stamped(store) && (q.pageSize.Some? ==> q.pageSize.value >= 1)
    ensures IsPage(page, store.rows.Values, q)
  {
    hide IsPage, Selected;
    StampedDistinct(store);
    var listing :| Lists(listing, store.rows.Values) && page == Selected(listing, q);
    SelectIsPage(listing, store.rows.Values, q);
  }

  // A page's rows are merged under their own ids, and nothing else changes.
  lemma {:induction false} MergedRows(replica: map<string, Row>, page: seq<Row>, rows: map<string, Row>)
    requires forall row :: row in page ==> row.id in rows && rows[row.id] == row
    ensures forall id :: id in Merged(replica, page) ==>
              (id in rows && Merged(replica, page)[id] in page)
                  || (id in replica && Merged(replica, page)[id] == replica[id])
    ensures forall row :: row in page ==> row.id in Merged(replica, page) && Merged(replica, page)[row.id] == row
    ensures forall id :: id in replica && (id !in rows || rows[id] !in page) ==>
              id in Merged(replica, page) && Merged(replica, page)[id] == replica[id]
  {
    if page != [] {
      var front, last := page[..|page| - 1], page[|page| - 1];
      assert page == front + [last];
      MergedRows(replica, front, rows);
    }
  }

  // Receiving a page keeps the replica in sync.
  lemma PollKeepsSync(s: System, page: seq<Row>, q: ListQuery)
    requires InSync(s) && IsPage(page, s.store.rows.Values, q)
    requires q.after == s.client.cursor && q.before.None? && q.deleted
    ensures InSync(s.(client := Received(s.client, page)))
  {
    var rows := s.store.rows;
    var t := s.(client := Received(s.client, page));
    forall row | row in page ensures row.id in rows && rows[row.id] == row {
      assert row in rows.Values;
      var id :| id in rows && rows[id] == row;
    }
    MergedRows(s.client.replica, page, rows);
    MaxIsLast(page);
    if page != [] {
      assert page[|page| - 1] in page;
      forall id | id in rows && rows[id].version <= t.client.cursor
        ensures id in t.client.replica && t.client.replica[id] == rows[id]
      {
        BelowMaximumIsSeen(s, page, q, id);
      }
    }
  }

  // Nothing is skipped: what lies at or below a page's maximum was below the cursor or is on the page.
  lemma BelowMaximumIsSeen(s: System, page: seq<Row>, q: ListQuery, id: string)
    requires IsPage(page, s.store.rows.Values, q) && page != [] && id in s.store.rows
    requires q.after == s.client.cursor && q.before.None? && q.deleted
    requires s.store.rows[id].version <= page[|page| - 1].version
    ensures s.store.rows[id].version <= s.client.cursor || s.store.rows[id] in page
  {
    assert s.store.rows[id] in s.store.rows.Values;
    assert Selects(q, s.store.rows[id]) <==> s.store.rows[id].version > s.client.cursor;
  }

  lemma WriteKeepsSync(s: System, row: Row)
    requires InSync(s) && row.version == s.store.next
    ensures InSync(s.(store := Store(s.store.rows[row.id := row], s.store.next + 1)))
  {
  }

  // Since then rows were only stamped anew or added, none taken away.
  ghost predicate Earlier(asked: Store, store: Store) {
    && asked.next <= store.next && asked.rows.Keys <= store.rows.Keys
    && forall id :: id in store.rows ==>
         store.rows[id].version >= asked.next || (id in asked.rows && asked.rows[id] == store.rows[id])
  }

  // An answer on its way is a page of an earlier store, asked for by the client as it still is.
  ghost predicate Outstanding(s: System, a: Answer) {
    && Earlier(a.asked, s.store) && InSync(s.(store := a.asked))
    && IsPage(a.page, a.asked.rows.Values, a.q)
    && a.q.after == s.client.cursor && a.q.before.None? && a.q.deleted
    && (a.q.pageSize.Some? ==> a.q.pageSize.value >= 1)
  }

  ghost predicate Steady(s: System) {
    InSync(s) && (s.inFlight.Some? ==> Outstanding(s, s.inFlight.value))
  }

  // What is in sync with a store is in sync with whatever was written after it.
  lemma LaterStaysInSync(s: System, asked: Store)
    requires InSync(s.(store := asked)) && Earlier(asked, s.store) && Stamped(s.store)
    ensures InSync(s)
  {
  }

  lemma WriteOutlived(asked: Store, store: Store, row: Row)
    requires Earlier(asked, store) && row.version == store.next
    ensures Earlier(asked, Store(store.rows[row.id := row], store.next + 1))
    ensures Earlier(asked, store.(next := store.next + 1))
  {
  }

  lemma AskKeepsSteady(s: System, page: seq<Row>, q: ListQuery)
    requires InSync(s) && Answers(page, s.store, q) && (q.pageSize.Some? ==> q.pageSize.value >= 1)
    requires q.after == s.client.cursor && q.before.None? && q.deleted
    ensures Steady(s.(inFlight := Some(Answer(q, page, s.store))))
  {
    hide Stamped, IsPage, Answers;
    AnswerIsPage(page, s.store, q);
  }

  /** Whatever was written since it was answered, a page received keeps the replica in sync. */
  lemma ReceiveKeepsSync(s: System)
    requires Steady(s) && s.inFlight.Some?
    ensures InSync(s.(client := Received(s.client, s.inFlight.value.page)))
  {
    hide IsPage, Received;
    var a := s.inFlight.value;
    var was := s.(store := a.asked);
    PollKeepsSync(was, a.page, a.q);
    LaterStaysInSync(s.(client := Received(s.client, a.page)), a.asked);
  }

  lemma NextKeepsSteady(s: System, e: Event, t: System)
    requires Steady(s) && Next(s, e, t)
    ensures Steady(t)
  {
    hide Answers, IsPage, Received, Stamped;
    match e
    case Write(id, deleted, data) => WriteKeepsSteady(s, Row(id, s.store.next, deleted, data));
    case Elsewhere => ElsewhereKeepsSteady(s);
    case Ask(pageSize) =>
      if PollQuery(s.client, pageSize, true).Ok? {
        var q := PollQuery(s.client, pageSize, true).value;
        var page :| Answers(page, s.store, q) && t == s.(inFlight := Some(Answer(q, page, s.store)));
        AskKeepsSteady(s, page, q);
      }
    case Receive => if s.inFlight.Some? { ReceiveKeepsSync(s); }
    case Lose =>
  }

  lemma WriteKeepsSteady(s: System, row: Row)
    requires Steady(s) && row.version == s.store.next
    ensures Steady(s.(store := Store(s.store.rows[row.id := row], s.store.next + 1)))
  {
    hide IsPage;
    WriteKeepsSync(s, row);
    if s.inFlight.Some? { WriteOutlived(s.inFlight.value.asked, s.store, row); }
    hide InSync, Earlier;
  }

  lemma ElsewhereKeepsSteady(s: System)
    requires Steady(s)
    ensures Steady(s.(store := s.store.(next := s.store.next + 1)))
  {
    hide IsPage;
  }

  /** Safety: at every moment of every run, whatever the interleaving. */
  lemma {:induction false} AlwaysInSync(states: seq<System>, events: seq<Event>, n: nat)
    requires IsRun(states, events) && n < |states|
    ensures InSync(states[n]) && Steady(states[n])
  {
    hide Next, Steady;
    if n > 0 {
      AlwaysInSync(states, events, n - 1);
      assert Next(states[n - 1], events[n - 1], states[n - 1 + 1]);
      NextKeepsSteady(states[n - 1], events[n - 1], states[n]);
    } else {
      StartIsSteady(states[0]);
    }
    SteadyInSync(states[n]);
  }

  lemma StartIsSteady(s: System)
    requires Start(s)
    ensures Steady(s)
  {
  }

  lemma SteadyInSync(s: System)
    requires Steady(s)
    ensures InSync(s)
  {
    hide InSync, Outstanding;
  }

  /** An empty page received means that the replica is the store as it was when it answered. */
  lemma EmptyReceiptMeansEqual(s: System)
    requires Steady(s) && s.inFlight.Some? && s.inFlight.value.page == []
    ensures s.client.replica == s.inFlight.value.asked.rows
  {
    var a := s.inFlight.value;
    forall id | id in a.asked.rows ensures a.asked.rows[id].version <= s.client.cursor {
      assert a.asked.rows[id] in a.asked.rows.Values;
    }
  }

  /** An empty page means the replica is the store. */
  lemma EmptyPageMeansEqual(s: System, pageSize: Option<int>)
    requires InSync(s) && PollQuery(s.client, pageSize, true).Ok?
    requires Answers([], s.store, PollQuery(s.client, pageSize, true).value)
    ensures s.client.replica == s.store.rows
  {
    var q := PollQuery(s.client, pageSize, true).value;
    AnswerIsPage([], s.store, q);
    forall id | id in s.store.rows ensures s.store.rows[id].version <= s.client.cursor {
      assert s.store.rows[id] in s.store.rows.Values;
    }
  }

  /** Polled without `deleted`, an empty page means that only when no soft delete waits beyond the cursor. */
  lemma LivePollExactlyWhen(s: System, pageSize: Option<int>)
    requires InSync(s) && PollQuery(s.client, pageSize, false).Ok?
    requires Answers([], s.store, PollQuery(s.client, pageSize, false).value)
    ensures s.client.replica == s.store.rows
       <==> forall id :: id in s.store.rows && s.store.rows[id].deleted ==> s.store.rows[id].version <= s.client.cursor
  {
    var q := PollQuery(s.client, pageSize, false).value;
    AnswerIsPage([], s.store, q);
    forall id | id in s.store.rows && !s.store.rows[id].deleted ensures s.store.rows[id].version <= s.client.cursor {
      assert s.store.rows[id] in s.store.rows.Values;
    }
  }

  // ----- convergence

  // The rows the client has not seen, in the order it will.
  ghost predicate Remaining(left: seq<Row>, s: System) {
    IsPage(left, s.store.rows.Values, ListQuery(s.client.cursor, None, None, true))
  }

  // With no bound on the page there is always such a listing.
  lemma {:induction false} ListingOf(rows: set<Row>) returns (listing: seq<Row>)
    ensures Lists(listing, rows)
  {
    if rows == {} {
      listing := [];
    } else {
      var row :| row in rows;
      var rest := ListingOf(rows - {row});
      listing := rest + [row];
    }
  }

  lemma RemainingOf(s: System) returns (left: seq<Row>)
    requires Stamped(s.store)
    ensures Remaining(left, s)
  {
    StampedDistinct(s.store);
    var listing := ListingOf(s.store.rows.Values);
    left := Selected(listing, ListQuery(s.client.cursor, None, None, true));
    SelectIsPage(listing, s.store.rows.Values, ListQuery(s.client.cursor, None, None, true));
  }

  // A page is where the remaining rows begin.
  lemma PageIsPrefix(left: seq<Row>, page: seq<Row>, s: System, q: ListQuery)
    requires Remaining(left, s) && IsPage(page, s.store.rows.Values, q)
    requires q.after == s.client.cursor && q.before.None? && q.deleted
    requires q.pageSize.Some? ==> q.pageSize.value >= 1
    ensures page <= left && (left != [] ==> page != [])
  {
    forall row | row in page ensures row in left {
      assert row in s.store.rows.Values && Selects(ListQuery(s.client.cursor, None, None, true), row);
    }
    forall row | row in left && row !in page ensures forall i :: 0 <= i < |page| ==> page[i].version < row.version {
      assert row in s.store.rows.Values && Selects(q, row);
    }
    hide IsPage, Selects;
    assert Ascending(left) && Ascending(page) by { PagesAscend(left, page, s, q); }
    forall k: nat | k < |page| ensures k < |left| && page[k] == left[k] { SamePlace(left, page, k); }
    assert |page| <= |left| by { if page != [] { SamePlace(left, page, |page| - 1); } }
    assert page == left[..|page|];
    if left != [] { NotEmptyHanded(left, page, s, q); }
  }

  lemma PagesAscend(left: seq<Row>, page: seq<Row>, s: System, q: ListQuery)
    requires Remaining(left, s) && IsPage(page, s.store.rows.Values, q)
    ensures Ascending(left) && Ascending(page)
  {
  }

  lemma NotEmptyHanded(left: seq<Row>, page: seq<Row>, s: System, q: ListQuery)
    requires Remaining(left, s) && left != [] && IsPage(page, s.store.rows.Values, q)
    requires q.after == s.client.cursor && q.before.None? && q.deleted
    requires q.pageSize.Some? ==> q.pageSize.value >= 1
    ensures page != []
  {
    assert left[0] in left;
    assert Selects(q, left[0]) && left[0] in s.store.rows.Values;
  }

  // An ascending part of an ascending list, with everything else above it, is its beginning.
  lemma {:induction false} SamePlace(left: seq<Row>, page: seq<Row>, k: nat)
    requires Ascending(left) && Ascending(page) && k < |page|
    requires forall row :: row in page ==> row in left
    requires forall row :: row in left && row !in page ==> forall i :: 0 <= i < |page| ==> page[i].version < row.version
    ensures k < |left| && page[k] == left[k]
  {
    if k > 0 { SamePlace(left, page, k - 1); }
    assert page[k] in left;
    var m :| 0 <= m < |left| && left[m] == page[k];
    assert k == 0 || page[k - 1].version < page[k].version;
    NoEarlier(left, m, k);
    NextInPage(left, page, k);
    var t :| k <= t < |page| && page[t] == left[k];
    InOrder(page, k, t);
    InOrder(left, k, m);
  }

  lemma InOrder(rows: seq<Row>, i: nat, j: nat)
    requires Ascending(rows) && i <= j < |rows|
    ensures rows[i].version <= rows[j].version && (rows[i].version == rows[j].version ==> i == j)
  {
  }

  lemma NoEarlier(left: seq<Row>, m: nat, k: nat)
    requires Ascending(left) && m < |left|
    requires k == 0 || (k - 1 < |left| && left[k - 1].version < left[m].version)
    ensures k <= m
  {
  }

  // The row after those already matched is on the page too, at its place or later.
  lemma NextInPage(left: seq<Row>, page: seq<Row>, k: nat)
    requires Ascending(left) && Ascending(page) && k < |page| && k < |left| && page[k] in left
    requires exists m :: k <= m < |left| && left[m] == page[k]
    requires forall row :: row in left && row !in page ==> forall i :: 0 <= i < |page| ==> page[i].version < row.version
    requires k == 0 || page[k - 1] == left[k - 1]
    ensures exists t :: k <= t < |page| && page[t] == left[k]
  {
    var m :| k <= m < |left| && left[m] == page[k];
    assert left[k] in left && left[k].version <= left[m].version;
    assert left[k] in page;
    var t :| 0 <= t < |page| && page[t] == left[k];
    assert k == 0 || left[k - 1].version < left[k].version;
    assert k == 0 || t >= k - 1;
  }

  // After a page, what remains is what the page left.
  lemma PollDrains(left: seq<Row>, page: seq<Row>, s: System, q: ListQuery)
    requires InSync(s) && Remaining(left, s) && IsPage(page, s.store.rows.Values, q)
    requires q.after == s.client.cursor && q.before.None? && q.deleted
    requires q.pageSize.Some? ==> q.pageSize.value >= 1
    ensures page <= left && (left != [] ==> page != [])
    ensures Remaining(left[|page|..], s.(client := Received(s.client, page)))
  {
    PageIsPrefix(left, page, s, q);
    MaxIsLast(page) by { PagesAscend(left, page, s, q); }
    if page == [] {
      assert left[|page|..] == left;
    } else {
      var t := s.(client := Received(s.client, page));
      RestRemains(left, |page|, s, t);
    }
  }

  // Once the cursor stands at the last of the first `n` remaining rows, the others remain.
  lemma RestRemains(left: seq<Row>, n: nat, s: System, t: System)
    requires Remaining(left, s) && 0 < n <= |left| && t.store == s.store && t.client.cursor == left[n - 1].version
    ensures Remaining(left[n..], t)
  {
    var rest, all := left[n..], s.store.rows.Values;
    assert left[n - 1] in left;
    forall row | row in rest ensures row in all && row.version > t.client.cursor {
      var i :| 0 <= i < |rest| && rest[i] == row;
      assert left[n + i] == row && row in left;
    }
    forall row | row in all && row.version > t.client.cursor ensures row in rest {
      assert Selects(ListQuery(s.client.cursor, None, None, true), row);
      assert row in left;
      var i :| 0 <= i < |left| && left[i] == row;
      NoEarlier(left, i, n);
      assert rest[i - n] == row;
    }
  }

  // Polls with nothing written in between, each answered by a page.
  ghost predicate QuietRun(states: seq<System>, sizes: seq<Option<int>>, pages: seq<seq<Row>>) {
    && |states| == |pages| + 1 && |sizes| == |pages| && InSync(states[0])
    && forall i :: 0 <= i < |pages| ==> QuietPoll(states[i], sizes[i], pages[i], states[i + 1])
  }

  ghost predicate QuietPoll(s: System, pageSize: Option<int>, page: seq<Row>, t: System) {
    && PollQuery(s.client, pageSize, true).Ok?
    && Answers(page, s.store, PollQuery(s.client, pageSize, true).value)
    && t == s.(client := Received(s.client, page), inFlight := None)
  }

  // Which is asking and receiving with nothing in between.
  lemma QuietPollIsTwoSteps(s: System, pageSize: Option<int>, t: System)
    requires PollQuery(s.client, pageSize, true).Ok?
    ensures (exists page :: QuietPoll(s, pageSize, page, t))
       <==> exists mid :: Next(s, Ask(pageSize), mid) && Next(mid, Receive, t)
  {
    hide Answers, Received;
    var q := PollQuery(s.client, pageSize, true).value;
    if page :| QuietPoll(s, pageSize, page, t) {
      var mid := s.(inFlight := Some(Answer(q, page, s.store)));
      assert Next(s, Ask(pageSize), mid) && Next(mid, Receive, t);
    }
    if mid :| Next(s, Ask(pageSize), mid) && Next(mid, Receive, t) {
      assert QuietPoll(s, pageSize, mid.inFlight.value.page, t);
    }
  }

  function Concat(pages: seq<seq<Row>>): seq<Row> {
    if pages == [] then [] else Concat(pages[..|pages| - 1]) + pages[|pages| - 1]
  }

  /**
   Convergence: with mutations stopped, the pages are the remaining rows one after the other, each exactly once and
   in order, and every page of any size of 1 or more brings at least one while any remain.
   */
  lemma {:induction false} QuietPollsVisitInOrder(left: seq<Row>, states: seq<System>, sizes: seq<Option<int>>,
                                                  pages: seq<seq<Row>>, n: nat)
    requires QuietRun(states, sizes, pages) && Remaining(left, states[0]) && n <= |pages|
    ensures InSync(states[n]) && states[n].store == states[0].store
    ensures Concat(pages[..n]) <= left && Remaining(left[|Concat(pages[..n])|..], states[n])
    ensures |Concat(pages[..n])| >= n || Concat(pages[..n]) == left
  {
    hide InSync, IsPage, Remaining, QuietPoll;
    if n > 0 {
      QuietPollsVisitInOrder(left, states, sizes, pages, n - 1);
      assert pages[..n][..n - 1] == pages[..n - 1];
      assert QuietPoll(states[n - 1], sizes[n - 1], pages[n - 1], states[n - 1 + 1]);
      var s, seen := states[n - 1], Concat(pages[..n - 1]);
      QuietPollDrains(left[|seen|..], s, sizes[n - 1], pages[n - 1], states[n]);
      SeenMore(left, seen, pages[n - 1]);
    } else {
      assert left[0..] == left && pages[..0] == [];
    }
  }

  lemma QuietPollDrains(left: seq<Row>, s: System, pageSize: Option<int>, page: seq<Row>, t: System)
    requires InSync(s) && Remaining(left, s) && QuietPoll(s, pageSize, page, t)
    ensures InSync(t) && t.store == s.store
    ensures page <= left && (left != [] ==> page != [])
    ensures Remaining(left[|page|..], t)
  {
    hide InSync, IsPage, Answers, Received;
    var q := PollQuery(s.client, pageSize, true).value;
    InSyncStamped(s);
    AnswerIsPage(page, s.store, q);
    PollDrains(left, page, s, q);
    PollKeepsSync(s, page, q);
    InFlightIsNothing(s.(client := Received(s.client, page)), t);
  }

  // Neither depends on what is on its way.
  lemma InFlightIsNothing(s: System, t: System)
    requires t == s.(inFlight := None)
    ensures InSync(s) <==> InSync(t)
  {
  }

  lemma InSyncStamped(s: System)
    requires InSync(s)
    ensures Stamped(s.store)
  {
  }

  lemma SeenMore(left: seq<Row>, seen: seq<Row>, page: seq<Row>)
    requires seen <= left && page <= left[|seen|..]
    ensures seen + page <= left && left[|seen|..][|page|..] == left[|seen + page|..]
    ensures left[|seen|..] == [] ==> seen == left
  {
    assert left == seen + left[|seen|..];
    assert left[|seen|..] == page + left[|seen|..][|page|..];
    assert left == seen + page + left[|seen|..][|page|..];
  }

  /** After as many polls as there were remaining rows, at the latest, the replica is the store. */
  lemma QuietPollsConverge(left: seq<Row>, states: seq<System>, sizes: seq<Option<int>>, pages: seq<seq<Row>>)
    requires QuietRun(states, sizes, pages) && Remaining(left, states[0]) && |pages| >= |left|
    ensures states[|pages|].client.replica == states[0].store.rows && Concat(pages) == left
  {
    var n := |pages|;
    QuietPollsVisitInOrder(left, states, sizes, pages, n);
    hide QuietRun, InSync, Remaining;
    assert pages[..n] == pages;
    var seen, s := Concat(pages), states[n];
    assert seen == left[..|seen|];
    assert |seen| == |left|;
    assert left[|seen|..] == [] && seen == left;
    NoneRemaining(s);
  }

  /** In every quiet run, whatever remained at its start, and there always is such a listing. */
  lemma QuietRunsConverge(states: seq<System>, sizes: seq<Option<int>>, pages: seq<seq<Row>>) returns (left: seq<Row>)
    requires QuietRun(states, sizes, pages)
    ensures Remaining(left, states[0])
    ensures |pages| >= |left| ==> states[|pages|].client.replica == states[0].store.rows && Concat(pages) == left
  {
    InSyncStamped(states[0]);
    left := RemainingOf(states[0]);
    hide QuietRun, Remaining, InSync;
    if |pages| >= |left| { QuietPollsConverge(left, states, sizes, pages); }
  }

  lemma NoneRemaining(s: System)
    requires InSync(s) && Remaining([], s)
    ensures s.client.replica == s.store.rows
  {
    forall id | id in s.store.rows ensures s.store.rows[id].version <= s.client.cursor {
      assert s.store.rows[id] in s.store.rows.Values;
      assert Selects(ListQuery(s.client.cursor, None, None, true), s.store.rows[id])
        <==> s.store.rows[id].version > s.client.cursor;
    }
  }
}
