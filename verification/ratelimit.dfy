/** The fixed-window rate limiter (`ratelimit.py`) over the unit's clock, whose milliseconds may carry a fraction. */
module RateLimits {
  import opened Wrappers

  datatype Setting = Setting(limit: int, windowMs: int)

  // The configured window is positive; the quota may be anything.
  type Quota = q: Setting | q.windowMs > 0 witness Setting(0, 1)

  function Index(now: real, q: Quota): int {
    (now / q.windowMs as real).Floor
  }

  // `int(...)`: towards zero.
  function Truncated(x: real): int {
    if x >= 0.0 then x.Floor else -((-x).Floor)
  }

  datatype Window = Window(index: Option<int>, count: int)

  const UNOPENED := Window(None, 0)

  datatype Call = Consume(at: real) | Snapshot(at: real)

  datatype Answer = Accepted | Refused(retryAfterMs: int) | Shown(limit: int, remaining: int)

  function Rolled(w: Window, now: real, q: Quota): Window {
    if w.index == Some(Index(now, q)) then w else Window(Some(Index(now, q)), 0)
  }

  function After(w: Window, call: Call, q: Quota): Window {
    var open := Rolled(w, call.at, q);
    if call.Consume? then open.(count := open.count + 1) else open
  }

  function RetryAfter(now: real, q: Quota): int {
    var left := Truncated((Index(now, q) * q.windowMs + q.windowMs) as real - now);
    if left > 0 then left else 0
  }

  function AnswerTo(w: Window, call: Call, q: Quota): Answer {
    var spent := After(w, call, q).count;
    if call.Snapshot? then Shown(q.limit, if q.limit > spent then q.limit - spent else 0)
    else if spent > q.limit then Refused(RetryAfter(call.at, q))
    else Accepted
  }

  class LightspeedRateLimiter {
    var limit: int
    const windowMs: int
    var windowIndex: Option<int>
    var count: int

    ghost predicate Valid()
      reads this
    {
      windowMs > 0
    }

    ghost function Limits(): Quota
      reads this
      requires Valid()
    {
      Setting(limit, windowMs)
    }

    ghost function Open(): Window
      reads this
    {
      Window(windowIndex, count)
    }

    constructor (limit: int, windowMs: int)
      requires windowMs > 0
      ensures Valid() && Limits() == Setting(limit, windowMs) && Open() == UNOPENED
    {
      this.limit := limit;
      this.windowMs := windowMs;
      windowIndex := None;
      count := 0;
    }

    method Reset(limit: int)
      requires Valid()
      modifies this
      ensures Valid() && Limits() == Setting(limit, windowMs) && Open() == UNOPENED
    {
      this.limit := limit;
      windowIndex := None;
      count := 0;
    }

    method Roll(now: real)
      requires Valid()
      modifies this`windowIndex, this`count
      ensures Valid() && Open() == Rolled(old(Open()), now, Limits())
    {
      var index := (now / windowMs as real).Floor;
      if windowIndex != Some(index) {
        windowIndex := Some(index);
        count := 0;
      }
    }

    method TakeSnapshot(now: real) returns (shown: Answer)
      requires Valid()
      modifies this`windowIndex, this`count
      ensures Valid() && Open() == After(old(Open()), Snapshot(now), Limits())
      ensures shown == AnswerTo(old(Open()), Snapshot(now), Limits())
    {
      Roll(now);
      shown := Shown(limit, if limit - count > 0 then limit - count else 0);
    }

    // The count moves even on a refusal.
    method ConsumeOne(now: real) returns (answer: Answer)
      requires Valid()
      modifies this`windowIndex, this`count
      ensures Valid() && Open() == After(old(Open()), Consume(now), Limits())
      ensures answer == AnswerTo(old(Open()), Consume(now), Limits())
    {
      Roll(now);
      count := count + 1;
      answer := Accepted;
      if count > limit {
        var windowStart := (now / windowMs as real).Floor * windowMs;
        var remainingMs := Truncated((windowStart + windowMs) as real - now);
        answer := Refused(if remainingMs > 0 then remainingMs else 0);
      }
    }
  }

  // ----- runs from an unopened limiter

  function StateAfter(calls: seq<Call>, q: Quota): Window {
    if calls == [] then UNOPENED else After(StateAfter(calls[..|calls| - 1], q), calls[|calls| - 1], q)
  }

  // What call `n` of a run is answered.
  function AnswerAt(calls: seq<Call>, n: nat, q: Quota): Answer
    requires n < |calls|
  {
    AnswerTo(StateAfter(calls[..n], q), calls[n], q)
  }

  ghost predicate InOrder(calls: seq<Call>) {
    forall i, j :: 0 <= i <= j < |calls| ==> calls[i].at <= calls[j].at
  }

  predicate RequestIn(call: Call, w: int, q: Quota) {
    call.Consume? && Index(call.at, q) == w
  }

  // The requests made in a window.
  function Requests(calls: seq<Call>, w: int, q: Quota): nat {
    if calls == [] then 0
    else Requests(calls[..|calls| - 1], w, q) + if RequestIn(calls[|calls| - 1], w, q) then 1 else 0
  }

  predicate Grants(calls: seq<Call>, q: Quota)
    requires calls != []
  {
    calls[|calls| - 1].Consume? && AnswerAt(calls, |calls| - 1, q) == Accepted
  }

  // The requests accepted in a window.
  function Granted(calls: seq<Call>, w: int, q: Quota): nat {
    if calls == [] then 0
    else Granted(calls[..|calls| - 1], w, q)
         + if Grants(calls, q) && Index(calls[|calls| - 1].at, q) == w then 1 else 0
  }

  // The requests accepted from one instant up to another.
  function GrantedBetween(calls: seq<Call>, from: real, to: real, q: Quota): nat {
    if calls == [] then 0
    else GrantedBetween(calls[..|calls| - 1], from, to, q)
         + if Grants(calls, q) && from <= calls[|calls| - 1].at <= to then 1 else 0
  }

  function Positive(limit: int): nat {
    if limit > 0 then limit else 0
  }

  function AtMost(requests: nat, limit: int): nat {
    if requests < Positive(limit) then requests else Positive(limit)
  }

  lemma IndexBounds(now: real, q: Quota)
    ensures (Index(now, q) * q.windowMs) as real <= now < ((Index(now, q) + 1) * q.windowMs) as real
  {
    var w, x := q.windowMs as real, now / q.windowMs as real;
    assert x * w == now;
    assert x.Floor as real <= x < (x.Floor + 1) as real;
    Scaled(x.Floor as real, x, w);
    Scaled(x, (x.Floor + 1) as real, w);
    ScaledStrictly(x, (x.Floor + 1) as real, w);
    assert ((x.Floor + 1) * q.windowMs) as real == (x.Floor + 1) as real * w;
    assert (x.Floor * q.windowMs) as real == x.Floor as real * w;
  }

  lemma Scaled(x: real, y: real, w: real)
    requires x <= y && w > 0.0
    ensures x * w <= y * w
  {
  }

  lemma ScaledStrictly(x: real, y: real, w: real)
    requires x < y && w > 0.0
    ensures x * w < y * w
  {
  }

  // The window holding an instant is the only one that does.
  lemma IndexIs(now: real, i: int, q: Quota)
    requires (i * q.windowMs) as real <= now < ((i + 1) * q.windowMs) as real
    ensures Index(now, q) == i
  {
    hide Index;
    IndexBounds(now, q);
    var j, w := Index(now, q), q.windowMs;
    assert i * w < (j + 1) * w && j * w < (i + 1) * w;
    Cancel(i, j + 1, w);
    Cancel(j, i + 1, w);
  }

  lemma Cancel(a: int, b: int, w: int)
    requires a * w < b * w && w > 0
    ensures a < b
  {
    if a >= b { Products(b, a, w); assert false; }
  }

  lemma Products(a: int, b: int, w: int)
    requires a <= b && w > 0
    ensures a * w <= b * w
  {
    assert b * w - a * w == (b - a) * w;
  }

  lemma IndexMonotone(a: real, b: real, q: Quota)
    requires a <= b
    ensures Index(a, q) <= Index(b, q)
  {
    hide Index;
    IndexBounds(a, q);
    IndexBounds(b, q);
    Cancel(Index(a, q), Index(b, q) + 1, q.windowMs);
  }

  lemma {:induction false} NoneAhead(calls: seq<Call>, w: int, q: Quota)
    requires forall i :: 0 <= i < |calls| ==> Index(calls[i].at, q) < w
    ensures Requests(calls, w, q) == 0
  {
    hide Index;
    if calls != [] {
      assert Index(calls[|calls| - 1].at, q) < w;
      NoneAhead(calls[..|calls| - 1], w, q);
    }
  }

  /** The limiter's two fields always hold the current window and the requests made in it. */
  lemma {:induction false} StateCounts(calls: seq<Call>, q: Quota)
    requires InOrder(calls) && calls != []
    ensures StateAfter(calls, q) == Window(Some(Index(calls[|calls| - 1].at, q)),
                                           Requests(calls, Index(calls[|calls| - 1].at, q), q))
  {
    hide Index;
    var front, now := calls[..|calls| - 1], calls[|calls| - 1].at;
    var w := Index(now, q);
    if front != [] {
      StateCounts(front, q);
      var before := front[|front| - 1];
      IndexMonotone(before.at, now, q);
      if Index(before.at, q) < w {
        forall i | 0 <= i < |front| ensures Index(front[i].at, q) < w {
          assert front[i] == calls[i] && before == calls[|calls| - 2];
          IndexMonotone(front[i].at, before.at, q);
        }
        NoneAhead(front, w, q);
      }
    }
  }

  /** However the clock runs, also back: the window of the last call, and the requests since it was entered last. */
  lemma {:induction false} StateCountsSince(calls: seq<Call>, q: Quota) returns (from: nat)
    requires calls != []
    ensures var w := Index(calls[|calls| - 1].at, q);
            && from < |calls| && (forall j :: from <= j < |calls| ==> Index(calls[j].at, q) == w)
            && (from > 0 ==> Index(calls[from - 1].at, q) != w)
            && StateAfter(calls, q) == Window(Some(w), Requests(calls[from..], w, q))
  {
    hide Index;
    var front, last := calls[..|calls| - 1], calls[|calls| - 1];
    var w := Index(last.at, q);
    if front != [] && Index(front[|front| - 1].at, q) == w {
      from := StateCountsSince(front, q);
      assert forall j :: 0 <= j < |front| ==> front[j] == calls[j];
      assert calls[from..][..|calls| - 1 - from] == front[from..];
    } else {
      from := |calls| - 1;
      if front != [] {
        var before := StateCountsSince(front, q);
        assert front[|front| - 1] == calls[from - 1];
      }
      assert calls[from..] == [last] && [last][..0] == [];
    }
  }

  /** So an answer depends only on how many requests its window has seen. */
  lemma AnswerExactly(calls: seq<Call>, n: nat, q: Quota)
    requires InOrder(calls) && n < |calls|
    ensures var made := Requests(calls[..n + 1], Index(calls[n].at, q), q);
            AnswerAt(calls, n, q) ==
              if calls[n].Snapshot? then Shown(q.limit, Positive(q.limit) - AtMost(made, q.limit))
              else if made <= q.limit then Accepted
              else Refused(RetryAfter(calls[n].at, q))
  {
    hide Index, Requests;
    assert calls[..n + 1][..n] == calls[..n] && calls[..n + 1][n] == calls[n];
    StateCounts(calls[..n + 1], q);
  }

  /** Each window accepts exactly the smaller of the quota and its requests. */
  lemma {:induction false} WindowAcceptsExactly(calls: seq<Call>, w: int, q: Quota)
    requires InOrder(calls)
    ensures Granted(calls, w, q) == AtMost(Requests(calls, w, q), q.limit)
  {
    hide Index;
    if calls != [] {
      WindowAcceptsExactly(calls[..|calls| - 1], w, q);
      assert calls[..|calls|] == calls;
      AnswerExactly(calls, |calls| - 1, q);
    }
  }

  /** Snapshots show the quota less what the window has accepted. */
  lemma SnapshotShows(calls: seq<Call>, now: real, q: Quota)
    requires InOrder(calls + [Snapshot(now)])
    ensures AnswerAt(calls + [Snapshot(now)], |calls|, q)
         == Shown(q.limit, Positive(q.limit) - Granted(calls, Index(now, q), q))
  {
    hide Index, StateAfter, Granted;
    var all := calls + [Snapshot(now)];
    assert all[..|calls|] == calls && all[..|calls| + 1] == all;
    assert all[..|all| - 1] == calls;
    OrderedFront(calls, Snapshot(now));
    AnswerExactly(all, |calls|, q);
    WindowAcceptsExactly(calls, Index(now, q), q);
  }

  lemma OrderedFront(calls: seq<Call>, last: Call)
    requires InOrder(calls + [last])
    ensures InOrder(calls)
  {
    forall i, j | 0 <= i <= j < |calls| ensures calls[i].at <= calls[j].at {
      assert (calls + [last])[i].at <= (calls + [last])[j].at;
    }
  }

  function WithoutSnapshots(calls: seq<Call>): seq<Call> {
    if calls == [] then []
    else WithoutSnapshots(calls[..|calls| - 1]) + if calls[|calls| - 1].Consume? then [calls[|calls| - 1]] else []
  }

  lemma {:induction false} SnapshotsAreNotRequests(calls: seq<Call>, w: int, q: Quota)
    ensures Requests(WithoutSnapshots(calls), w, q) == Requests(calls, w, q)
  {
    hide Index;
    if calls != [] {
      var front, last := WithoutSnapshots(calls[..|calls| - 1]), calls[|calls| - 1];
      SnapshotsAreNotRequests(calls[..|calls| - 1], w, q);
      assert (front + [last])[..|front|] == front && front + [] == front;
    }
  }

  lemma {:induction false} WithoutSnapshotsInOrder(calls: seq<Call>)
    requires InOrder(calls)
    ensures InOrder(WithoutSnapshots(calls))
    ensures calls != [] ==> forall c :: c in WithoutSnapshots(calls) ==> c.at <= calls[|calls| - 1].at
  {
    if calls != [] { WithoutSnapshotsInOrder(calls[..|calls| - 1]); }
  }

  /** Snapshots spend nothing: a request is answered as if none had been taken before it. */
  lemma SnapshotsSpendNothing(calls: seq<Call>, now: real, q: Quota)
    requires InOrder(calls + [Consume(now)])
    ensures AnswerAt(calls + [Consume(now)], |calls|, q)
         == AnswerAt(WithoutSnapshots(calls) + [Consume(now)], |WithoutSnapshots(calls)|, q)
  {
    var all, bare := calls + [Consume(now)], WithoutSnapshots(calls) + [Consume(now)];
    assert all[..|calls|] == calls && all[..|all|] == all && bare[..|bare|] == bare;
    assert WithoutSnapshots(all) == bare;
    WithoutSnapshotsInOrder(all);
    SnapshotsAreNotRequests(all, Index(now, q), q);
    hide Index, StateAfter, Requests, WithoutSnapshots;
    AnswerExactly(all, |calls|, q);
    AnswerExactly(bare, |bare| - 1, q);
  }

  /**
   An interval of one window length, both ends counted, meets two windows at most, so it accepts at most twice the
   quota.
   */
  lemma IntervalAcceptsAtMostTwice(calls: seq<Call>, from: real, q: Quota)
    requires InOrder(calls)
    ensures GrantedBetween(calls, from, from + q.windowMs as real, q) <= 2 * Positive(q.limit)
  {
    var w := Index(from, q);
    TwoWindows(calls, from, q);
    WindowAcceptsExactly(calls, w, q);
    WindowAcceptsExactly(calls, w + 1, q);
  }

  lemma {:induction false} TwoWindows(calls: seq<Call>, from: real, q: Quota)
    ensures GrantedBetween(calls, from, from + q.windowMs as real, q)
         <= Granted(calls, Index(from, q), q) + Granted(calls, Index(from, q) + 1, q)
  {
    hide Index, AnswerAt;
    if calls != [] {
      TwoWindows(calls[..|calls| - 1], from, q);
      if from <= calls[|calls| - 1].at <= from + q.windowMs as real {
        IndexNearby(from, calls[|calls| - 1].at, q);
      }
    }
  }

  lemma IndexNearby(from: real, at: real, q: Quota)
    requires from <= at <= from + q.windowMs as real
    ensures Index(at, q) == Index(from, q) || Index(at, q) == Index(from, q) + 1
  {
    hide Index;
    IndexMonotone(from, at, q);
    IndexBounds(from, q);
    IndexBounds(at, q);
    var i, j, w := Index(from, q), Index(at, q), q.windowMs;
    assert (i + 1) * w + w == (i + 2) * w;
    Cancel(j, i + 2, w);
  }

  // ----- waiting as long as a refusal says

  predicate Whole(now: real) {
    now == now.Floor as real
  }

  lemma EndOfWindow(now: real, q: Quota)
    ensures var end := (Index(now, q) + 1) * q.windowMs;
            && 0.0 < end as real - now
            && now + RetryAfter(now, q) as real <= end as real < now + RetryAfter(now, q) as real + 1.0
            && RetryAfter(now, q) >= 0
            && (now + RetryAfter(now, q) as real == end as real <==> Whole(now))
  {
    hide Index;
    IndexBounds(now, q);
    var i, w := Index(now, q), q.windowMs;
    assert (i + 1) * w == i * w + w;
    var left := (i * w + w) as real - now;
    assert left.Floor as real <= left < (left.Floor + 1) as real;
    FloorOfDifference(i * w + w, now);
  }

  lemma FloorOfDifference(end: int, now: real)
    ensures (end as real - now).Floor as real == end as real - now <==> Whole(now)
  {
    if Whole(now) {
      assert end as real - now == (end - now.Floor) as real;
    }
    if (end as real - now).Floor as real == end as real - now {
      assert now == (end - (end as real - now).Floor) as real;
    }
  }

  lemma EndOpensNext(now: real, q: Quota)
    ensures Index(((Index(now, q) + 1) * q.windowMs) as real, q) == Index(now, q) + 1
  {
    var i, w := Index(now, q), q.windowMs;
    assert (i + 1) * w < (i + 2) * w by { assert (i + 2) * w == (i + 1) * w + w; }
    IndexIs(((i + 1) * w) as real, i + 1, q);
  }

  /**
   A request made `retry_after_ms` later opens the next window exactly when the clock stood on a whole millisecond.
   */
  lemma RetryOpensNextExactlyWhenWhole(now: real, q: Quota)
    ensures Index(now + RetryAfter(now, q) as real, q) == if Whole(now) then Index(now, q) + 1 else Index(now, q)
  {
    hide Index, RetryAfter;
    EndOfWindow(now, q);
    if Whole(now) {
      EndOpensNext(now, q);
    } else {
      IndexBounds(now, q);
      IndexIs(now + RetryAfter(now, q) as real, Index(now, q), q);
    }
  }

  /**
   So after a refusal the first request at that instant is accepted exactly then; otherwise it is told to wait 0 ms.
   */
  lemma RetryAccepted(calls: seq<Call>, now: real, q: Quota)
    requires InOrder(calls + [Consume(now)]) && q.limit >= 1
    requires AnswerAt(calls + [Consume(now)], |calls|, q) == Refused(RetryAfter(now, q))
    ensures var retry := calls + [Consume(now), Consume(now + RetryAfter(now, q) as real)];
            AnswerAt(retry, |calls| + 1, q) == if Whole(now) then Accepted else Refused(0)
  {
    hide Index, RetryAfter, StateAfter, Requests;
    var first, later := calls + [Consume(now)], now + RetryAfter(now, q) as real;
    var retry := calls + [Consume(now), Consume(later)];
    assert retry[..|calls| + 1] == first && first[..|calls| + 1] == first && first[..|calls|] == calls;
    StateCounts(first, q);
    AnswerExactly(first, |calls|, q);
    RetryOpensNextExactlyWhenWhole(now, q);
    if !Whole(now) { NothingLeftToWait(now, q); }
  }

  lemma NothingLeftToWait(now: real, q: Quota)
    requires !Whole(now)
    ensures RetryAfter(now + RetryAfter(now, q) as real, q) == 0
  {
    hide Index, RetryAfter;
    var later := now + RetryAfter(now, q) as real;
    RetryOpensNextExactlyWhenWhole(now, q);
    EndOfWindow(now, q);
    EndOfWindow(later, q);
  }

  // `http_date` drops the milliseconds; a client that reads it back has a whole second.
  function DateMs(epochMs: real): int {
    (epochMs / 1000.0).Floor * 1000
  }

  /** Waiting for the HTTP-date is enough exactly when the clock was whole and the window ends on a whole second. */
  lemma DateOpensNextExactlyWhen(now: real, q: Quota)
    ensures Index(DateMs(now + RetryAfter(now, q) as real) as real, q) > Index(now, q)
       <==> Whole(now) && ((Index(now, q) + 1) * q.windowMs) % 1000 == 0
  {
    hide Index, RetryAfter;
    var later, end := now + RetryAfter(now, q) as real, (Index(now, q) + 1) * q.windowMs;
    EndOfWindow(now, q);
    DateTruncates(later, end);
    if DateMs(later) == end {
      EndOpensNext(now, q);
    } else {
      IndexBounds(DateMs(later) as real, q);
      Cancel(Index(DateMs(later) as real, q), Index(now, q) + 1, q.windowMs);
    }
  }

  lemma DateTruncates(later: real, end: int)
    requires later <= end as real
    ensures DateMs(later) <= end && (DateMs(later) == end <==> later == end as real && end % 1000 == 0)
  {
    var seconds := (later / 1000.0).Floor;
    assert seconds as real <= later / 1000.0 < (seconds + 1) as real;
    assert (seconds * 1000) as real <= later < ((seconds + 1) * 1000) as real;
    if later == end as real && end % 1000 == 0 {
      assert end == end / 1000 * 1000;
      assert seconds == end / 1000;
    }
  }

  /**
   So the first request at the date, where that has not passed already, is accepted exactly then, and refused
   otherwise.
   */
  lemma DateAcceptedExactlyWhen(calls: seq<Call>, now: real, q: Quota)
    requires InOrder(calls + [Consume(now)]) && q.limit >= 1
    requires AnswerAt(calls + [Consume(now)], |calls|, q) == Refused(RetryAfter(now, q))
    requires DateMs(now + RetryAfter(now, q) as real) as real >= now
    ensures var date := DateMs(now + RetryAfter(now, q) as real) as real;
            var answer := AnswerAt(calls + [Consume(now), Consume(date)], |calls| + 1, q);
            && (answer == Accepted <==> Whole(now) && ((Index(now, q) + 1) * q.windowMs) % 1000 == 0)
            && (answer != Accepted ==> answer == Refused(RetryAfter(date, q)))
  {
    hide Index, RetryAfter, StateAfter, Requests, DateMs;
    var date := DateMs(now + RetryAfter(now, q) as real) as real;
    var first, retry := calls + [Consume(now)], calls + [Consume(now), Consume(date)];
    assert retry[..|calls| + 1] == first && first[..|calls| + 1] == first && first[..|calls|] == calls;
    StateCounts(first, q);
    AnswerExactly(first, |calls|, q);
    DateOpensNextExactlyWhen(now, q);
    IndexMonotone(now, date, q);
  }

  /** With a window of whole seconds and a whole clock it always is: the date is the instant itself. */
  lemma DateIsEnough(calls: seq<Call>, now: real, q: Quota)
    requires Whole(now) && q.windowMs % 1000 == 0
    ensures DateMs(now + RetryAfter(now, q) as real) as real == now + RetryAfter(now, q) as real
    ensures Index(DateMs(now + RetryAfter(now, q) as real) as real, q) > Index(now, q)
    ensures InOrder(calls + [Consume(now)]) && q.limit >= 1
            && AnswerAt(calls + [Consume(now)], |calls|, q) == Refused(RetryAfter(now, q)) ==>
              AnswerAt(calls + [Consume(now), Consume(DateMs(now + RetryAfter(now, q) as real) as real)], |calls| + 1,
                  q) == Accepted
  {
    hide Index, RetryAfter, DateMs, AnswerAt, InOrder;
    WholeSeconds(Index(now, q) + 1, q.windowMs);
    DateOpensNextExactlyWhen(now, q);
    EndOfWindow(now, q);
    DateTruncates(now + RetryAfter(now, q) as real, (Index(now, q) + 1) * q.windowMs);
    if InOrder(calls + [Consume(now)]) && q.limit >= 1
       && AnswerAt(calls + [Consume(now)], |calls|, q) == Refused(RetryAfter(now, q)) {
      RetryAccepted(calls, now, q);
    }
  }

  lemma WholeSeconds(n: int, w: int)
    requires w % 1000 == 0
    ensures (n * w) % 1000 == 0
  {
    var s := w / 1000;
    assert n * w == n * s * 1000;
  }
}
