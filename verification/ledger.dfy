/** The session's ledger: counters per route, and how often each deviation was used (`Ledger`, `LedgerRow`). */
module Ledgers {
  datatype Counter =
    | Validated | Deviated | Excused | Internal | Undeclared | UndeclaredStatus | Unmatched | SkippedNonJson
    | RequestValidated | RequestDeviated | DeliveryValidated | DeliveryUnmatched

  type Row = map<Counter, nat>

  // What the ledger holds: counts by route key, and counts by deviation label.
  datatype Books = Books(rows: map<string, Row>, absorbed: map<string, nat>)

  const NO_BOOKS := Books(map[], map[])

  function Count(row: Row, counter: Counter): nat {
    if counter in row then row[counter] else 0
  }

  function RowOf(b: Books, key: string): Row {
    if key in b.rows then b.rows[key] else map[]
  }

  function Uses(b: Books, name: string): nat {
    if name in b.absorbed then b.absorbed[name] else 0
  }

  function Recorded(b: Books, key: string, counter: Counter): Books {
    b.(rows := b.rows[key := RowOf(b, key)[counter := Count(RowOf(b, key), counter) + 1]])
  }

  function Absorbed(b: Books, name: string): Books {
    b.(absorbed := b.absorbed[name := Uses(b, name) + 1])
  }

  // One record and one absorption for every excused error.
  function AllAbsorbed(b: Books, key: string, counter: Counter, names: seq<string>): Books {
    if names == [] then b
    else Absorbed(Recorded(AllAbsorbed(b, key, counter, names[..|names| - 1]), key, counter), names[|names| - 1])
  }

  class Ledger {
    var rows: map<string, Row>
    var absorbed: map<string, nat>

    constructor ()
      ensures View() == NO_BOOKS
    {
      rows, absorbed := map[], map[];
    }

    function View(): Books
      reads this
    {
      Books(rows, absorbed)
    }

    method Record(key: string, counter: Counter)
      modifies this
      ensures View() == Recorded(old(View()), key, counter)
    {
      var counts := if key in rows then rows[key] else map[];
      counts := counts[counter := (if counter in counts then counts[counter] else 0) + 1];
      rows := rows[key := counts];
    }

    method Absorb(name: string)
      modifies this
      ensures View() == Absorbed(old(View()), name)
    {
      absorbed := absorbed[name := (if name in absorbed then absorbed[name] else 0) + 1];
    }

    /** The loop over the excused errors that follows every check. */
    method AbsorbAll(key: string, counter: Counter, names: seq<string>)
      modifies this
      ensures View() == AllAbsorbed(old(View()), key, counter, names)
    {
      for i := 0 to |names|
        invariant View() == AllAbsorbed(old(View()), key, counter, names[..i])
      {
        assert names[..i + 1][..i] == names[..i];
        Record(key, counter);
        Absorb(names[i]);
      }
      assert names[..|names|] == names;
    }

    /** `total`: one counter over every route. */
    method Total(counter: Counter) returns (total: nat)
      ensures total == Tally(rows, [counter])
    {
      hide Tally;
      total := 0;
      var left := rows.Keys;
      NoRows([counter]);
      assert rows - left == map[];
      while left != {}
        invariant left <= rows.Keys
        invariant total == Tally(rows - left, [counter])
      {
        var key :| key in left;
        assert rows - (left - {key}) == (rows - left)[key := rows[key]];
        TallyUpdate(rows - left, key, rows[key], [counter]);
        assert InRow(rows[key], [counter]) == Count(rows[key], counter) + InRow(rows[key], []);
        total := total + Count(rows[key], counter);
        left := left - {key};
      }
      assert rows - {} == rows;
    }
  }

  // ----- sums over the rows

  ghost function Sum(m: map<string, nat>): nat
    decreases |m|
  {
    if m == map[] then 0
    else
      assert m.Keys != {};
      var k :| k in m;
      assert |(m - {k}).Keys| < |m.Keys|;
      m[k] + Sum(m - {k})
  }

  // Whichever key is taken first.
  lemma {:induction false} SumWithout(m: map<string, nat>, k: string)
    requires k in m
    ensures Sum(m) == m[k] + Sum(m - {k})
    decreases |m|
  {
    var first :| first in m && Sum(m) == m[first] + Sum(m - {first});
    if first != k {
      assert |(m - {first}).Keys| < |m.Keys|;
      SumWithout(m - {first}, k);
      assert |(m - {k}).Keys| < |m.Keys|;
      SumWithout(m - {k}, first);
      assert m - {first} - {k} == m - {k} - {first};
    }
  }

  lemma SumUpdate(m: map<string, nat>, k: string, v: nat)
    ensures Sum(m[k := v]) == Sum(m) + v - (if k in m then m[k] else 0)
  {
    SumWithout(m[k := v], k);
    if k in m {
      SumWithout(m, k);
      assert m[k := v] - {k} == m - {k};
    } else {
      assert m[k := v] - {k} == m;
    }
  }

  // The listed counters, added up within one row.
  function InRow(row: Row, counters: seq<Counter>): nat {
    if counters == [] then 0 else Count(row, counters[0]) + InRow(row, counters[1..])
  }

  predicate Distinct(counters: seq<Counter>) {
    forall i, j :: 0 <= i < j < |counters| ==> counters[i] != counters[j]
  }

  lemma {:induction false} InRowMore(row: Row, counter: Counter, counters: seq<Counter>)
    requires Distinct(counters)
    ensures InRow(row[counter := Count(row, counter) + 1], counters)
        == InRow(row, counters) + if counter in counters then 1 else 0
  {
    if counters != [] {
      InRowMore(row, counter, counters[1..]);
      assert counters == [counters[0]] + counters[1..];
    }
  }

  lemma {:induction false} NothingInRow(counters: seq<Counter>)
    ensures InRow(map[], counters) == 0
  {
    if counters != [] { NothingInRow(counters[1..]); }
  }

  // And over every row.
  ghost function Tally(rows: map<string, Row>, counters: seq<Counter>): nat {
    Sum(map key | key in rows :: InRow(rows[key], counters))
  }

  // `LedgerRow.calls`: the counters one of which every answered call adds to.
  const CALLS := [Validated, Excused, Internal, Undeclared, Unmatched, SkippedNonJson]

  // The counters every excused error adds to.
  const DEVIATIONS := [Deviated, RequestDeviated]

  lemma NoRows(counters: seq<Counter>)
    ensures Tally(map[], counters) == 0
  {
    var none: map<string, Row> := map[];
    assert (map key | key in none :: InRow(none[key], counters)) == map[];
  }

  lemma TallyUpdate(rows: map<string, Row>, key: string, row: Row, counters: seq<Counter>)
    ensures Tally(rows[key := row], counters)
         == Tally(rows, counters) + InRow(row, counters) - (if key in rows then InRow(rows[key], counters) else 0)
  {
    var m := map k | k in rows :: InRow(rows[k], counters);
    var next := rows[key := row];
    assert (map k | k in next :: InRow(next[k], counters)) == m[key := InRow(row, counters)];
    SumUpdate(m, key, InRow(row, counters));
  }

  lemma RecordTallies(b: Books, key: string, counter: Counter, counters: seq<Counter>)
    requires Distinct(counters)
    ensures Tally(Recorded(b, key, counter).rows, counters)
        == Tally(b.rows, counters) + if counter in counters then 1 else 0
  {
    hide Tally, InRow;
    var row := RowOf(b, key);
    InRowMore(row, counter, counters);
    NothingInRow(counters);
    TallyUpdate(b.rows, key, row[counter := Count(row, counter) + 1], counters);
  }

  lemma AbsorbSums(b: Books, name: string)
    ensures Sum(Absorbed(b, name).absorbed) == Sum(b.absorbed) + 1
  {
    SumUpdate(b.absorbed, name, Uses(b, name) + 1);
  }

  // Each excused error is recorded once and absorbed once.
  lemma {:induction false} AbsorbAllSums(b: Books, key: string, counter: Counter, names: seq<string>,
                                         counters: seq<Counter>)
    requires Distinct(counters)
    ensures Sum(AllAbsorbed(b, key, counter, names).absorbed) == Sum(b.absorbed) + |names|
    ensures Tally(AllAbsorbed(b, key, counter, names).rows, counters)
         == Tally(b.rows, counters) + if counter in counters then |names| else 0
  {
    hide Tally, Sum;
    if names != [] {
      var front := names[..|names| - 1];
      AbsorbAllSums(b, key, counter, front, counters);
      var before := AllAbsorbed(b, key, counter, front);
      RecordTallies(before, key, counter, counters);
      AbsorbSums(Recorded(before, key, counter), names[|names| - 1]);
    }
  }
}
