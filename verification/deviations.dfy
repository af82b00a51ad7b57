/** Declared deviations: which failing assertion each excuses (`Deviation.matches`, `_pointer_matches`). */
module Deviations {
  import opened Wrappers
  import opened JsonTree
  import opened Pointers

  // `fnmatch.fnmatchcase(segment, pattern)` and `re.fullmatch(pattern, text)`, which this model does not look into.
  datatype Patterns = Patterns(glob: (string, string) -> bool, full: (string, string) -> bool)

  // `*` matches one segment, and any other element but `**` one segment as a shell glob.
  predicate SegmentMatches(element: string, segment: string, p: Patterns) {
    element == "*" || p.glob(segment, element)
  }

  /** `_pointer_matches` */
  predicate PointerMatches(want: seq<string>, have: seq<string>, p: Patterns)
    decreases |want|
  {
    if want == [] then have == []
    else if want[0] == "**" then exists i :: 0 <= i <= |have| && PointerMatches(want[1..], have[i..], p)
    else have != [] && SegmentMatches(want[0], have[0], p) && PointerMatches(want[1..], have[1..], p)
  }

  /**
   The language of the patterns: `at[k]` is where element `k` begins to match. A `**` takes any run of segments,
   every other element exactly one.
   */
  ghost predicate Aligned(want: seq<string>, have: seq<string>, at: seq<nat>, p: Patterns) {
    && |at| == |want| + 1 && at[0] == 0 && at[|want|] == |have|
    && forall k :: 0 <= k < |want| ==> Fits(want[k], have, at[k], at[k + 1], p)
  }

  ghost predicate Fits(element: string, have: seq<string>, from: nat, to: nat, p: Patterns) {
    && from <= to <= |have|
    && (element == "**" || (to == from + 1 && (element == "*" || p.glob(have[from], element))))
  }

  lemma PointerMatchesExactly(want: seq<string>, have: seq<string>, p: Patterns)
    ensures PointerMatches(want, have, p) <==> exists at :: Aligned(want, have, at, p)
  {
    if PointerMatches(want, have, p) {
      var at := AlignmentOf(want, have, p);
    }
    if at :| Aligned(want, have, at, p) {
      AlignedMatches(want, have, at, p);
    }
  }

  // The same positions counted from `i` segments further left or right.
  function Later(at: seq<nat>, i: nat): seq<nat> {
    seq(|at|, k requires 0 <= k < |at| => at[k] + i)
  }

  lemma FitsLater(element: string, have: seq<string>, i: nat, from: nat, to: nat, p: Patterns)
    requires i <= |have|
    ensures Fits(element, have[i..], from, to, p) <==> Fits(element, have, from + i, to + i, p)
  {
  }

  lemma {:induction false} AlignmentOf(want: seq<string>, have: seq<string>, p: Patterns) returns (at: seq<nat>)
    requires PointerMatches(want, have, p)
    ensures Aligned(want, have, at, p)
    decreases |want|
  {
    if want == [] {
      at := [0];
    } else {
      var i: nat := 1;
      if want[0] == "**" {
        i :| 0 <= i <= |have| && PointerMatches(want[1..], have[i..], p);
      }
      assert Fits(want[0], have, 0, i, p);
      var rest := AlignmentOf(want[1..], have[i..], p);
      at := [0] + Later(rest, i);
      AlignedLonger(want, have, i, rest, p);
    }
  }

  lemma AlignedLonger(want: seq<string>, have: seq<string>, i: nat, rest: seq<nat>, p: Patterns)
    requires want != [] && i <= |have| && Fits(want[0], have, 0, i, p) && Aligned(want[1..], have[i..], rest, p)
    ensures Aligned(want, have, [0] + Later(rest, i), p)
  {
    hide Fits;
    var at := [0] + Later(rest, i);
    forall k | 0 <= k < |want| ensures Fits(want[k], have, at[k], at[k + 1], p) {
      if k > 0 {
        assert Fits(want[1..][k - 1], have[i..], rest[k - 1], rest[k - 1 + 1], p);
        FitsLater(want[k], have, i, rest[k - 1], rest[k], p);
      }
    }
  }

  lemma {:induction false} AlignedMatches(want: seq<string>, have: seq<string>, at: seq<nat>, p: Patterns)
    requires Aligned(want, have, at, p)
    ensures PointerMatches(want, have, p)
    decreases |want|
  {
    if want != [] {
      var i := at[1];
      assert Fits(want[0], have, at[0], at[0 + 1], p);
      var rest := AlignedShorter(want, have, at, p);
      AlignedMatches(want[1..], have[i..], rest, p);
    }
  }

  lemma AlignedShorter(want: seq<string>, have: seq<string>, at: seq<nat>, p: Patterns) returns (rest: seq<nat>)
    requires want != [] && Aligned(want, have, at, p)
    ensures at[1] <= |have| && Aligned(want[1..], have[at[1]..], rest, p)
  {
    var i := at[1];
    forall k | 1 <= k <= |want| ensures i <= at[k] <= |have| { AlignedAbove(want, have, at, p, k); }
    rest := seq(|want|, k requires 0 <= k < |want| => if at[k + 1] >= i then at[k + 1] - i else 0);
    hide Fits;
    forall k | 0 <= k < |want| - 1 ensures Fits(want[1..][k], have[i..], rest[k], rest[k + 1], p) {
      assert Fits(want[k + 1], have, at[k + 1], at[k + 1 + 1], p);
      FitsLater(want[k + 1], have, i, rest[k], rest[k + 1], p);
    }
  }

  // Past the first element, nothing begins before the second one does.
  lemma {:induction false} AlignedAbove(want: seq<string>, have: seq<string>, at: seq<nat>, p: Patterns, k: nat)
    requires Aligned(want, have, at, p) && 1 <= k <= |want|
    ensures at[1] <= at[k] <= |have|
  {
    assert Fits(want[k - 1], have, at[k - 1], at[k - 1 + 1], p);
    if k > 1 { AlignedAbove(want, have, at, p, k - 1); }
  }

  // Without a `**`, a pattern matches segment by segment and never a pointer of another length.
  lemma {:induction false} PlainPattern(want: seq<string>, have: seq<string>, p: Patterns)
    requires "**" !in want
    ensures PointerMatches(want, have, p)
       <==> |want| == |have| && forall k :: 0 <= k < |want| ==> SegmentMatches(want[k], have[k], p)
  {
    if want != [] && have != [] {
      PlainPattern(want[1..], have[1..], p);
      if |want| == |have| && forall k :: 0 <= k < |want| ==> SegmentMatches(want[k], have[k], p) {
        forall k | 0 <= k < |want[1..]| ensures SegmentMatches(want[1..][k], have[1..][k], p) {}
      } else if |want| == |have| && SegmentMatches(want[0], have[0], p) {
        var k :| 0 <= k < |want| && !SegmentMatches(want[k], have[k], p);
        assert !SegmentMatches(want[1..][k - 1], have[1..][k - 1], p);
      }
    }
  }

  // Two `**` in a row match what one does.
  lemma {:induction false} DoubleStarCollapses(front: seq<string>, rest: seq<string>, have: seq<string>, p: Patterns)
    ensures PointerMatches(front + ["**", "**"] + rest, have, p) <==> PointerMatches(front + ["**"] + rest, have, p)
    decreases |front|
  {
    var two, one := front + ["**", "**"] + rest, front + ["**"] + rest;
    if front == [] {
      assert two[1..] == ["**"] + rest && two[1..][1..] == rest && one[1..] == rest;
      assert have[0..] == have;
      if PointerMatches(two, have, p) {
        var i :| 0 <= i <= |have| && PointerMatches(two[1..], have[i..], p);
        var j :| 0 <= j <= |have[i..]| && PointerMatches(rest, have[i..][j..], p);
        assert have[i..][j..] == have[i + j..];
        assert PointerMatches(one[1..], have[i + j..], p);
      }
      if PointerMatches(one, have, p) {
        assert two[1..] == one;
        assert PointerMatches(two[1..], have[0..], p);
      }
    } else {
      assert two[1..] == front[1..] + ["**", "**"] + rest && one[1..] == front[1..] + ["**"] + rest;
      forall i | 0 <= i <= |have|
        ensures PointerMatches(two[1..], have[i..], p) <==> PointerMatches(one[1..], have[i..], p)
      {
        DoubleStarCollapses(front[1..], rest, have[i..], p);
      }
    }
  }

  // ----- deviations

  // The one value a deviation excuses, or a regular expression for the strings it does.
  datatype Excuses = Value(value: Json) | Pattern(pattern: string)

  // No routes means every route.
  datatype Deviation = Deviation(keyword: string, pointer: string, excuses: Excuses, routes: seq<string>, tag: string)

  // A failing assertion: its keyword, where the value stands, and the value.
  datatype Leaf = Leaf(keyword: string, pointer: string, instance: Json)

  /** `Deviation.matches` */
  predicate Matches(d: Deviation, leaf: Leaf, routeKey: string, p: Patterns) {
    && leaf.keyword == d.keyword
    && (match d.excuses
        case Pattern(pattern) => leaf.instance.Str? && p.full(pattern, leaf.instance.text)
        case Value(value) => leaf.instance == value)
    && (d.routes == [] || routeKey in d.routes)
    && PointerMatches(Split(d.pointer), Split(leaf.pointer), p)
  }

  // The first declared deviation that matches.
  function ExcusedBy(deviations: seq<Deviation>, leaf: Leaf, routeKey: string, p: Patterns): Option<string> {
    if deviations == [] then None
    else if Matches(deviations[0], leaf, routeKey, p) then Some(deviations[0].tag)
    else ExcusedBy(deviations[1..], leaf, routeKey, p)
  }

  // What a deviation asks of a failing assertion: its keyword, its value or a string like it, its route if it names
  // any, and a place that its pointer leads to.
  ghost predicate Covers(d: Deviation, leaf: Leaf, routeKey: string, p: Patterns) {
    && d.keyword == leaf.keyword
    && (d.excuses.Value? ==> d.excuses.value == leaf.instance)
    && (d.excuses.Pattern? ==> leaf.instance.Str? && p.full(d.excuses.pattern, leaf.instance.text))
    && (|d.routes| > 0 ==> exists i :: 0 <= i < |d.routes| && d.routes[i] == routeKey)
    && exists at :: Aligned(Split(d.pointer), Split(leaf.pointer), at, p)
  }

  lemma MatchesCovered(d: Deviation, leaf: Leaf, routeKey: string, p: Patterns)
    ensures Matches(d, leaf, routeKey, p) <==> Covers(d, leaf, routeKey, p)
  {
    hide Aligned, PointerMatches, Split;
    PointerMatchesExactly(Split(d.pointer), Split(leaf.pointer), p);
  }

  /** Some deviation covers what is excused, none what is not, and the first that does is the one it is put down to. */
  lemma {:induction false} ExcusedExactly(deviations: seq<Deviation>, leaf: Leaf, routeKey: string, p: Patterns)
    ensures var excuse := ExcusedBy(deviations, leaf, routeKey, p);
            && (excuse == None <==> forall i :: 0 <= i < |deviations| ==> !Covers(deviations[i], leaf, routeKey, p))
            && (excuse != None ==>
                  exists i :: 0 <= i < |deviations| && Covers(deviations[i], leaf, routeKey, p)
                    && excuse == Some(deviations[i].tag)
                    && forall j :: 0 <= j < i ==> !Covers(deviations[j], leaf, routeKey, p))
  {
    hide Matches, Covers;
    if deviations != [] {
      MatchesCovered(deviations[0], leaf, routeKey, p);
      if !Matches(deviations[0], leaf, routeKey, p) {
        var rest := deviations[1..];
        ExcusedExactly(rest, leaf, routeKey, p);
        assert forall i :: 0 < i < |deviations| ==> rest[i - 1] == deviations[i];
        if ExcusedBy(rest, leaf, routeKey, p) != None {
          var i :| 0 <= i < |rest| && Covers(rest[i], leaf, routeKey, p)
            && ExcusedBy(rest, leaf, routeKey, p) == Some(rest[i].tag)
            && forall j :: 0 <= j < i ==> !Covers(rest[j], leaf, routeKey, p);
          assert forall j :: 0 < j < i + 1 ==> deviations[j] == rest[j - 1];
          assert Covers(deviations[i + 1], leaf, routeKey, p);
        }
      }
    }
  }
}
