/** The subset match of the corpus, and where it says an expectation and a response part ways. */
module Matching {
  import opened Wrappers
  import opened JsonTree
  import opened Pointers

  const ANY_TOKEN := "${any}"
  const RE_PREFIX := "${re:"

  // `re.fullmatch(pattern, str(actual))` on a scalar, which this model does not look into.
  type FullMatch = (string, Json) -> bool

  predicate IsScalar(value: Json) {
    !value.Arr? && !value.Obj?
  }

  predicate IsPattern(text: string) {
    HasPrefix(text, RE_PREFIX) && text[|text| - 1] == '}'
  }

  function ScalarMatches(expected: Json, actual: Lookup, full: FullMatch): bool {
    if expected.Str? && expected.text == ANY_TOKEN then actual.Here?
    else if expected.Str? && IsPattern(expected.text) then
      actual.Here? && IsScalar(actual.value) && actual.value != Null
      && full(expected.text[|RE_PREFIX|..|expected.text| - 1], actual.value)
    else actual == Here(expected)
  }

  // The relation the matcher decides: what is expected is contained in what is there.
  ghost predicate Subset(expected: Json, actual: Lookup, full: FullMatch)
    decreases expected
  {
    match expected
    case Obj(fields) =>
      actual.Here? && actual.value.Obj?
      && forall key :: key in fields ==>
           key in actual.value.fields && Subset(fields[key], Here(actual.value.fields[key]), full)
    case Arr(items) =>
      actual.Here? && actual.value.Arr? && |actual.value.items| == |items|
      && forall i :: 0 <= i < |items| ==> Subset(items[i], Here(actual.value.items[i]), full)
    case _ => ScalarMatches(expected, actual, full)
  }

  // Two values that differ, or two lists of different lengths.
  datatype Mismatch =
    | Differs(pointer: string, expected: Json, actual: Lookup)
    | Lengths(pointer: string, want: nat, got: nat)

  // What stands `tokens` below a value that may itself be missing.
  function Below(actual: Lookup, tokens: seq<string>): Lookup {
    if actual.Missing? then Missing else Resolve(actual.value, tokens)
  }

  // The tokens lead to what the mismatch reports, on both sides, and that is a mismatch.
  ghost predicate LocatedAt(m: Mismatch, expected: Json, actual: Lookup, tokens: seq<string>, full: FullMatch) {
    match m
    case Differs(_, want, got) =>
      Resolve(expected, tokens) == Here(want) && Below(actual, tokens) == got && !Subset(want, got, full)
    case Lengths(_, want, got) =>
      && want != got
      && (var e := Resolve(expected, tokens); e.Here? && e.value.Arr? && |e.value.items| == want)
      && (var a := Below(actual, tokens); a.Here? && a.value.Arr? && |a.value.items| == got)
  }

  ghost predicate Located(m: Mismatch, expected: Json, actual: Lookup, prefix: string, full: FullMatch) {
    exists tokens :: m.pointer == prefix + PointerOf(tokens) && LocatedAt(m, expected, actual, tokens, full)
  }

  lemma LocatedHere(m: Mismatch, expected: Json, actual: Lookup, prefix: string, full: FullMatch)
    requires m.pointer == prefix && LocatedAt(m, expected, actual, [], full)
    ensures Located(m, expected, actual, prefix, full)
  {
    assert prefix + PointerOf([]) == prefix;
  }

  // A mismatch below a child is one below its parent.
  lemma LocatedBelow(m: Mismatch, expected: Json, actual: Lookup, prefix: string, token: string,
                     child: Json, below: Lookup, full: FullMatch)
    requires Located(m, child, below, prefix + "/" + Escape(token), full)
    requires Child(expected, token) == Here(child) && actual.Here? && Child(actual.value, token) == below
    ensures Located(m, expected, actual, prefix, full)
  {
    hide Escape, Subset, Child;
    var tokens :| m.pointer == prefix + "/" + Escape(token) + PointerOf(tokens)
        && LocatedAt(m, child, below, tokens, full);
    var path := [token] + tokens;
    assert path[0] == token && path[1..] == tokens;
    assert prefix + PointerOf(path) == prefix + "/" + Escape(token) + PointerOf(tokens);
    assert Resolve(expected, path) == Resolve(child, tokens);
    assert Below(actual, path) == Below(below, tokens);
  }

  lemma IndexStep(items: seq<Json>, i: nat, prefix: string)
    requires i < |items|
    ensures Child(Arr(items), Decimal(i)) == Here(items[i])
    ensures prefix + "/" + Decimal(i) == prefix + "/" + Escape(Decimal(i))
  {
    DecimalRoundTrip(i);
    DecimalHasNoMark(i);
    EscapePlain(Decimal(i));
  }

  /** `match`: none, or the first mismatch; an object's members are compared in any order. */
  method Match(expected: Json, actual: Lookup, pointer: string, full: FullMatch) returns (found: Option<Mismatch>)
    ensures found.None? <==> Subset(expected, actual, full)
    ensures found.Some? ==> Located(found.value, expected, actual, pointer, full)
    decreases expected
  {
    hide Located, LocatedAt, Escape, PointerOf, ScalarMatches, Decimal;
    match expected
    case Obj(fields) =>
      if actual.Missing? || !actual.value.Obj? {
        HereDiffers(Differs(pointer, expected, actual), expected, actual, pointer, full);
        return Some(Differs(pointer, expected, actual));
      }
      var left := fields.Keys;
      while left != {}
        invariant left <= fields.Keys
        invariant forall key :: key in fields && key !in left ==>
                    key in actual.value.fields && Subset(fields[key], Here(actual.value.fields[key]), full)
      {
        var key :| key in left;
        left := left - {key};
        var child := pointer + "/" + Escape(key);
        if key !in actual.value.fields {
          var m := Differs(child, fields[key], Missing);
          MissingContainsNothing(fields[key], full);
          HereDiffers(m, fields[key], Missing, child, full);
          LocatedBelow(m, expected, actual, pointer, key, fields[key], Missing, full);
          return Some(m);
        }
        var below := Match(fields[key], Here(actual.value.fields[key]), child, full);
        if below.Some? {
          LocatedBelow(below.value, expected, actual, pointer, key, fields[key], Here(actual.value.fields[key]), full);
          return below;
        }
      }
      found := None;
    case Arr(items) =>
      if actual.Missing? || !actual.value.Arr? {
        HereDiffers(Differs(pointer, expected, actual), expected, actual, pointer, full);
        return Some(Differs(pointer, expected, actual));
      }
      var got := actual.value.items;
      if |items| != |got| {
        HereLengths(pointer, expected, actual, full);
        return Some(Lengths(pointer, |items|, |got|));
      }
      for i := 0 to |items|
        invariant forall j :: 0 <= j < i ==> Subset(items[j], Here(got[j]), full)
      {
        IndexStep(items, i, pointer);
        IndexStep(got, i, pointer);
        var below := Match(items[i], Here(got[i]), pointer + "/" + Decimal(i), full);
        if below.Some? {
          LocatedBelow(below.value, expected, actual, pointer, Decimal(i), items[i], Here(got[i]), full);
          return below;
        }
      }
      found := None;
    case _ =>
      if ScalarMatches(expected, actual, full) { return None; }
      HereDiffers(Differs(pointer, expected, actual), expected, actual, pointer, full);
      found := Some(Differs(pointer, expected, actual));
  }

  lemma MissingContainsNothing(expected: Json, full: FullMatch)
    ensures !Subset(expected, Missing, full)
  {
  }

  lemma HereDiffers(m: Mismatch, expected: Json, actual: Lookup, pointer: string, full: FullMatch)
    requires m == Differs(pointer, expected, actual) && !Subset(expected, actual, full)
    ensures Located(m, expected, actual, pointer, full)
  {
    hide Subset;
    LocatedHere(m, expected, actual, pointer, full);
  }

  lemma HereLengths(pointer: string, expected: Json, actual: Lookup, full: FullMatch)
    requires expected.Arr? && actual.Here? && actual.value.Arr? && |expected.items| != |actual.value.items|
    ensures Located(Lengths(pointer, |expected.items|, |actual.value.items|), expected, actual, pointer, full)
  {
    LocatedHere(Lengths(pointer, |expected.items|, |actual.value.items|), expected, actual, pointer, full);
  }

  /**
   The pointer of a mismatch, read back as a pointer, resolves in the expectation to the reported expected value
   and in the response to the reported actual one, or to nothing; a length mismatch, to two lists of those lengths.
   */
  lemma MismatchResolves(m: Mismatch, expected: Json, actual: Json, full: FullMatch)
    requires Located(m, expected, Here(actual), "", full)
    ensures Tokens(m.pointer).Some?
    ensures var tokens := Tokens(m.pointer).value;
            match m
            case Differs(_, want, got) =>
              Resolve(expected, tokens) == Here(want) && Resolve(actual, tokens) == got && !Subset(want, got, full)
            case Lengths(_, want, got) =>
              && Resolve(expected, tokens).Here? && Resolve(expected, tokens).value.Arr?
              && Resolve(actual, tokens).Here? && Resolve(actual, tokens).value.Arr?
              && |Resolve(expected, tokens).value.items| == want != got == |Resolve(actual, tokens).value.items|
  {
    hide Subset;
    var tokens :| m.pointer == "" + PointerOf(tokens) && LocatedAt(m, expected, Here(actual), tokens, full);
    assert m.pointer == PointerOf(tokens);
    TokensOfPointer(tokens);
  }

  /**
   The two tokens: `${any}` is in whatever is there, and `${re:<pattern>}` in a scalar other than null that the pattern
   matches in full. Any other scalar is in its equal alone.
   */
  lemma TokensExactly(pattern: string, other: Json, actual: Lookup, full: FullMatch)
    requires IsScalar(other) && (other.Str? ==> other.text != "${any}")
    requires forall text :: other != Str("${re:" + text + "}")
    ensures Subset(Str("${any}"), actual, full) <==> actual.Here?
    ensures Subset(Str("${re:" + pattern + "}"), actual, full)
       <==> && actual.Here? && !actual.value.Arr? && !actual.value.Obj? && actual.value != Null
            && full(pattern, actual.value)
    ensures Subset(other, actual, full) <==> actual == Here(other)
  {
    var text := "${re:" + pattern + "}";
    assert text[|text| - 1] == '}' && text[..5] == "${re:" && text[5..|text| - 1] == pattern;
    assert text[0] == '$' && text[2] == 'r' && "${any}"[2] == 'a';
    assert !IsPattern("${any}") by { assert "${any}"[..5][2] == 'a'; }
    hide IsPattern;
    if other.Str? {
      PatternExactly(other.text);
      assert forall inner :: other.text == "${re:" + inner + "}" ==> other == Str("${re:" + inner + "}");
    }
  }

  lemma PatternExactly(text: string)
    ensures IsPattern(text) <==> exists inner :: text == "${re:" + inner + "}"
  {
    if IsPattern(text) {
      var inner := text[5..|text| - 1];
      assert text == text[..5] + text[5..];
      assert text == "${re:" + inner + "}";
    }
    if inner :| text == "${re:" + inner + "}" { assert text[..5] == "${re:" && text[|text| - 1] == '}'; }
  }

  // What one value asks of another, apart from what stands below it.
  ghost predicate FitsAt(expected: Json, actual: Lookup, full: FullMatch) {
    match expected
    case Obj(_) => actual.Here? && actual.value.Obj?
    case Arr(items) => actual.Here? && actual.value.Arr? && |actual.value.items| == |items|
    case _ => ScalarMatches(expected, actual, full)
  }

  // And so at every place of the expectation.
  ghost predicate FitsEverywhere(expected: Json, actual: Lookup, full: FullMatch) {
    forall tokens :: FitsBelow(expected, actual, tokens, full)
  }

  ghost predicate FitsBelow(expected: Json, actual: Lookup, tokens: seq<string>, full: FullMatch) {
    Resolve(expected, tokens).Here? ==> FitsAt(Resolve(expected, tokens).value, Below(actual, tokens), full)
  }

  /** The match, place by place: whatever a pointer finds in the expectation fits what it finds in the response. */
  lemma SubsetExactly(expected: Json, actual: Lookup, full: FullMatch)
    ensures Subset(expected, actual, full) <==> FitsEverywhere(expected, actual, full)
  {
    if Subset(expected, actual, full) {
      forall tokens ensures FitsBelow(expected, actual, tokens, full) { SubsetFits(expected, actual, tokens, full); }
    }
    if FitsEverywhere(expected, actual, full) { FitsSubset(expected, actual, full); }
  }

  lemma {:induction false} SubsetFits(expected: Json, actual: Lookup, tokens: seq<string>, full: FullMatch)
    requires Subset(expected, actual, full)
    ensures FitsBelow(expected, actual, tokens, full)
    decreases |tokens|
  {
    hide ScalarMatches, Value, IsDigits;
    if tokens != [] && Child(expected, tokens[0]).Here? {
      SubsetFits(Child(expected, tokens[0]).value, Child(actual.value, tokens[0]), tokens[1..], full);
    }
  }

  lemma {:induction false} FitsSubset(expected: Json, actual: Lookup, full: FullMatch)
    requires FitsEverywhere(expected, actual, full)
    ensures Subset(expected, actual, full)
    decreases expected
  {
    hide ScalarMatches, Decimal, FitsEverywhere;
    assert FitsBelow(expected, actual, [], full) by { EverywhereHere(expected, actual, full); }
    match expected
    case Obj(fields) =>
      forall key | key in fields
        ensures key in actual.value.fields && Subset(fields[key], Here(actual.value.fields[key]), full)
      {
        FitsChild(expected, actual, key, full);
        FitsSubset(fields[key], Child(actual.value, key), full);
        if key !in actual.value.fields { MissingContainsNothing(fields[key], full); }
      }
    case Arr(items) =>
      forall i | 0 <= i < |items| ensures Subset(items[i], Here(actual.value.items[i]), full) {
        IndexStep(items, i, "");
        IndexStep(actual.value.items, i, "");
        FitsChild(expected, actual, Decimal(i), full);
        FitsSubset(items[i], Here(actual.value.items[i]), full);
      }
    case _ =>
  }

  lemma EverywhereHere(expected: Json, actual: Lookup, full: FullMatch)
    requires FitsEverywhere(expected, actual, full)
    ensures FitsBelow(expected, actual, [], full)
  {
  }

  lemma FitsChild(expected: Json, actual: Lookup, token: string, full: FullMatch)
    requires FitsEverywhere(expected, actual, full) && Child(expected, token).Here? && actual.Here?
    ensures FitsEverywhere(Child(expected, token).value, Child(actual.value, token), full)
  {
    hide Child, FitsAt;
    var child, below := Child(expected, token).value, Child(actual.value, token);
    forall tokens ensures FitsBelow(child, below, tokens, full) {
      var path := [token] + tokens;
      assert path[0] == token && path[1..] == tokens;
      assert FitsBelow(expected, actual, path, full);
      assert Resolve(expected, path) == Resolve(child, tokens);
      assert Below(actual, path) == Below(below, tokens);
    }
  }

  // A document without matcher tokens contains itself.
  ghost predicate Literal(node: Json)
    decreases node
  {
    match node
    case Obj(fields) => forall key :: key in fields ==> Literal(fields[key])
    case Arr(items) => forall i :: 0 <= i < |items| ==> Literal(items[i])
    case Str(text) => !IsPattern(text)
    case _ => true
  }

  lemma {:induction false} SubsetReflexive(node: Json, full: FullMatch)
    requires Literal(node)
    ensures Subset(node, Here(node), full)
    decreases node
  {
    match node
    case Obj(fields) =>
      forall key | key in fields ensures Subset(fields[key], Here(fields[key]), full) {
        SubsetReflexive(fields[key], full);
      }
    case Arr(items) =>
      forall i | 0 <= i < |items| ensures Subset(items[i], Here(items[i]), full) {
        SubsetReflexive(items[i], full);
      }
    case _ =>
  }

  // Members added to a response never break a match.
  lemma SubsetGrows(expected: Json, fields: map<string, Json>, more: map<string, Json>, full: FullMatch)
    requires expected.Obj? && Subset(expected, Here(Obj(fields)), full) && fields.Keys !! more.Keys
    ensures Subset(expected, Here(Obj(fields + more)), full)
  {
  }

  /** `absent_violations`: the first pointer that resolves. A malformed pointer is an error. */
  method AbsentViolations(body: Json, pointers: seq<string>) returns (result: Result<Option<(string, Json)>, string>)
    ensures result.Ok? && result.value.None? <==>
              forall i :: 0 <= i < |pointers| ==>
                Tokens(pointers[i]).Some? && Resolve(body, Tokens(pointers[i]).value) == Missing
    ensures result.Ok? && result.value.Some? ==>
              exists i :: && 0 <= i < |pointers| && Tokens(pointers[i]).Some?
                          && Resolve(body, Tokens(pointers[i]).value).Here?
                          && result.value.value == (pointers[i], Resolve(body, Tokens(pointers[i]).value).value)
                          && forall j :: 0 <= j < i ==>
                               Tokens(pointers[j]).Some? && Resolve(body, Tokens(pointers[j]).value) == Missing
  {
    hide Tokens, Resolve;
    for i := 0 to |pointers|
      invariant forall j :: 0 <= j < i ==>
                  Tokens(pointers[j]).Some? && Resolve(body, Tokens(pointers[j]).value) == Missing
    {
      var found := ResolvePointer(body, pointers[i]);
      match found
      case Err(e) => return Err(e);
      case Ok(lookup) => if lookup.Here? { return Ok(Some((pointers[i], lookup.value))); }
    }
    result := Ok(None);
  }
}
