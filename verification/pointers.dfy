/** JSON pointers as RFC 6901 spells them (sections 3 and 4): escaping, splitting, list indices, resolution. */
module Pointers {
  import opened Wrappers
  import opened JsonTree

  // ----- `str.replace`, for a one-character and for a two-character pattern

  function ReplaceChar(s: string, c: char, with: string): string {
    if s == "" then "" else (if s[0] == c then with else [s[0]]) + ReplaceChar(s[1..], c, with)
  }

  function ReplacePair(s: string, c: char, d: char, with: char): string {
    if s == "" then ""
    else if |s| >= 2 && s[0] == c && s[1] == d then [with] + ReplacePair(s[2..], c, d, with)
    else [s[0]] + ReplacePair(s[1..], c, d, with)
  }

  function Escape(token: string): string {
    ReplaceChar(ReplaceChar(token, '~', "~0"), '/', "~1")
  }

  function Unescape(raw: string): string {
    ReplacePair(ReplacePair(raw, '~', '1', '/'), '~', '0', '~')
  }

  // What escaping makes of a token's first character.
  function EscapedChar(c: char): string {
    if c == '~' then "~0" else if c == '/' then "~1" else [c]
  }

  lemma {:induction false} ReplaceCharConcat(s: string, t: string, c: char, with: string)
    ensures ReplaceChar(s + t, c, with) == ReplaceChar(s, c, with) + ReplaceChar(t, c, with)
  {
    if s == "" {
      assert s + t == t;
    } else {
      assert (s + t)[1..] == s[1..] + t;
      ReplaceCharConcat(s[1..], t, c, with);
    }
  }

  lemma EscapeStep(token: string)
    requires token != ""
    ensures Escape(token) == EscapedChar(token[0]) + Escape(token[1..])
  {
    var head := if token[0] == '~' then "~0" else [token[0]];
    ReplaceCharConcat(head, ReplaceChar(token[1..], '~', "~0"), '/', "~1");
    assert ReplaceChar(head, '/', "~1") == EscapedChar(token[0]) by {
      assert head[1..] == (if token[0] == '~' then "0" else "");
      assert "0"[1..] == "";
    }
  }

  // An escaped token has no separator in it.
  lemma {:induction false} EscapeHasNoSlash(token: string)
    ensures '/' !in Escape(token)
  {
    if token != "" {
      EscapeStep(token);
      EscapeHasNoSlash(token[1..]);
      hide Escape;
    }
  }

  lemma PairFound(c: char, d: char, rest: string, with: char)
    ensures ReplacePair([c, d] + rest, c, d, with) == [with] + ReplacePair(rest, c, d, with)
  {
    assert ([c, d] + rest)[2..] == rest;
  }

  lemma PairSkips(first: char, rest: string, c: char, d: char, with: char)
    requires first != c || rest == "" || rest[0] != d
    ensures ReplacePair([first] + rest, c, d, with) == [first] + ReplacePair(rest, c, d, with)
  {
    assert ([first] + rest)[1..] == rest;
  }

  // The first pass back restores the slashes and leaves each "~0" alone.
  lemma NothingEscaped()
    ensures Escape("") == "" && ReplacePair("", '~', '1', '/') == ""
  {
  }

  lemma {:induction false} SlashesRestored(token: string)
    ensures ReplacePair(Escape(token), '~', '1', '/') == ReplaceChar(token, '~', "~0")
  {
    hide Escape, ReplacePair;
    if token == "" {
      NothingEscaped();
    } else {
      EscapeStep(token);
      SlashesRestored(token[1..]);
      var rest := Escape(token[1..]);
      if token[0] == '/' {
        PairFound('~', '1', rest, '/');
      } else if token[0] == '~' {
        PairSkips('~', ['0'] + rest, '~', '1', '/');
        PairSkips('0', rest, '~', '1', '/');
        assert "~0" + rest == ['~'] + (['0'] + rest);
      } else {
        PairSkips(token[0], rest, '~', '1', '/');
      }
    }
  }

  lemma {:induction false} TildesRestored(token: string)
    ensures ReplacePair(ReplaceChar(token, '~', "~0"), '~', '0', '~') == token
  {
    if token != "" {
      TildesRestored(token[1..]);
      hide ReplacePair;
      var rest := ReplaceChar(token[1..], '~', "~0");
      if token[0] == '~' {
        PairFound('~', '0', rest, '~');
      } else {
        PairSkips(token[0], rest, '~', '0', '~');
      }
      assert token == [token[0]] + token[1..];
    }
  }

  lemma UnescapeEscape(token: string)
    ensures Unescape(Escape(token)) == token
  {
    hide Escape;
    SlashesRestored(token);
    TildesRestored(token);
  }

  // ----- splitting and joining

  /** `s.split("/")`. */
  function Split(s: string): (parts: seq<string>)
    ensures |parts| >= 1
  {
    if s == "" then [""]
    else
      var rest := Split(s[1..]);
      if s[0] == '/' then [""] + rest else [[s[0]] + rest[0]] + rest[1..]
  }

  lemma {:induction false} SplitWithoutSlash(s: string)
    requires '/' !in s
    ensures Split(s) == [s]
  {
    if s != "" {
      SplitWithoutSlash(s[1..]);
      assert s == [s[0]] + s[1..];
    }
  }

  lemma {:induction false} SplitAtSlash(s: string, rest: string)
    requires '/' !in s
    ensures Split(s + "/" + rest) == [s] + Split(rest)
  {
    if s == "" {
      assert s + "/" + rest == "/" + rest;
      assert ("/" + rest)[1..] == rest;
    } else {
      SplitAtSlash(s[1..], rest);
      assert (s + "/" + rest)[1..] == s[1..] + "/" + rest;
      assert s == [s[0]] + s[1..];
    }
  }

  // The pointer that steps through the tokens, as it is built one `/<escaped token>` at a time.
  function PointerOf(tokens: seq<string>): string {
    if tokens == [] then "" else "/" + Escape(tokens[0]) + PointerOf(tokens[1..])
  }

  lemma {:induction false} PointerOfConcat(a: seq<string>, b: seq<string>)
    ensures PointerOf(a + b) == PointerOf(a) + PointerOf(b)
  {
    hide Escape;
    if a == [] {
      assert a + b == b;
    } else {
      assert (a + b)[1..] == a[1..] + b;
      PointerOfConcat(a[1..], b);
    }
  }

  function UnescapeAll(raws: seq<string>): seq<string> {
    seq(|raws|, i requires 0 <= i < |raws| => Unescape(raws[i]))
  }

  /** The tokens of a pointer, or none when it neither is empty nor starts with a slash. */
  function Tokens(pointer: string): Option<seq<string>> {
    if pointer == "" then Some([])
    else if pointer[0] != '/' then None
    else Some(UnescapeAll(Split(pointer[1..])))
  }

  // Nothing but a text that starts with something else than a slash is malformed.
  lemma MalformedExactly(pointer: string)
    ensures Tokens(pointer) == None <==> exists c, rest: string :: c != '/' && pointer == [c] + rest
  {
    hide UnescapeAll, Split;
    if pointer != "" { assert pointer == [pointer[0]] + pointer[1..]; }
  }

  function EscapeAll(tokens: seq<string>): seq<string> {
    seq(|tokens|, i requires 0 <= i < |tokens| => Escape(tokens[i]))
  }

  lemma {:induction false} SplitPointer(tokens: seq<string>)
    requires tokens != []
    ensures PointerOf(tokens)[0] == '/' && Split(PointerOf(tokens)[1..]) == EscapeAll(tokens)
  {
    var first, rest := Escape(tokens[0]), PointerOf(tokens[1..]);
    EscapeHasNoSlash(tokens[0]);
    PointerStep(tokens);
    hide Escape, Split, PointerOf;
    if tokens[1..] == [] {
      assert first + rest == first;
      SplitWithoutSlash(first);
      assert EscapeAll(tokens) == [first];
    } else {
      SplitPointer(tokens[1..]);
      hide EscapeAll;
      assert rest == "/" + rest[1..];
      SplitAtSlash(first, rest[1..]);
      EscapeAllStep(tokens);
      assert first + rest == first + "/" + rest[1..];
    }
  }

  lemma PointerStep(tokens: seq<string>)
    requires tokens != []
    ensures PointerOf(tokens)[0] == '/' && PointerOf(tokens)[1..] == Escape(tokens[0]) + PointerOf(tokens[1..])
    ensures PointerOf([]) == ""
  {
    hide Escape;
    assert PointerOf(tokens) == "/" + (Escape(tokens[0]) + PointerOf(tokens[1..]));
  }

  lemma EscapeAllStep(tokens: seq<string>)
    requires tokens != []
    ensures EscapeAll(tokens) == [Escape(tokens[0])] + EscapeAll(tokens[1..])
  {
    hide Escape;
  }

  // A pointer reads back as the tokens it was built from.
  lemma TokensOfPointer(tokens: seq<string>)
    ensures Tokens(PointerOf(tokens)) == Some(tokens)
  {
    hide Escape, Unescape, Split;
    if tokens != [] {
      SplitPointer(tokens);
      forall i | 0 <= i < |tokens| ensures Unescape(Escape(tokens[i])) == tokens[i] { UnescapeEscape(tokens[i]); }
      assert UnescapeAll(EscapeAll(tokens)) == tokens;
    }
  }

  // ----- list indices

  /** `str(n)` for an index. */
  function Decimal(n: nat): string {
    var digit := ['0' + (n % 10) as char];
    if n < 10 then digit else Decimal(n / 10) + digit
  }

  predicate IsDigits(s: string) {
    s != "" && forall i :: 0 <= i < |s| ==> '0' <= s[i] <= '9'
  }

  /** `int(s)` for a string of digits. */
  function Value(s: string): nat
    requires IsDigits(s)
  {
    var last := (s[|s| - 1] as int) - ('0' as int);
    if |s| == 1 then last else 10 * Value(s[..|s| - 1]) + last
  }

  lemma {:induction false} DecimalRoundTrip(n: nat)
    ensures IsDigits(Decimal(n)) && Value(Decimal(n)) == n
  {
    var digit := ['0' + (n % 10) as char];
    if n >= 10 {
      DecimalRoundTrip(n / 10);
      assert Decimal(n)[..|Decimal(n)| - 1] == Decimal(n / 10);
    }
  }

  lemma {:induction false} DecimalHasNoMark(n: nat)
    ensures '/' !in Decimal(n) && '~' !in Decimal(n)
  {
    DecimalRoundTrip(n);
  }

  // An index needs no escaping, so `f"{pointer}/{index}"` is a step like any other.
  lemma {:induction false} EscapePlain(token: string)
    requires '/' !in token && '~' !in token
    ensures Escape(token) == token
  {
    if token != "" {
      EscapeStep(token);
      EscapePlain(token[1..]);
      assert token == [token[0]] + token[1..];
    }
  }

  // ----- resolution

  // A value, or the source's MISSING.
  datatype Lookup = Missing | Here(value: Json)

  // One step into a value.
  function Child(current: Json, token: string): Lookup {
    match current
    case Obj(fields) => if token in fields then Here(fields[token]) else Missing
    case Arr(items) => if IsDigits(token) && Value(token) < |items| then Here(items[Value(token)]) else Missing
    case _ => Missing
  }

  function Resolve(doc: Json, tokens: seq<string>): Lookup
    decreases |tokens|
  {
    if tokens == [] then Here(doc)
    else
      match Child(doc, tokens[0])
      case Missing => Missing
      case Here(value) => Resolve(value, tokens[1..])
  }

  /** `resolve_pointer`: a walk from token to token. A malformed pointer is an error. */
  method ResolvePointer(doc: Json, pointer: string) returns (result: Result<Lookup, string>)
    ensures result == match Tokens(pointer)
                      case None => Err(pointer)
                      case Some(tokens) => Ok(Resolve(doc, tokens))
  {
    if pointer == "" { return Ok(Here(doc)); }
    if pointer[0] != '/' { return Err(pointer); }
    var raws := Split(pointer[1..]);
    var current := doc;
    for i := 0 to |raws|
      invariant Resolve(doc, UnescapeAll(raws)) == Resolve(current, UnescapeAll(raws)[i..])
    {
      var token := Unescape(raws[i]);
      assert UnescapeAll(raws)[i..][0] == token && UnescapeAll(raws)[i..][1..] == UnescapeAll(raws)[i + 1..];
      match Child(current, token)
      case Missing => return Ok(Missing);
      case Here(value) => current := value;
    }
    result := Ok(Here(current));
  }
}
