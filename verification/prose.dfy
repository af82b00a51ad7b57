/**
 The prose guard (`cache.py`): eight-word windows looked for as padded strings. The words of a text are inputs here;
 how they are lifted out of it is not part of this model.
 */
module Prose {
  const WINDOW := 8

  // As the words of a text come: never empty, never with a space.
  predicate IsWord(w: string) {
    w != "" && ' ' !in w
  }

  predicate Worded(words: seq<string>) {
    forall i :: 0 <= i < |words| ==> IsWord(words[i])
  }

  predicate Spaceless(tokens: seq<string>) {
    forall i :: 0 <= i < |tokens| ==> ' ' !in tokens[i]
  }

  /** `" ".join(parts)` */
  function Join(parts: seq<string>): string {
    if parts == [] then ""
    else if |parts| == 1 then parts[0]
    else parts[0] + " " + Join(parts[1..])
  }

  function JoinAll(docs: seq<seq<string>>): seq<string> {
    seq(|docs|, i requires 0 <= i < |docs| => Join(docs[i]))
  }

  /** The padded string the windows are looked for in. */
  function Corpus(docs: seq<seq<string>>): string {
    " " + Join(JoinAll(docs)) + " "
  }

  // One list, or string, stands in another at a place.
  predicate At<T(==)>(s: seq<T>, sub: seq<T>, i: int) {
    0 <= i <= |s| - |sub| && s[i..i + |sub|] == sub
  }

  /** Python's `sub in s`; and of words, that they follow one another in a list of words. */
  predicate Occurs<T(==)>(s: seq<T>, sub: seq<T>) {
    exists i :: 0 <= i <= |s| && At(s, sub, i)
  }

  lemma OccursWithin<T>(a: seq<T>, sub: seq<T>, b: seq<T>)
    ensures At(a + sub + b, sub, |a|) && Occurs(a + sub + b, sub)
  {
    assert At(a + sub + b, sub, |a|);
  }

  lemma SplitAt<T>(s: seq<T>, sub: seq<T>, i: nat)
    requires At(s, sub, i)
    ensures s == s[..i] + sub + s[i + |sub|..]
  {
  }

  lemma OccursInMore<T>(sub: seq<T>, a: seq<T>, s: seq<T>, b: seq<T>)
    requires Occurs(s, sub)
    ensures Occurs(a + s + b, sub)
  {
    var i :| 0 <= i <= |s| && At(s, sub, i);
    SplitAt(s, sub, i);
    assert a + s + b == (a + s[..i]) + sub + (s[i + |sub|..] + b);
    OccursWithin(a + s[..i], sub, s[i + |sub|..] + b);
  }

  function Concat(docs: seq<seq<string>>): seq<string> {
    if docs == [] then [] else docs[0] + Concat(docs[1..])
  }

  // The documents' words; a document without any leaves an empty one, and so do no documents.
  function Tokens(docs: seq<seq<string>>): seq<string> {
    if docs == [] then [""] else TokensOf(docs[0]) + if |docs| == 1 then [] else Tokens(docs[1..])
  }

  function TokensOf(words: seq<string>): seq<string> {
    if words == [] then [""] else words
  }

  // Each token and the space after it.
  function Spaced(tokens: seq<string>): string {
    if tokens == [] then "" else tokens[0] + " " + Spaced(tokens[1..])
  }

  lemma {:induction false} SpacedConcat(a: seq<string>, b: seq<string>)
    ensures Spaced(a + b) == Spaced(a) + Spaced(b)
  {
    if a == [] {
      assert a + b == b;
    } else {
      assert (a + b)[1..] == a[1..] + b;
      SpacedConcat(a[1..], b);
    }
  }

  lemma {:induction false} JoinIsSpaced(parts: seq<string>)
    requires parts != []
    ensures Join(parts) + " " == Spaced(parts)
  {
    if |parts| == 1 {
      assert Spaced(parts[1..]) == "";
    } else {
      JoinIsSpaced(parts[1..]);
    }
  }

  // The corpus is the tokens, each with a space on either side.
  lemma {:induction false} CorpusIsSpaced(docs: seq<seq<string>>)
    requires docs != []
    ensures Spaced(JoinAll(docs)) == Spaced(Tokens(docs))
  {
    var rest := docs[1..];
    assert JoinAll(docs)[1..] == JoinAll(rest);
    if docs[0] != [] { JoinIsSpaced(docs[0]); }
    assert Join(docs[0]) + " " == Spaced(TokensOf(docs[0])) by { assert Spaced([""][1..]) == ""; }
    if rest == [] {
      assert TokensOf(docs[0]) + [] == TokensOf(docs[0]);
    } else {
      CorpusIsSpaced(rest);
      SpacedConcat(TokensOf(docs[0]), Tokens(rest));
    }
  }

  lemma CorpusIs(docs: seq<seq<string>>)
    ensures Corpus(docs) == " " + Spaced(Tokens(docs))
  {
    if docs == [] {
      assert JoinAll(docs) == [] && Spaced([""][1..]) == "";
    } else {
      CorpusIsSpaced(docs);
      JoinIsSpaced(JoinAll(docs));
      assert " " + Join(JoinAll(docs)) + " " == " " + (Join(JoinAll(docs)) + " ");
    }
  }

  lemma {:induction false} TokensSpaceless(docs: seq<seq<string>>)
    requires forall d :: 0 <= d < |docs| ==> Worded(docs[d])
    ensures Spaceless(Tokens(docs))
  {
    if docs != [] {
      assert Worded(docs[0]);
      if |docs| > 1 { TokensSpaceless(docs[1..]); }
    }
  }

  // ----- string search is word search

  // Two words up to their first space are one word when the texts after them agree.
  lemma FirstWord(w: string, t: string, x: string, y: string)
    requires ' ' !in w && ' ' !in t && w + " " + x <= t + " " + y
    ensures w == t && x <= y
  {
    var r, s := w + " " + x, t + " " + y;
    assert r[|w|] == ' ' && s[|t|] == ' ';
    assert forall i :: 0 <= i < |t| ==> s[i] == t[i];
    assert forall i :: 0 <= i < |w| ==> r[i] == w[i];
    assert forall i :: 0 <= i < |r| ==> r[i] == s[i];
    assert |w| == |t|;
    assert w == r[..|w|] && t == s[..|t|];
    assert x == r[|w| + 1..] && y == s[|t| + 1..];
  }

  lemma {:induction false} PrefixMatches(window: seq<string>, tokens: seq<string>)
    requires Spaceless(window) && Spaceless(tokens) && Spaced(window) <= Spaced(tokens)
    ensures window <= tokens
  {
    if window != [] {
      assert tokens != [];
      FirstWord(window[0], tokens[0], Spaced(window[1..]), Spaced(tokens[1..]));
      PrefixMatches(window[1..], tokens[1..]);
      assert window == [window[0]] + window[1..] && tokens == [tokens[0]] + tokens[1..];
    }
  }

  // Past the first token, an occurrence starts at or after the space that ends it.
  lemma {:induction false} FoundIsContiguous(window: seq<string>, tokens: seq<string>, i: nat)
    requires Spaceless(window) && Spaceless(tokens) && At(" " + Spaced(tokens), " " + Spaced(window), i)
    ensures Occurs(tokens, window)
  {
    var s, sub := " " + Spaced(tokens), " " + Spaced(window);
    if i == 0 {
      FoundAtStart(window, tokens);
    } else {
      var first, rest := tokens[0], tokens[1..];
      var j := i - 1 - |first|;
      FoundPastFirst(window, tokens, i);
      FoundIsContiguous(window, rest, j);
      hide Spaced, At;
      OccursInMore(window, [first], rest, []);
      assert [first] + rest + [] == tokens;
    }
  }

  lemma FoundAtStart(window: seq<string>, tokens: seq<string>)
    requires Spaceless(window) && Spaceless(tokens) && At(" " + Spaced(tokens), " " + Spaced(window), 0)
    ensures Occurs(tokens, window)
  {
    hide Spaced;
    var n := |Spaced(window)|;
    assert (" " + Spaced(tokens))[..1 + n][1..] == Spaced(tokens)[..n];
    assert (" " + Spaced(window))[1..] == Spaced(window);
    PrefixMatches(window, tokens);
    assert At(tokens, window, 0);
  }

  lemma FoundPastFirst(window: seq<string>, tokens: seq<string>, i: nat)
    requires Spaceless(tokens) && At(" " + Spaced(tokens), " " + Spaced(window), i) && i > 0
    ensures tokens != [] && i >= 1 + |tokens[0]|
    ensures At(" " + Spaced(tokens[1..]), " " + Spaced(window), i - 1 - |tokens[0]|)
  {
    if tokens == [] {
      assert false;
    } else {
      SpacedStep(tokens);
      hide Spaced, At;
      PastFirst(tokens[0], " " + Spaced(tokens[1..]), " " + Spaced(window), i);
    }
  }

  lemma PastFirst(first: string, more: string, sub: string, i: nat)
    requires ' ' !in first && sub != "" && sub[0] == ' ' && i > 0 && At((" " + first) + more, sub, i)
    ensures i >= 1 + |first| && At(more, sub, i - 1 - |first|)
  {
    var s := (" " + first) + more;
    assert s[i] == ' ' by { assert s[i..i + |sub|][0] == sub[0]; }
    assert forall k :: 1 <= k < 1 + |first| ==> s[k] == first[k - 1] && s[k] != ' ';
    var j := i - 1 - |first|;
    assert s[1 + |first|..] == more;
    assert more[j..j + |sub|] == s[i..i + |sub|];
  }

  lemma SpacedStep(tokens: seq<string>)
    requires tokens != []
    ensures " " + Spaced(tokens) == (" " + tokens[0]) + (" " + Spaced(tokens[1..]))
  {
  }

  lemma ContiguousIsFound(window: seq<string>, tokens: seq<string>)
    requires Occurs(tokens, window)
    ensures Occurs(" " + Spaced(tokens), " " + Spaced(window))
  {
    var k :| 0 <= k <= |tokens| && At(tokens, window, k);
    SplitAt(tokens, window, k);
    hide Spaced, Occurs;
    FoundBetween(tokens[..k], window, tokens[k + |window|..]);
  }

  lemma FoundBetween(before: seq<string>, window: seq<string>, behind: seq<string>)
    ensures Occurs(" " + Spaced(before + window + behind), " " + Spaced(window))
  {
    SpacedConcat(before + window, behind);
    SpacedConcat(before, window);
    SpacedEnds(before);
    hide Spaced, Occurs;
    var x, s, after := Spaced(before), Spaced(window), Spaced(behind);
    var start := (" " + x)[..|x|];
    assert " " + x == start + " ";
    Regrouped(start, x, s, after);
    OccursWithin(start, " " + s, after);
  }

  lemma Regrouped(start: string, x: string, s: string, after: string)
    requires " " + x == start + " "
    ensures " " + (x + s + after) == start + (" " + s) + after
  {
    assert " " + (x + s + after) == (" " + x) + s + after;
  }

  lemma {:induction false} SpacedEnds(tokens: seq<string>)
    ensures (" " + Spaced(tokens))[|Spaced(tokens)|] == ' '
  {
    if tokens != [] {
      SpacedEnds(tokens[1..]);
      SpacedStep(tokens);
    }
  }

  /** The padded search finds a window exactly when its words follow one another in the documents' tokens. */
  lemma PaddedSearchExactly(window: seq<string>, docs: seq<seq<string>>)
    requires window != [] && Worded(window) && forall d :: 0 <= d < |docs| ==> Worded(docs[d])
    ensures Occurs(Corpus(docs), " " + Join(window) + " ") <==> Occurs(Tokens(docs), window)
  {
    var tokens, sub := Tokens(docs), " " + Spaced(window);
    CorpusIs(docs);
    JoinIsSpaced(window);
    TokensSpaceless(docs);
    assert Spaceless(window);
    hide Join, Corpus, Spaced, Tokens, At;
    assert " " + Join(window) + " " == sub;
    if Occurs(Corpus(docs), sub) {
      var i :| 0 <= i <= |Corpus(docs)| && At(Corpus(docs), sub, i);
      FoundIsContiguous(window, tokens, i);
    }
    if Occurs(tokens, window) { ContiguousIsFound(window, tokens); }
  }

  // ----- what is reported

  // The window at a place in the text is in the documents, and no link.
  ghost predicate Leaked(words: seq<string>, docs: seq<seq<string>>, i: int, leak: string) {
    && 0 <= i <= |words| - 8
    && leak == Join(words[i..i + 8])
    && Occurs(Tokens(docs), words[i..i + 8])
    && !Occurs(leak, "http")
  }

  /** `prose_leaks` for one text. */
  method ProseLeaks(words: seq<string>, docs: seq<seq<string>>) returns (found: set<string>)
    requires Worded(words) && forall d :: 0 <= d < |docs| ==> Worded(docs[d])
    ensures forall leak :: leak in found <==> exists i :: Leaked(words, docs, i, leak)
  {
    hide Join, Corpus, Tokens, Occurs, Worded;
    found := {};
    var corpus := Corpus(docs);
    for i := 0 to if |words| < WINDOW then 0 else |words| - WINDOW + 1
      invariant forall leak :: leak in found <==> exists k :: 0 <= k < i && Leaked(words, docs, k, leak)
    {
      var window := Join(words[i..i + WINDOW]);
      WordedPart(words, i);
      PaddedSearchExactly(words[i..i + WINDOW], docs);
      var leaks := window != "" && Occurs(corpus, " " + window + " ") && !Occurs(window, "http");
      ghost var before := found;
      if leaks { found := found + {window}; }
      forall leak ensures leak in found <==> exists k :: 0 <= k < i + 1 && Leaked(words, docs, k, leak) {
        assert Leaked(words, docs, i, leak) <==> leak == window && leaks;
        assert leak in before <==> exists k :: 0 <= k < i && Leaked(words, docs, k, leak);
        if k :| 0 <= k < i + 1 && Leaked(words, docs, k, leak) { assert k < i || leak in found; }
      }
    }
  }

  lemma WordedPart(words: seq<string>, i: nat)
    requires Worded(words) && i + WINDOW <= |words|
    ensures Worded(words[i..i + WINDOW]) && Join(words[i..i + WINDOW]) != ""
  {
    assert IsWord(words[i..i + WINDOW][0]);
  }

  /** Nothing copied from one document is missed. */
  lemma {:induction false} SharedWithOneIsFound(window: seq<string>, docs: seq<seq<string>>, d: nat)
    requires d < |docs| && window != [] && Occurs(docs[d], window)
    ensures Occurs(Tokens(docs), window)
  {
    hide Occurs;
    var rest := if |docs| == 1 then [] else Tokens(docs[1..]);
    if d == 0 {
      NothingInNone(window, docs[0]);
      OccursInMore(window, [], docs[0], rest);
      assert [] + docs[0] + rest == Tokens(docs);
    } else {
      SharedWithOneIsFound(window, docs[1..], d - 1);
      OccursInMore(window, TokensOf(docs[0]), rest, []);
      assert TokensOf(docs[0]) + rest + [] == Tokens(docs);
    }
  }

  lemma NothingInNone(window: seq<string>, words: seq<string>)
    requires window != [] && Occurs(words, window)
    ensures words != []
  {
  }

  // A list without its empty tokens.
  function Words(tokens: seq<string>): seq<string> {
    if tokens == [] then [] else (if tokens[0] == "" then [] else [tokens[0]]) + Words(tokens[1..])
  }

  lemma {:induction false} WordsConcat(a: seq<string>, b: seq<string>)
    ensures Words(a + b) == Words(a) + Words(b)
  {
    if a == [] {
      assert a + b == b;
    } else {
      assert (a + b)[1..] == a[1..] + b;
      WordsConcat(a[1..], b);
    }
  }

  lemma {:induction false} WordsOfWorded(words: seq<string>)
    requires Worded(words)
    ensures Words(words) == words
  {
    if words != [] {
      assert IsWord(words[0]);
      WordsOfWorded(words[1..]);
    }
  }

  lemma {:induction false} TokensAreWords(docs: seq<seq<string>>)
    requires forall d :: 0 <= d < |docs| ==> Worded(docs[d])
    ensures Words(Tokens(docs)) == Concat(docs)
  {
    assert Words([""]) == [] by { assert Words([""][1..]) == []; }
    if docs != [] {
      assert Worded(docs[0]);
      WordsOfWorded(docs[0]);
      if |docs| == 1 {
        assert TokensOf(docs[0]) + [] == TokensOf(docs[0]) && Concat(docs[1..]) == [];
      } else {
        TokensAreWords(docs[1..]);
        WordsConcat(TokensOf(docs[0]), Tokens(docs[1..]));
      }
    }
  }

  /** Whatever is reported follows one another in the documents' concatenated words. */
  lemma FoundIsInTheWords(window: seq<string>, docs: seq<seq<string>>)
    requires Worded(window) && (forall d :: 0 <= d < |docs| ==> Worded(docs[d])) && Occurs(Tokens(docs), window)
    ensures Occurs(Concat(docs), window)
  {
    WordsOfWorded(window);
    TokensAreWords(docs);
    WordsKeepOrder(window, Tokens(docs));
  }

  lemma WordsKeepOrder(window: seq<string>, tokens: seq<string>)
    requires Occurs(tokens, window) && Words(window) == window
    ensures Occurs(Words(tokens), window)
  {
    var k :| 0 <= k <= |tokens| && At(tokens, window, k);
    var before, behind := tokens[..k], tokens[k + |window|..];
    SplitAt(tokens, window, k);
    WordsConcat(before + window, behind);
    WordsConcat(before, window);
    hide Words, Occurs, At;
    OccursWithin(Words(before), window, Words(behind));
  }

  /** A window may straddle two documents and stand in neither. */
  lemma WindowsStraddle(a: seq<string>, b: seq<string>)
    requires a != [] && b != []
    ensures Occurs(Tokens([a, b]), a + b) && !Occurs(a, a + b) && !Occurs(b, a + b)
  {
    assert [a, b][1..] == [b];
    assert Tokens([b]) == b by { assert b + [] == b; }
    assert Tokens([a, b]) == a + b;
    assert At(a + b, a + b, 0);
  }

  /** A document without words between them keeps the two apart. */
  lemma EmptyDocumentSeparates(a: seq<string>, b: seq<string>)
    requires Worded(a) && Worded(b) && a != [] && b != []
    ensures !Occurs(Tokens([a, [], b]), a + b)
  {
    var apart := a + ([""] + b);
    TokensApart(a, b);
    hide At, Tokens, Worded;
    forall k | 0 <= k <= |apart| ensures !At(apart, a + b, k) { Separated(a, b, k); }
  }

  lemma TokensApart(a: seq<string>, b: seq<string>)
    requires a != [] && b != []
    ensures Tokens([a, [], b]) == a + ([""] + b)
  {
    assert [a, [], b][1..] == [[], b] && [[], b][1..] == [b];
    assert Tokens([b]) == b by { assert b + [] == b; }
    assert Tokens([[], b]) == [""] + b;
  }

  lemma Separated(a: seq<string>, b: seq<string>, k: nat)
    requires Worded(a) && Worded(b) && a != [] && b != []
    ensures !At(a + ([""] + b), a + b, k)
  {
    var apart, window := a + ([""] + b), a + b;
    if k <= 1 {
      assert apart[k..k + |window|][|a| - k] == apart[|a|] == "";
      assert window[|a| - k] == if k == 0 then b[0] else a[|a| - 1];
      assert IsWord(b[0]) && IsWord(a[|a| - 1]);
    }
  }
}
