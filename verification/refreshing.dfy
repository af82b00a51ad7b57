/** What holds across refreshes of one declaration (`refresh`, `verify`): fixed point, exactness, offline acceptance. */
module Refreshing {
  import opened Wrappers
  import opened Pins

  // The pin and the document that a refresh which wrote has left in the files.
  ghost predicate Left(tools: Tools, d: Declaration, modeled: seq<Route>, up: Upstream, files: Files, pin: Pin,
                       document: Document) {
    && Failed(up, d.sources) == {}
    && tools.cut(d, Blobs(up, d.sources), Spelled(modeled)) == Some(document.content)
    && (exists before, fetched :: document == Cut(tools, d, document.content, up, before, fetched))
    && pin == NewPin(tools, d, modeled, document)
    && files == Files(Some(ToJson(pin)), Some(tools.render(document)))
  }

  lemma WroteLeaves(tools: Tools, d: Declaration, modeled: seq<Route>, up: Upstream, fetched: string, files: Files)
    returns (pin: Pin, document: Document)
    requires Wrote(files, Refreshed(tools, d, modeled, up, false, fetched, files), false)
    ensures Left(tools, d, modeled, up, Refreshed(tools, d, modeled, up, false, fetched, files).0, pin, document)
  {
    hide Judged, Cut, NewPin, UnfetchedChanged;
    var before := OldPin(files).value;
    document := Cut(tools, d, tools.cut(d, Blobs(up, d.sources), Spelled(modeled)).value, up, before, fetched);
    pin := NewPin(tools, d, modeled, document);
    CutContent(tools, d, up, before, fetched, tools.cut(d, Blobs(up, d.sources), Spelled(modeled)).value);
  }

  lemma CutContent(tools: Tools, d: Declaration, up: Upstream, pin: Option<Pin>, fetched: string, content: Content)
    ensures Cut(tools, d, content, up, pin, fetched).content == content
  {
  }

  lemma LeftReadsBack(tools: Tools, d: Declaration, modeled: seq<Route>, up: Upstream, files: Files, pin: Pin,
                      document: Document)
    requires Left(tools, d, modeled, up, files, pin, document) && Lawful(tools)
    ensures OldPin(files) == Ok(Some(pin)) && pin.extractSha == tools.sha(tools.render(document))
    ensures pin.sources == PinnedRows(document.sources) && tools.parse(tools.render(document)) == document
    ensures pin.cutSha == (if d.vendored || modeled == [] then "" else tools.cutSha(document.content.covered))
  {
    PinReadsBack(pin);
    assert Made(tools, document.content);
  }

  // A later cut of the same bytes is the same document, nothing moved, new or gone.
  lemma SameDocument(tools: Tools, d: Declaration, modeled: seq<Route>, up: Upstream, files: Files, pin: Pin,
                     document: Document, later: string)
    requires Left(tools, d, modeled, up, files, pin, document) && Lawful(tools)
    ensures Cut(tools, d, document.content, up, Some(pin), later) == document
    ensures MovedRows(document.sources, Some(pin)) == {} && !SomeNew(document.sources, Some(pin))
        && !SomeGone(Some(pin), d.sources)
    ensures Urls(d.sources) == PinnedUrls(pin.sources)
  {
    var before, fetched :| document == Cut(tools, d, document.content, up, before, fetched);
    LeftReadsBack(tools, d, modeled, up, files, pin, document);
    hide Left, Lawful, NewPin, MovedRows, SomeNew, SomeGone, Urls, PinnedUrls, StampedRows, PinnedRows, Rows;
    RowsSettle(tools, d, up, before, fetched, pin, later);
  }

  lemma PinnedCutOf(tools: Tools, d: Declaration, modeled: seq<Route>, up: Upstream, files: Files, pin: Pin,
                    document: Document)
    requires Left(tools, d, modeled, up, files, pin, document) && Lawful(tools)
    ensures PinnedCut(tools, Some(pin), files.extract, d.vendored)
         == if !d.vendored && modeled == [] then None else Some(tools.cutSha(document.content.covered))
  {
    LeftReadsBack(tools, d, modeled, up, files, pin, document);
    hide NewPin, Cut;
  }

  /**
   Fixed point: after a refresh that wrote, a refresh of the same bytes on any date reports no change and writes
   nothing, exactly unless the extract is not vendored and nothing is modeled; then every refresh reports one.
   */
  lemma RefreshSettlesExactlyWhen(tools: Tools, d: Declaration, modeled: seq<Route>, up: Upstream, fetched: string,
                                  files: Files,
                                  check: bool, later: string)
    requires Lawful(tools) && Wrote(files, Refreshed(tools, d, modeled, up, false, fetched, files), false)
    ensures var after := Refreshed(tools, d, modeled, up, false, fetched, files).0;
            var again := Refreshed(tools, d, modeled, up, check, later, after);
            if d.vendored || modeled != [] then again == (after, Ok(Outcome(false, false, {}, {})))
            else again.1 == Ok(Outcome(false, true, {}, {}))
  {
    hide Refreshed, Left;
    var pin, document := WroteLeaves(tools, d, modeled, up, fetched, files);
    var after := Refreshed(tools, d, modeled, up, false, fetched, files).0;
    LeftSettles(tools, d, modeled, up, after, pin, document, check, later);
  }

  lemma LeftSettles(tools: Tools, d: Declaration, modeled: seq<Route>, up: Upstream, files: Files, pin: Pin,
                    document: Document,
                    check: bool, later: string)
    requires Lawful(tools) && Left(tools, d, modeled, up, files, pin, document)
    ensures var again := Refreshed(tools, d, modeled, up, check, later, files);
            if d.vendored || modeled != [] then again == (files, Ok(Outcome(false, false, {}, {})))
            else again.1 == Ok(Outcome(false, true, {}, {}))
  {
    LeftReadsBack(tools, d, modeled, up, files, pin, document);
    SameDocument(tools, d, modeled, up, files, pin, document, later);
    PinnedCutOf(tools, d, modeled, up, files, pin, document);
    hide Lawful, Cut, NewPin, PinnedCut, UnfetchedChanged, MovedRows, SomeNew, SomeGone, OldPin, ToJson, Failed;
  }

  // The declared URLs that now answer other bytes.
  function Differing(d: Declaration, up: Upstream, now: Upstream): set<string> {
    set i | 0 <= i < |d.sources| && Bytes(now, d.sources[i]) != Bytes(up, d.sources[i]) :: d.sources[i].url
  }

  /**
   Exactness, against other bytes: the extract changed exactly when what its digest covers did; bytes that moved under
   an unchanged cut are a chore and not a change.
   */
  lemma RefreshReportsExactly(tools: Tools, d: Declaration, modeled: seq<Route>, up: Upstream, files: Files, pin: Pin,
                              document: Document,
                              now: Upstream, content: Content, check: bool, later: string)
    requires Lawful(tools) && Left(tools, d, modeled, up, files, pin, document)
    requires BytesApart(tools, d, up, now) && CutsApart(tools, document.content.covered, content.covered)
    requires Failed(now, d.sources) == {} && tools.cut(d, Blobs(now, d.sources), Spelled(modeled)) == Some(content)
    requires d.vendored || modeled != []
    ensures var moved := Differing(d, up, now);
            var cutMoved := content.covered != document.content.covered;
            Refreshed(tools, d, modeled, now, check, later, files).1
            == Ok(Outcome(cutMoved && moved != {}, cutMoved, if cutMoved then {} else moved, {}))
  {
    var moved := Differing(d, up, now);
    var next := Cut(tools, d, content, now, Some(pin), later);
    assert content == next.content;
    LeftReadsBack(tools, d, modeled, up, files, pin, document);
    PinnedCutOf(tools, d, modeled, up, files, pin, document);
    MovedAre(tools, d, modeled, up, files, pin, document, now, content, later);
    if moved == {} {
      SameBytes(d, up, now);
      assert content == document.content;
      SameDocument(tools, d, modeled, up, files, pin, document, later);
      SameRows(tools, d, up, now, Some(pin), later, content);
    }
    hide Lawful, Left, Cut, NewPin, PinnedCut, UnfetchedChanged, MovedRows, SomeNew, SomeGone, OldPin, ToJson, Failed;
    assert tools.cutSha(content.covered) == tools.cutSha(document.content.covered)
        <==> content.covered == document.content.covered;
  }

  lemma SameBytes(d: Declaration, up: Upstream, now: Upstream)
    requires Differing(d, up, now) == {}
    ensures Blobs(now, d.sources) == Blobs(up, d.sources)
  {
    forall i | 0 <= i < |d.sources| ensures Bytes(now, d.sources[i]) == Bytes(up, d.sources[i]) {
      assert d.sources[i].url !in Differing(d, up, now);
    }
  }

  lemma SameRows(tools: Tools, d: Declaration, up: Upstream, now: Upstream, pin: Option<Pin>, fetched: string,
                 content: Content)
    requires Blobs(now, d.sources) == Blobs(up, d.sources)
    ensures Cut(tools, d, content, now, pin, fetched) == Cut(tools, d, content, up, pin, fetched)
  {
    hide Stamped;
    forall i | 0 <= i < |d.sources| ensures Bytes(now, d.sources[i]) == Bytes(up, d.sources[i]) {
      assert Blobs(now, d.sources)[i] == Blobs(up, d.sources)[i];
    }
    assert Rows(tools, now, d.sources, fetched) == Rows(tools, up, d.sources, fetched);
  }

  // Against the pin it left, the rows that moved are those of other bytes, and none is new or gone.
  lemma MovedAre(tools: Tools, d: Declaration, modeled: seq<Route>, up: Upstream, files: Files, pin: Pin,
                 document: Document,
                 now: Upstream, content: Content, later: string)
    requires Lawful(tools) && Left(tools, d, modeled, up, files, pin, document)
    requires BytesApart(tools, d, up, now) && Failed(now, d.sources) == {}
    ensures var rows := Cut(tools, d, content, now, Some(pin), later).sources;
            && MovedRows(rows, Some(pin)) == Differing(d, up, now)
            && !SomeNew(rows, Some(pin)) && !SomeGone(Some(pin), d.sources)
  {
    var before, fetched :| document == Cut(tools, d, document.content, up, before, fetched);
    LeftReadsBack(tools, d, modeled, up, files, pin, document);
    SameDocument(tools, d, modeled, up, files, pin, document, later);
    hide Left, Lawful, NewPin, SomeGone;
    var rows := Cut(tools, d, content, now, Some(pin), later).sources;
    forall i | 0 <= i < |d.sources|
      ensures rows[i].url == d.sources[i].url && Pinned(Some(pin), rows[i].url).Some?
      ensures Unmoved(rows[i], Some(pin)) <==> Bytes(now, d.sources[i]) == Bytes(up, d.sources[i])
    {
      PinnedAfter(tools, d, up, before, fetched, pin, i);
      NoneFailed(now, d.sources, i);
      hide Pinned;
    }
    hide Pinned, Cut, Rows, StampedRows, Unmoved;
    assert |rows| == |d.sources| by { CutLength(tools, d, content, now, Some(pin), later); }
  }

  lemma CutLength(tools: Tools, d: Declaration, content: Content, up: Upstream, pin: Option<Pin>, fetched: string)
    ensures |Cut(tools, d, content, up, pin, fetched).sources| == |d.sources|
  {
  }

  /**
   When a source cannot be fetched, nothing is written, and what is reported of the others is whether their bytes
   moved.
   */
  lemma UnfetchedReportsExactly(tools: Tools, d: Declaration, modeled: seq<Route>, up: Upstream, files: Files,
                                pin: Pin, document: Document,
                                now: Upstream, check: bool, later: string)
    requires Lawful(tools) && BytesApart(tools, d, up, now) && Left(tools, d, modeled, up, files, pin, document)
    requires Failed(now, d.sources) != {}
    ensures var moved := exists i :: && 0 <= i < |d.sources| && now(d.sources[i].url).Some?
                                     && Bytes(now, d.sources[i]) != Bytes(up, d.sources[i]);
            Refreshed(tools, d, modeled, now, check, later, files)
            == (files, Ok(Outcome(moved, false, {}, Failed(now, d.sources))))
  {
    var before, fetched :| document == Cut(tools, d, document.content, up, before, fetched);
    LeftReadsBack(tools, d, modeled, up, files, pin, document);
    SameDocument(tools, d, modeled, up, files, pin, document, later);
    hide Left, Lawful, NewPin, SomeGone, OldPin, Failed;
    forall i | 0 <= i < |d.sources| && now(d.sources[i].url).Some?
      ensures Unmoved(RowOf(tools, d.sources[i], Bytes(now, d.sources[i]), ""), Some(pin))
         <==> Bytes(now, d.sources[i]) == Bytes(up, d.sources[i])
    {
      PinnedAfter(tools, d, up, before, fetched, pin, i);
      hide Pinned;
    }
    hide Unmoved, RowOf, Bytes, Cut, BytesApart;
  }

  // ----- offline

  // What the rows of an extract say of the URLs a pin also has.
  function MovedUrls(rows: seq<SourceRow>, pin: Pin): set<string> {
    set i | 0 <= i < |rows| && LastSha(pin.sources, rows[i].url).Some?
            && LastSha(pin.sources, rows[i].url) != LastSha(PinnedRows(rows), rows[i].url) :: rows[i].url
  }

  // `{row.url: row.sha256 for row in rows}.get(url)`: the last row with the URL.
  function LastSha(rows: seq<PinnedSource>, url: string): Option<string> {
    if rows == [] then None
    else if rows[|rows| - 1].url == url then Some(rows[|rows| - 1].sha256)
    else LastSha(rows[..|rows| - 1], url)
  }

  /** `verify`: is what is committed (or cached) consistent with itself? */
  function Verified(tools: Tools, d: Declaration, files: Files): Result<Outcome, Trouble> {
    if files.pin.None? then Ok(Outcome(true, true, {}, {}))
    else if files.extract.None? then Ok(Outcome(true, d.vendored, {}, {}))
    else if ReadPin(files.pin.value).None? then Err(PinUnreadable)
    else
      var pin, text := ReadPin(files.pin.value).value, files.extract.value;
      var document := tools.parse(text);
      var covered := document.content.covered;
      var byCut := tools.sha(text) != pin.extractSha && !d.vendored && pin.cutSha != "";
      var moved := if byCut then MovedUrls(document.sources, pin) else {};
      var cutMoved := byCut && tools.cutSha(covered) != pin.cutSha;
      var edited := !byCut && (tools.sha(text) != pin.extractSha || PinnedRows(document.sources) != pin.sources);
      Ok(Outcome((cutMoved && moved != {}) || Urls(d.sources) != PinnedUrls(pin.sources),
                 cutMoved || edited || !(covered.stubbed <= d.stubsAccepted) || covered.hooks != Names(d.webhooks),
                 if cutMoved then {} else moved, {}))
  }

  /** After a refresh that wrote, offline verification accepts exactly when every stub is accepted. */
  lemma VerifyAcceptsExactlyWhen(tools: Tools, d: Declaration, modeled: seq<Route>, up: Upstream, fetched: string,
                                 files: Files)
    requires Lawful(tools) && Wrote(files, Refreshed(tools, d, modeled, up, false, fetched, files), false)
    ensures var after := Refreshed(tools, d, modeled, up, false, fetched, files).0;
            var stubbed := tools.cut(d, Blobs(up, d.sources), Spelled(modeled)).value.covered.stubbed;
            Verified(tools, d, after) == Ok(Outcome(false, !(stubbed <= d.stubsAccepted), {}, {}))
  {
    hide Refreshed, Left;
    var pin, document := WroteLeaves(tools, d, modeled, up, fetched, files);
    LeftVerifies(tools, d, modeled, up, Refreshed(tools, d, modeled, up, false, fetched, files).0, pin, document);
  }

  lemma LeftVerifies(tools: Tools, d: Declaration, modeled: seq<Route>, up: Upstream, files: Files, pin: Pin,
                     document: Document)
    requires Lawful(tools) && Left(tools, d, modeled, up, files, pin, document)
    ensures tools.cut(d, Blobs(up, d.sources), Spelled(modeled)) == Some(document.content)
    ensures Verified(tools, d, files)
        == Ok(Outcome(false, !(document.content.covered.stubbed <= d.stubsAccepted), {}, {}))
  {
    LeftReadsBack(tools, d, modeled, up, files, pin, document);
    SameDocument(tools, d, modeled, up, files, pin, document, "");
    hide Cut, NewPin, Urls, PinnedUrls, PinnedRows, MovedUrls;
  }
}
