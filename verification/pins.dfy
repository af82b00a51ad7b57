/** The pin beside a declaration, and the two files a refresh keeps: `pin.json` and `extract.json` (`pin.py`). */
module Pins {
  import opened Wrappers
  import opened JsonTree
  import Routes

  datatype SpecSource = SpecSource(url: string, tag: string)

  type Route = Routes.Route

  datatype Declaration = Declaration(vendored: bool, sources: seq<SpecSource>, webhooks: seq<string>,
      stubsAccepted: set<string>)

  // One row of the extract's `x-vendorfake.sources`; the pin's rows carry no label.
  datatype SourceRow = SourceRow(url: string, tag: string, sha256: string, bytes: nat, version: string, fetched: string)

  datatype PinnedSource = PinnedSource(url: string, sha256: string, bytes: nat, version: string, fetched: string)

  // What the digest of the cut covers: all of the extract but `info`, the source rows and the stripped-key ledger.
  datatype Covered = Covered(cut: Json, stubbed: set<string>, hooks: set<string>)

  datatype Content = Content(covered: Covered, uncovered: Json)

  datatype Document = Document(sources: seq<SourceRow>, content: Content)

  /**
   What the two files rest on and this model does not look into: the digest of a text, the cut of the fetched bytes
   (none when it raises), a document's label and version, the one rendering and its reading, the digests of a cut, the
   order of a sorted list, and the prose guard.
   */
  datatype Tools = Tools(
    sha: string -> string,
    cut: (Declaration, seq<string>, seq<Route>) -> Option<Content>,
    tag: (SpecSource, string) -> string,
    version: (SpecSource, string) -> string,
    render: Document -> string,
    parse: string -> Document,
    cutSha: Covered -> string,
    operations: Covered -> map<string, string>,
    sorted: set<string> -> seq<string>,
    leaks: seq<string> -> bool)

  // What a URL answers: its bytes, or nothing when it cannot be fetched.
  type Upstream = string -> Option<string>

  // Some cut gives this.
  ghost predicate Made(tools: Tools, content: Content) {
    exists d, blobs, routes :: tools.cut(d, blobs, routes) == Some(content)
  }

  // What the cutter makes is read back as it was rendered, has a digest, and lists the declared webhooks.
  ghost predicate Lawful(tools: Tools) {
    && (forall document: Document :: Made(tools, document.content) ==> tools.parse(tools.render(document)) == document)
    && (forall covered :: tools.cutSha(covered) != "")
    && (forall d, blobs, routes :: tools.cut(d, blobs, routes).Some? ==>
          tools.cut(d, blobs, routes).value.covered.hooks == Names(d.webhooks))
  }

  // No collision among the texts and the cuts that are compared, and of no others.
  ghost predicate TextsApart(tools: Tools, a: string, b: string) {
    tools.sha(a) == tools.sha(b) ==> a == b
  }

  ghost predicate CutsApart(tools: Tools, a: Covered, b: Covered) {
    tools.cutSha(a) == tools.cutSha(b) ==> a == b
  }

  ghost predicate BytesApart(tools: Tools, d: Declaration, up: Upstream, now: Upstream) {
    forall i :: 0 <= i < |d.sources| && now(d.sources[i].url).Some?
      ==> TextsApart(tools, Bytes(up, d.sources[i]), Bytes(now, d.sources[i]))
  }

  function Names(names: seq<string>): set<string> {
    set name | name in names
  }

  // ----- `pin.json`

  datatype Pin = Pin(sources: seq<PinnedSource>, extractSha: string, modeled: seq<string>, cutSha: string,
                     operations: map<string, string>, webhooks: seq<string>)

  // The file: what is empty is left out of it.
  datatype PinFile = PinFile(schema: int, sources: seq<PinnedSource>, extractSha: string, modeled: Option<seq<string>>,
                             cutSha: Option<string>, operations: Option<map<string, string>>,
                             webhooks: Option<seq<string>>)

  const PIN_SCHEMA := 1

  function ToJson(pin: Pin): PinFile {
    PinFile(PIN_SCHEMA, pin.sources, pin.extractSha,
            if pin.modeled != [] then Some(pin.modeled) else None,
            if pin.cutSha != "" then Some(pin.cutSha) else None,
            if pin.cutSha != "" then Some(pin.operations) else None,
            if pin.webhooks != [] then Some(pin.webhooks) else None)
  }

  /** `Pin.of`: another schema number is refused. */
  function ReadPin(file: PinFile): Option<Pin> {
    if file.schema != PIN_SCHEMA then None
    else Some(Pin(file.sources, file.extractSha,
                  if file.modeled.Some? then file.modeled.value else [],
                  if file.cutSha.Some? then file.cutSha.value else "",
                  if file.operations.Some? then file.operations.value else map[],
                  if file.webhooks.Some? then file.webhooks.value else []))
  }

  /** A pin reads back as it was, exactly when it records no operations without a cut digest. */
  lemma PinReadsBack(pin: Pin)
    ensures ReadPin(ToJson(pin)) == Some(pin) <==> (pin.cutSha == "" ==> pin.operations == map[])
  {
  }

  function Upper(c: char): char {
    if 'a' <= c <= 'z' then c - 'a' + 'A' else c
  }

  function UpperCased(s: string): string {
    seq(|s|, i requires 0 <= i < |s| => Upper(s[i]))
  }

  /** `route_key` */
  function RouteKey(route: Route): string {
    UpperCased(route.verb) + " " + route.specPath
  }

  function RouteKeys(routes: seq<Route>): seq<string> {
    seq(|routes|, i requires 0 <= i < |routes| => RouteKey(routes[i]))
  }

  // The cut reads a method in upper case, however it is spelled.
  function Spelled(routes: seq<Route>): seq<Route> {
    seq(|routes|, i requires 0 <= i < |routes| => Routes.Route(UpperCased(routes[i].verb), routes[i].specPath))
  }

  function PinnedRow(row: SourceRow): PinnedSource {
    PinnedSource(row.url, row.sha256, row.bytes, row.version, row.fetched)
  }

  function PinnedRows(rows: seq<SourceRow>): seq<PinnedSource> {
    seq(|rows|, i requires 0 <= i < |rows| => PinnedRow(rows[i]))
  }

  /** `Pin.from_extract` */
  function FromExtract(tools: Tools, document: Document, text: string, modeled: seq<Route>): Pin {
    var covered := document.content.covered;
    if modeled == [] then Pin(PinnedRows(document.sources), tools.sha(text), [], "", map[], [])
    else Pin(PinnedRows(document.sources), tools.sha(text), RouteKeys(modeled), tools.cutSha(covered),
             tools.operations(covered), tools.sorted(covered.hooks))
  }

  /** `Pin.source`: the first row with the URL. */
  function SourceOf(sources: seq<PinnedSource>, url: string): Option<PinnedSource> {
    if sources == [] then None
    else if sources[0].url == url then Some(sources[0])
    else SourceOf(sources[1..], url)
  }

  function Pinned(pin: Option<Pin>, url: string): Option<PinnedSource> {
    if pin.Some? then SourceOf(pin.value.sources, url) else None
  }

  // ----- one refresh

  ghost predicate Fetched(up: Upstream, sources: seq<SpecSource>) {
    forall i :: 0 <= i < |sources| ==> up(sources[i].url).Some?
  }

  function Bytes(up: Upstream, source: SpecSource): string {
    if up(source.url).Some? then up(source.url).value else ""
  }

  function Blobs(up: Upstream, sources: seq<SpecSource>): seq<string> {
    seq(|sources|, i requires 0 <= i < |sources| => Bytes(up, sources[i]))
  }

  function RowOf(tools: Tools, source: SpecSource, data: string, fetched: string): SourceRow {
    SourceRow(source.url, tools.tag(source, data), tools.sha(data), |data|, tools.version(source, data), fetched)
  }

  function Rows(tools: Tools, up: Upstream, sources: seq<SpecSource>, fetched: string): seq<SourceRow> {
    seq(|sources|, i requires 0 <= i < |sources| => RowOf(tools, sources[i], Bytes(up, sources[i]), fetched))
  }

  predicate Unmoved(row: SourceRow, pin: Option<Pin>) {
    Pinned(pin, row.url).Some? && Pinned(pin, row.url).value.sha256 == row.sha256
  }

  // A row whose bytes are the pinned ones keeps the date they were first obtained.
  function Stamped(row: SourceRow, pin: Option<Pin>): SourceRow {
    if Unmoved(row, pin) then row.(fetched := Pinned(pin, row.url).value.fetched) else row
  }

  function StampedRows(rows: seq<SourceRow>, pin: Option<Pin>): seq<SourceRow> {
    seq(|rows|, i requires 0 <= i < |rows| => Stamped(rows[i], pin))
  }

  function MovedRows(rows: seq<SourceRow>, pin: Option<Pin>): set<string> {
    set i | 0 <= i < |rows| && Pinned(pin, rows[i].url).Some? && !Unmoved(rows[i], pin) :: rows[i].url
  }

  predicate SomeNew(rows: seq<SourceRow>, pin: Option<Pin>) {
    exists i :: 0 <= i < |rows| && Pinned(pin, rows[i].url).None?
  }

  function Urls(sources: seq<SpecSource>): set<string> {
    set i | 0 <= i < |sources| :: sources[i].url
  }

  function PinnedUrls(sources: seq<PinnedSource>): set<string> {
    set i | 0 <= i < |sources| :: sources[i].url
  }

  predicate SomeGone(pin: Option<Pin>, sources: seq<SpecSource>) {
    pin.Some? && !(PinnedUrls(pin.value.sources) <= Urls(sources))
  }

  datatype Files = Files(pin: Option<PinFile>, extract: Option<string>)

  datatype Outcome = Outcome(changedUpstream: bool, changedExtract: bool, moved: set<string>, failures: set<string>)
  {
    predicate Changed() {
      changedUpstream || changedExtract
    }
  }

  datatype Trouble = PinUnreadable | CutRaised

  /** `_pinned_cut` */
  function PinnedCut(tools: Tools, pin: Option<Pin>, text: Option<string>, vendored: bool): Option<string> {
    if pin.None? then None
    else if !vendored then (if pin.value.cutSha != "" then Some(pin.value.cutSha) else None)
    else if text.None? || tools.sha(text.value) != pin.value.extractSha then None
    else Some(tools.cutSha(tools.parse(text.value).content.covered))
  }

  function Failed(up: Upstream, sources: seq<SpecSource>): set<string> {
    set i | 0 <= i < |sources| && up(sources[i].url).None? :: sources[i].url
  }

  // What a refresh that could not fetch everything says of the sources it did fetch.
  predicate UnfetchedChanged(tools: Tools, up: Upstream, sources: seq<SpecSource>, pin: Option<Pin>) {
    || SomeGone(pin, sources)
    || exists i :: && 0 <= i < |sources| && up(sources[i].url).Some?
                   && !Unmoved(RowOf(tools, sources[i], Bytes(up, sources[i]), ""), pin)
  }

  // The document a refresh cuts, its rows stamped, and the pin it would write.
  function Cut(tools: Tools, d: Declaration, content: Content, up: Upstream, pin: Option<Pin>,
               fetched: string): Document {
    Document(StampedRows(Rows(tools, up, d.sources, fetched), pin), content)
  }

  function NewPin(tools: Tools, d: Declaration, modeled: seq<Route>, document: Document): Pin {
    FromExtract(tools, document, tools.render(document), if d.vendored then [] else modeled)
  }

  predicate PinsAgree(a: Pin, b: Pin) {
    a.sources == b.sources && a.extractSha == b.extractSha && a.modeled == b.modeled && a.webhooks == b.webhooks
  }

  // What a refresh reports of a document it cut.
  function Judged(tools: Tools, d: Declaration, modeled: seq<Route>, up: Upstream, pin: Option<Pin>,
                  text: Option<string>,
                  document: Document): Outcome
  {
    var moved := MovedRows(document.sources, pin);
    var cutMoved := PinnedCut(tools, pin, text, d.vendored) != Some(tools.cutSha(document.content.covered));
    var upstream := SomeNew(document.sources, pin) || SomeGone(pin, d.sources) || (cutMoved && moved != {});
    var tampered := d.vendored && pin.Some? && text.Some? && tools.sha(text.value) != pin.value.extractSha;
    var edited := pin.Some? && !tampered && !upstream && !cutMoved && moved == {}
                  && !PinsAgree(pin.value, NewPin(tools, d, modeled, document));
    Outcome(upstream || edited, cutMoved || tampered, if cutMoved then {} else moved, {})
  }

  function OldPin(files: Files): Result<Option<Pin>, Trouble> {
    if files.pin.None? then Ok(None)
    else if ReadPin(files.pin.value).None? then Err(PinUnreadable)
    else Ok(ReadPin(files.pin.value))
  }

  /** `refresh`: what it reports, and the files it leaves. */
  function Refreshed(tools: Tools, d: Declaration, modeled: seq<Route>, up: Upstream, check: bool, fetched: string,
                     files: Files):
    (Files, Result<Outcome, Trouble>)
  {
    var was := OldPin(files);
    if was.Err? then (files, Err(was.error))
    else if Failed(up, d.sources) != {} then
      (files, Ok(Outcome(UnfetchedChanged(tools, up, d.sources, was.value), false, {}, Failed(up, d.sources))))
    else
      match tools.cut(d, Blobs(up, d.sources), Spelled(modeled))
      case None => (files, Err(CutRaised))
      case Some(content) =>
        var document := Cut(tools, d, content, up, was.value, fetched);
        var outcome := Judged(tools, d, modeled, up, was.value, files.extract, document);
        if !check && (outcome.Changed() || outcome.moved != {})
        then (Files(Some(ToJson(NewPin(tools, d, modeled, document))), Some(tools.render(document))), Ok(outcome))
        else (files, Ok(outcome))
  }

  predicate Wrote(before: Files, after: (Files, Result<Outcome, Trouble>), check: bool) {
    !check && after.1.Ok? && after.1.value.failures == {} && (after.1.value.Changed() || after.1.value.moved != {})
  }

  /** Check mode, a source that failed, or any error leaves both files as they were. */
  lemma UntouchedUnlessWritten(tools: Tools, d: Declaration, modeled: seq<Route>, up: Upstream, check: bool,
                               fetched: string, files: Files)
    ensures var after := Refreshed(tools, d, modeled, up, check, fetched, files);
            after.0 != files ==> !check && Fetched(up, d.sources) && after.1.Ok? && Wrote(files, after, check)
  {
    if Failed(up, d.sources) == {} {
      forall i | 0 <= i < |d.sources| ensures up(d.sources[i].url).Some? { NoneFailed(up, d.sources, i); }
    }
  }

  lemma NoneFailed(up: Upstream, sources: seq<SpecSource>, i: nat)
    requires Failed(up, sources) == {} && i < |sources|
    ensures up(sources[i].url).Some?
  {
    assert sources[i].url !in Failed(up, sources);
  }

  // ----- the rows of a second refresh

  lemma {:induction false} SourceOfPinned(rows: seq<SourceRow>, url: string)
    ensures SourceOf(PinnedRows(rows), url).Some? <==> exists i :: 0 <= i < |rows| && rows[i].url == url
    ensures var found := SourceOf(PinnedRows(rows), url);
            found.Some? ==> exists i :: 0 <= i < |rows| && rows[i].url == url && found.value == PinnedRow(rows[i])
  {
    if rows != [] {
      assert PinnedRows(rows)[1..] == PinnedRows(rows[1..]);
      SourceOfPinned(rows[1..], url);
      assert forall i :: 1 <= i < |rows| ==> rows[i] == rows[1..][i - 1];
    }
  }

  // The row a refresh of `before` left at a URL, whatever its place.
  lemma PinnedAfter(tools: Tools, d: Declaration, up: Upstream, pin: Option<Pin>, fetched: string, next: Pin, i: nat)
    requires i < |d.sources|
    requires next.sources == PinnedRows(StampedRows(Rows(tools, up, d.sources, fetched), pin))
    ensures var found := Pinned(Some(next), d.sources[i].url);
            && found.Some? && found.value.sha256 == tools.sha(Bytes(up, d.sources[i]))
            && found.value.fetched == StampedRows(Rows(tools, up, d.sources, fetched), pin)[i].fetched
  {
    var rows := StampedRows(Rows(tools, up, d.sources, fetched), pin);
    assert rows[i].url == d.sources[i].url;
    SourceOfPinned(rows, d.sources[i].url);
    hide SourceOf;
    var found := Pinned(Some(next), d.sources[i].url).value;
    var j :| 0 <= j < |rows| && rows[j].url == d.sources[i].url && found == PinnedRow(rows[j]);
    assert rows[j] == Stamped(RowOf(tools, d.sources[j], Bytes(up, d.sources[j]), fetched), pin);
    assert d.sources[j].url == d.sources[i].url;
  }

  /** Rows once pinned are cut again as they were, whatever the date. */
  lemma RowsSettle(tools: Tools, d: Declaration, up: Upstream, pin: Option<Pin>, fetched: string, next: Pin,
                   later: string)
    requires next.sources == PinnedRows(StampedRows(Rows(tools, up, d.sources, fetched), pin))
    ensures StampedRows(Rows(tools, up, d.sources, later), Some(next))
        == StampedRows(Rows(tools, up, d.sources, fetched), pin)
    ensures MovedRows(StampedRows(Rows(tools, up, d.sources, later), Some(next)), Some(next)) == {}
    ensures !SomeNew(StampedRows(Rows(tools, up, d.sources, later), Some(next)), Some(next))
    ensures !SomeGone(Some(next), d.sources) && Urls(d.sources) == PinnedUrls(next.sources)
  {
    var rows := StampedRows(Rows(tools, up, d.sources, later), Some(next));
    forall i | 0 <= i < |rows|
      ensures rows[i] == StampedRows(Rows(tools, up, d.sources, fetched), pin)[i]
      ensures Unmoved(rows[i], Some(next))
    {
      PinnedAfter(tools, d, up, pin, fetched, next, i);
      hide Pinned;
    }
    PinnedUrlsAre(tools, d, up, pin, fetched, next);
  }

  lemma PinnedUrlsAre(tools: Tools, d: Declaration, up: Upstream, pin: Option<Pin>, fetched: string, next: Pin)
    requires next.sources == PinnedRows(StampedRows(Rows(tools, up, d.sources, fetched), pin))
    ensures Urls(d.sources) == PinnedUrls(next.sources)
  {
    hide Pinned;
    assert |next.sources| == |d.sources| && forall i :: 0 <= i < |d.sources| ==>
        next.sources[i].url == d.sources[i].url;
    forall url ensures url in Urls(d.sources) <==> url in PinnedUrls(next.sources) {
      if url in Urls(d.sources) {
        var i :| 0 <= i < |d.sources| && d.sources[i].url == url;
        assert next.sources[i].url == url;
      }
    }
  }
}
