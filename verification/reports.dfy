/**
 What a refresh, an offline verification and a cache say and write, whatever the files hold: told by the pin, the
 declaration, the bytes and the text, apart from the steps that find it out.
 */
module Reports {
  import opened Wrappers
  import opened Pins
  import opened Refreshing
  import opened Caches
  import Routes

  // ----- the rows of a pin

  // The first row of the pin with the URL.
  ghost predicate FirstRow(sources: seq<PinnedSource>, url: string, i: nat) {
    i < |sources| && sources[i].url == url && forall j :: 0 <= j < i ==> sources[j].url != url
  }

  ghost predicate LastRow(sources: seq<PinnedSource>, url: string, i: nat) {
    i < |sources| && sources[i].url == url && forall j :: i < j < |sources| ==> sources[j].url != url
  }

  ghost predicate Recorded(pin: Option<Pin>, url: string) {
    pin.Some? && exists i :: 0 <= i < |pin.value.sources| && pin.value.sources[i].url == url
  }

  // The pin has the URL, with this digest in the row that counts.
  ghost predicate RecordedAs(pin: Option<Pin>, url: string, sha: string) {
    pin.Some? && exists i: nat :: FirstRow(pin.value.sources, url, i) && pin.value.sources[i].sha256 == sha
  }

  lemma {:induction false} SourceOfFirst(sources: seq<PinnedSource>, url: string) returns (i: nat)
    ensures var found := SourceOf(sources, url);
            && (found.Some? ==> FirstRow(sources, url, i) && found.value == sources[i])
            && (found.None? ==> forall j :: 0 <= j < |sources| ==> sources[j].url != url)
  {
    i := 0;
    if sources != [] && sources[0].url != url {
      var rest := SourceOfFirst(sources[1..], url);
      assert forall j :: 0 < j < |sources| ==> sources[j] == sources[1..][j - 1];
      i := rest + 1;
    }
  }

  lemma PinnedRecorded(pin: Option<Pin>, url: string)
    ensures Pinned(pin, url).Some? <==> Recorded(pin, url)
    ensures forall sha :: RecordedAs(pin, url, sha) <==> Pinned(pin, url).Some? && Pinned(pin, url).value.sha256 == sha
  {
    if pin.Some? {
      var i := SourceOfFirst(pin.value.sources, url);
      forall sha
        ensures RecordedAs(pin, url, sha) <==> Pinned(pin, url).Some? && Pinned(pin, url).value.sha256 == sha
      {
        if RecordedAs(pin, url, sha) {
          var j: nat :| FirstRow(pin.value.sources, url, j) && pin.value.sources[j].sha256 == sha;
          assert i == j;
        }
      }
    }
  }

  // ----- what a refresh reports

  // The declared URLs that the pin has with other bytes.
  ghost function Moved(tools: Tools, d: Declaration, up: Upstream, pin: Option<Pin>): set<string> {
    set i | 0 <= i < |d.sources| && Recorded(pin, d.sources[i].url)
            && !RecordedAs(pin, d.sources[i].url, tools.sha(Bytes(up, d.sources[i]))) :: d.sources[i].url
  }

  ghost predicate Added(d: Declaration, pin: Option<Pin>) {
    exists i :: 0 <= i < |d.sources| && !Recorded(pin, d.sources[i].url)
  }

  ghost predicate Gone(d: Declaration, pin: Option<Pin>) {
    pin.Some? && exists j :: 0 <= j < |pin.value.sources|
                   && forall i :: 0 <= i < |d.sources| ==> d.sources[i].url != pin.value.sources[j].url
  }

  // The extract is committed, and is not the one that was pinned.
  ghost predicate Tampered(tools: Tools, d: Declaration, pin: Option<Pin>, text: Option<string>) {
    d.vendored && pin.Some? && text.Some? && tools.sha(text.value) != pin.value.extractSha
  }

  // What the pin says of the cut is what this cut comes to: its own digest, or that of the pinned text.
  ghost predicate CutStands(tools: Tools, d: Declaration, pin: Option<Pin>, text: Option<string>, covered: Covered) {
    && pin.Some?
    && if d.vendored then
         && text.Some? && tools.sha(text.value) == pin.value.extractSha
         && tools.cutSha(tools.parse(text.value).content.covered) == tools.cutSha(covered)
       else pin.value.cutSha == tools.cutSha(covered) != ""
  }

  ghost predicate ReportOf(outcome: Outcome, tools: Tools, d: Declaration, modeled: seq<Route>, up: Upstream,
                           pin: Option<Pin>, text: Option<string>, document: Document) {
    var moved := Moved(tools, d, up, pin);
    var stands := CutStands(tools, d, pin, text, document.content.covered);
    var upstream := Added(d, pin) || Gone(d, pin) || (!stands && moved != {});
    var new_ := NewPin(tools, d, modeled, document);
    && outcome.changedExtract == (!stands || Tampered(tools, d, pin, text))
    && outcome.changedUpstream
       == (upstream || (&& pin.Some? && !outcome.changedExtract && moved == {}
                        && !(&& pin.value.sources == new_.sources && pin.value.extractSha == new_.extractSha
                             && pin.value.modeled == new_.modeled && pin.value.webhooks == new_.webhooks)))
    && outcome.moved == (if stands then moved else {}) && outcome.failures == {}
  }

  lemma MovedRowsAre(tools: Tools, d: Declaration, content: Content, up: Upstream, pin: Option<Pin>, fetched: string)
    requires Failed(up, d.sources) == {}
    ensures var rows := Cut(tools, d, content, up, pin, fetched).sources;
            && MovedRows(rows, pin) == Moved(tools, d, up, pin)
            && SomeNew(rows, pin) == Added(d, pin)
  {
    hide Pinned, Recorded, RecordedAs;
    var rows := Cut(tools, d, content, up, pin, fetched).sources;
    forall i | 0 <= i < |d.sources|
      ensures rows[i].url == d.sources[i].url && rows[i].sha256 == tools.sha(Bytes(up, d.sources[i]))
      ensures Pinned(pin, rows[i].url).Some? <==> Recorded(pin, d.sources[i].url)
      ensures Unmoved(rows[i], pin) <==> RecordedAs(pin, d.sources[i].url, tools.sha(Bytes(up, d.sources[i])))
    {
      PinnedRecorded(pin, d.sources[i].url);
    }
    hide Cut, Unmoved, Bytes;
    assert |rows| == |d.sources| by { CutLength(tools, d, content, up, pin, fetched); }
  }

  lemma GoneIs(d: Declaration, pin: Option<Pin>)
    ensures SomeGone(pin, d.sources) <==> Gone(d, pin)
  {
    if pin.Some? {
      var pinned, declared := PinnedUrls(pin.value.sources), Urls(d.sources);
      if !(pinned <= declared) {
        var url :| url in pinned && url !in declared;
        var j :| 0 <= j < |pin.value.sources| && pin.value.sources[j].url == url;
        assert forall i :: 0 <= i < |d.sources| ==> d.sources[i].url in declared;
      }
      if Gone(d, pin) {
        var j :| 0 <= j < |pin.value.sources|
                 && forall i :: 0 <= i < |d.sources| ==> d.sources[i].url != pin.value.sources[j].url;
        assert pin.value.sources[j].url in pinned;
      }
    }
  }

  lemma CutStandsIs(tools: Tools, d: Declaration, pin: Option<Pin>, text: Option<string>, covered: Covered)
    requires tools.cutSha(covered) != ""
    ensures PinnedCut(tools, pin, text, d.vendored) == Some(tools.cutSha(covered))
       <==> CutStands(tools, d, pin, text, covered)
  {
  }

  /** With every source fetched and a cut made: what changed, where, and what moved. */
  lemma RefreshReports(tools: Tools, d: Declaration, modeled: seq<Route>, up: Upstream, check: bool, fetched: string,
                       files: Files, content: Content)
    requires Lawful(tools) && OldPin(files).Ok? && Failed(up, d.sources) == {}
    requires tools.cut(d, Blobs(up, d.sources), Spelled(modeled)) == Some(content)
    ensures var after := Refreshed(tools, d, modeled, up, check, fetched, files);
            var pin := OldPin(files).value;
            && after.1.Ok?
            && ReportOf(after.1.value, tools, d, modeled, up, pin, files.extract,
                Cut(tools, d, content, up, pin, fetched))
  {
    var pin := OldPin(files).value;
    MovedRowsAre(tools, d, content, up, pin, fetched);
    GoneIs(d, pin);
    CutStandsIs(tools, d, pin, files.extract, content.covered);
    CutContent(tools, d, up, pin, fetched, content);
    hide Lawful, Cut, NewPin, PinnedCut, MovedRows, SomeNew, SomeGone, OldPin, ToJson, Failed, CutStands, Moved, Added,
        Gone, UnfetchedChanged;
  }

  /** The other ends of a refresh: a pin of another kind, sources that cannot be fetched, and a cut that raises. */
  lemma RefreshFailures(tools: Tools, d: Declaration, modeled: seq<Route>, up: Upstream, check: bool, fetched: string,
                        files: Files)
    ensures var after := Refreshed(tools, d, modeled, up, check, fetched, files);
            var missed := exists i :: 0 <= i < |d.sources| && up(d.sources[i].url).None?;
            && (after.1 == Err(PinUnreadable) <==> files.pin.Some? && files.pin.value.schema != 1)
            && (after.1.Ok? && after.1.value.failures != {} <==> after.1 != Err(PinUnreadable) && missed)
            && (after.1 == Err(CutRaised) <==>
                  && after.1 != Err(PinUnreadable) && !missed
                  && tools.cut(d, Blobs(up, d.sources), Spelled(modeled)).None?)
            && (after.1.Ok? && after.1.value.failures != {} ==>
                  && (forall url :: url in after.1.value.failures <==>
                        exists i :: 0 <= i < |d.sources| && d.sources[i].url == url && up(url).None?)
                  && after.1.value.moved == {} && !after.1.value.changedExtract
                  && (after.1.value.changedUpstream <==>
                        || Gone(d, OldPin(files).value)
                        || exists i :: 0 <= i < |d.sources| && up(d.sources[i].url).Some?
                             && !RecordedAs(OldPin(files).value, d.sources[i].url,
                                 tools.sha(up(d.sources[i].url).value))))
  {
    FailedAre(up, d.sources);
    var was := OldPin(files);
    if was.Ok? {
      GoneIs(d, was.value);
      UnfetchedIs(tools, d, up, was.value);
    }
    hide Cut, Judged, ToJson, NewPin, Gone, RecordedAs, SomeGone, UnfetchedChanged, Failed;
  }

  lemma FailedAre(up: Upstream, sources: seq<SpecSource>)
    ensures Failed(up, sources) != {} <==> exists i :: 0 <= i < |sources| && up(sources[i].url).None?
    ensures forall url :: url in Failed(up, sources) <==>
              exists i :: 0 <= i < |sources| && sources[i].url == url && up(url).None?
  {
    if i :| 0 <= i < |sources| && up(sources[i].url).None? { assert sources[i].url in Failed(up, sources); }
    if Failed(up, sources) != {} { var url :| url in Failed(up, sources); }
  }

  lemma UnfetchedIs(tools: Tools, d: Declaration, up: Upstream, pin: Option<Pin>)
    ensures UnfetchedChanged(tools, up, d.sources, pin)
       <==> || SomeGone(pin, d.sources)
            || exists i :: 0 <= i < |d.sources| && up(d.sources[i].url).Some?
                 && !RecordedAs(pin, d.sources[i].url, tools.sha(up(d.sources[i].url).value))
  {
    hide RecordedAs, Pinned, SomeGone;
    forall i | 0 <= i < |d.sources| && up(d.sources[i].url).Some?
      ensures Unmoved(RowOf(tools, d.sources[i], Bytes(up, d.sources[i]), ""), pin)
         <==> RecordedAs(pin, d.sources[i].url, tools.sha(up(d.sources[i].url).value))
    {
      PinnedRecorded(pin, d.sources[i].url);
    }
    hide Unmoved, RowOf;
  }

  // ----- what a refresh writes

  // The row of a source: its bytes, and the date on which these bytes were first obtained, as far as the pin knows.
  ghost predicate RowFor(row: SourceRow, tools: Tools, source: SpecSource, data: string, pin: Option<Pin>,
                         today: string) {
    && row.url == source.url && row.sha256 == tools.sha(data) && row.bytes == |data|
    && row.tag == tools.tag(source, data) && row.version == tools.version(source, data)
    && if RecordedAs(pin, source.url, tools.sha(data)) then
         exists i: nat :: FirstRow(pin.value.sources, source.url, i) && row.fetched == pin.value.sources[i].fetched
       else row.fetched == today
  }

  ghost predicate SameRow(pinned: PinnedSource, row: SourceRow) {
    && pinned.url == row.url && pinned.sha256 == row.sha256 && pinned.bytes == row.bytes
    && pinned.version == row.version && pinned.fetched == row.fetched
  }

  // The pin of a document. Of a committed extract, or with nothing modeled, no more than its rows and its digest.
  ghost predicate PinOf(file: PinFile, tools: Tools, d: Declaration, modeled: seq<Route>, document: Document) {
    var covered, listing := document.content.covered, tools.sorted(document.content.covered.hooks);
    && file.schema == 1 && file.extractSha == tools.sha(tools.render(document))
    && |file.sources| == |document.sources|
    && (forall i :: 0 <= i < |file.sources| ==> SameRow(file.sources[i], document.sources[i]))
    && if d.vendored || modeled == [] then
         file.modeled == None && file.cutSha == None && file.operations == None && file.webhooks == None
       else
         && file.modeled.Some? && |file.modeled.value| == |modeled|
         && (forall i :: 0 <= i < |modeled| ==> file.modeled.value[i] == RouteKey(modeled[i]))
         && file.cutSha == Some(tools.cutSha(covered)) && file.operations == Some(tools.operations(covered))
         && file.webhooks == if listing == [] then None else Some(listing)
  }

  /** A refresh that writes leaves the document it cut, every row dated, and the pin of that document. */
  lemma RefreshWrites(tools: Tools, d: Declaration, modeled: seq<Route>, up: Upstream, fetched: string, files: Files)
    requires Lawful(tools) && Wrote(files, Refreshed(tools, d, modeled, up, false, fetched, files), false)
    ensures var after := Refreshed(tools, d, modeled, up, false, fetched, files).0;
            exists document ::
              && after.extract == Some(tools.render(document))
              && tools.cut(d, Blobs(up, d.sources), Spelled(modeled)) == Some(document.content)
              && |document.sources| == |d.sources|
              && (forall i :: 0 <= i < |d.sources| ==>
                    RowFor(document.sources[i], tools, d.sources[i], Bytes(up, d.sources[i]), OldPin(files).value,
                        fetched))
              && after.pin.Some? && PinOf(after.pin.value, tools, d, modeled, document)
  {
    hide Judged, UnfetchedChanged, PinOf, RowFor, NewPin, ToJson;
    var content := tools.cut(d, Blobs(up, d.sources), Spelled(modeled)).value;
    var pin := OldPin(files).value;
    var document := Cut(tools, d, content, up, pin, fetched);
    CutContent(tools, d, up, pin, fetched, content);
    CutLength(tools, d, content, up, pin, fetched);
    forall i | 0 <= i < |d.sources|
      ensures RowFor(document.sources[i], tools, d.sources[i], Bytes(up, d.sources[i]), pin, fetched)
    {
      RowDated(tools, d.sources[i], Bytes(up, d.sources[i]), pin, fetched);
    }
    PinWritten(tools, d, modeled, document);
    hide Cut, OldPin, Lawful;
  }

  lemma RowDated(tools: Tools, source: SpecSource, data: string, pin: Option<Pin>, fetched: string)
    ensures RowFor(Stamped(RowOf(tools, source, data, fetched), pin), tools, source, data, pin, fetched)
  {
    hide RecordedAs;
    PinnedRecorded(pin, source.url);
    if pin.Some? { var i := SourceOfFirst(pin.value.sources, source.url); }
    hide FirstRow;
  }

  lemma PinWritten(tools: Tools, d: Declaration, modeled: seq<Route>, document: Document)
    requires tools.cutSha(document.content.covered) != ""
    ensures PinOf(ToJson(NewPin(tools, d, modeled, document)), tools, d, modeled, document)
  {
    hide RouteKey;
  }

  // ----- what offline verification says

  // The text is the one that was pinned, or a cache of the same cut.
  ghost predicate TextStands(tools: Tools, d: Declaration, pin: Pin, text: string) {
    var document := tools.parse(text);
    if tools.sha(text) == pin.extractSha then
      && |pin.sources| == |document.sources|
      && forall i :: 0 <= i < |pin.sources| ==> SameRow(pin.sources[i], document.sources[i])
    else !d.vendored && pin.cutSha == tools.cutSha(document.content.covered) != ""
  }

  // The text was cut from other bytes than the pinned ones, as far as their rows say.
  ghost predicate OtherBytes(tools: Tools, pin: Pin, text: string, url: string) {
    var rows := PinnedRows(tools.parse(text).sources);
    exists i: nat, j: nat ::
      LastRow(pin.sources, url, i) && LastRow(rows, url, j) && pin.sources[i].sha256 != rows[j].sha256
  }

  /**
   Of any pin and any text: the text stands, all its stubs are accepted and it has exactly the declared webhooks, or the
   extract is found changed. So a committed extract with an edit in it is found, whatever was edited.
   */
  lemma VerifyExactly(tools: Tools, d: Declaration, files: Files, pin: Pin, text: string)
    requires Lawful(tools) && files.pin.Some? && ReadPin(files.pin.value) == Some(pin) && files.extract == Some(text)
    ensures var covered := tools.parse(text).content.covered;
            var result := Verified(tools, d, files);
            && result.Ok? && result.value.failures == {}
            && (result.value.changedExtract <==>
                  || !TextStands(tools, d, pin, text) || !(covered.stubbed <= d.stubsAccepted)
                  || covered.hooks != Names(d.webhooks))
    ensures var result := Verified(tools, d, files).value;
            var cache := tools.sha(text) != pin.extractSha && !d.vendored && pin.cutSha != "";
            && (forall url :: url in result.moved <==>
                  cache && TextStands(tools, d, pin, text) && OtherBytes(tools, pin, text, url))
            && (result.changedUpstream <==>
                  || Urls(d.sources) != PinnedUrls(pin.sources)
                  || (cache && !TextStands(tools, d, pin, text) && exists url :: OtherBytes(tools, pin, text, url)))
  {
    hide Lawful, OtherBytes, Urls, PinnedUrls, MovedUrls;
    forall url ensures url in MovedUrls(tools.parse(text).sources, pin) <==> OtherBytes(tools, pin, text, url) {
      MovedIs(tools, pin, text, url);
    }
    SameRows(pin.sources, tools.parse(text).sources);
    var document := tools.parse(text);
    assert tools.cutSha(document.content.covered) != "" by { CutsHaveDigests(tools, document.content.covered); }
    hide SameRow, PinnedRows;
  }

  /** Without a pin everything is new, without an extract a committed one is missing; another pin is an error. */
  lemma VerifyWithout(tools: Tools, d: Declaration, files: Files)
    ensures files.pin == None ==> Verified(tools, d, files) == Ok(Outcome(true, true, {}, {}))
    ensures files.pin != None && files.extract == None ==>
              Verified(tools, d, files) == Ok(Outcome(true, d.vendored, {}, {}))
    ensures Verified(tools, d, files) == Err(PinUnreadable)
       <==> files.pin != None && files.extract != None && files.pin.value.schema != 1
  {
  }

  lemma CutsHaveDigests(tools: Tools, covered: Covered)
    requires Lawful(tools)
    ensures tools.cutSha(covered) != ""
  {
  }

  lemma SameRows(pinned: seq<PinnedSource>, rows: seq<SourceRow>)
    ensures PinnedRows(rows) == pinned
       <==> |pinned| == |rows| && forall i :: 0 <= i < |pinned| ==> SameRow(pinned[i], rows[i])
  {
    if PinnedRows(rows) == pinned {
      forall i | 0 <= i < |pinned| ensures SameRow(pinned[i], rows[i]) { assert PinnedRows(rows)[i] == pinned[i]; }
    }
  }

  lemma {:induction false} LastShaExactly(rows: seq<PinnedSource>, url: string) returns (i: nat)
    ensures var sha := LastSha(rows, url);
            && (sha.Some? ==> LastRow(rows, url, i) && rows[i].sha256 == sha.value)
            && (sha.None? ==> forall j :: 0 <= j < |rows| ==> rows[j].url != url)
  {
    if rows == [] {
      i := 0;
    } else if rows[|rows| - 1].url == url {
      i := |rows| - 1;
    } else {
      var front := rows[..|rows| - 1];
      i := LastShaExactly(front, url);
      assert forall j :: 0 <= j < |front| ==> front[j] == rows[j];
    }
  }

  lemma MovedIs(tools: Tools, pin: Pin, text: string, url: string)
    ensures url in MovedUrls(tools.parse(text).sources, pin) <==> OtherBytes(tools, pin, text, url)
  {
    hide LastSha;
    var sources := tools.parse(text).sources;
    var rows := PinnedRows(sources);
    var i := LastShaExactly(pin.sources, url);
    var j := LastShaExactly(rows, url);
    if url in MovedUrls(sources, pin) {
      var k :| 0 <= k < |sources| && sources[k].url == url;
      assert rows[k].url == url;
    }
    if OtherBytes(tools, pin, text, url) {
      var a: nat, b: nat :|
        LastRow(pin.sources, url, a) && LastRow(rows, url, b) && pin.sources[a].sha256 != rows[b].sha256;
      assert sources[b].url == url && a == i && b == j;
    }
  }

  // ----- what the cache holds and says

  // The key spells the route: its method, a space and its path, and the method without a space.
  ghost predicate Spells(key: string, route: Route) {
    key == route.verb + " " + route.specPath && Proper(route)
  }

  ghost predicate SpellsNone(key: string) {
    forall route :: !Spells(key, route)
  }

  lemma KeySpells(key: string)
    ensures forall route :: Spells(key, route) <==> IsKey(key) && Partition(key) == (route.verb, route.specPath)
                                                    && ' ' in key
  {
    forall route
      ensures Spells(key, route) <==> IsKey(key) && Partition(key) == (route.verb, route.specPath) && ' ' in key
    {
      if Spells(key, route) {
        assert key[|route.verb|] == ' ';
        PartitionAtSpace(route.verb, route.specPath);
      }
      if ' ' in key { PartitionParts(key); }
    }
  }

  lemma {:induction false} NoSpaceNoKey(key: string)
    requires ' ' !in key
    ensures !IsKey(key)
  {
    if key != "" { NoSpaceNoKey(key[1..]); }
  }

  lemma KeyExactly(key: string)
    ensures IsKey(key) <==> !SpellsNone(key)
    ensures IsKey(key) ==> Spells(key, Routes.Route(Partition(key).0, Partition(key).1))
  {
    KeySpells(key);
    hide Spells;
    if ' ' !in key { NoSpaceNoKey(key); }
    if IsKey(key) { assert Spells(key, Routes.Route(Partition(key).0, Partition(key).1)); }
  }

  // The routes of a pin's keys, or the first key that spells none.
  ghost predicate RoutesAre(result: Result<seq<Route>, CacheTrouble>, keys: seq<string>) {
    match result
    case Ok(routes) => |routes| == |keys| && forall i :: 0 <= i < |keys| ==> Spells(keys[i], routes[i])
    case Err(trouble) =>
      exists i :: 0 <= i < |keys| && trouble == BadKey(keys[i]) && SpellsNone(keys[i])
        && forall j :: 0 <= j < i ==> !SpellsNone(keys[j])
  }

  lemma {:induction false} RoutesOfExactly(keys: seq<string>)
    ensures RoutesAre(RoutesOf(keys), keys)
  {
    hide Spells, SpellsNone, IsKey, Partition;
    if keys != [] {
      KeyExactly(keys[0]);
      if IsKey(keys[0]) {
        RoutesOfExactly(keys[1..]);
        FirstKeySpells(keys);
      } else {
        assert RoutesOf(keys) == Err(BadKey(keys[0]));
      }
    }
  }

  lemma FirstKeySpells(keys: seq<string>)
    requires keys != [] && IsKey(keys[0]) && !SpellsNone(keys[0])
    requires Spells(keys[0], Routes.Route(Partition(keys[0]).0, Partition(keys[0]).1))
    requires RoutesAre(RoutesOf(keys[1..]), keys[1..])
    ensures RoutesAre(RoutesOf(keys), keys)
  {
    hide Spells, SpellsNone, IsKey, Partition;
    var rest := RoutesOf(keys[1..]);
    assert forall i :: 0 < i < |keys| ==> keys[i] == keys[1..][i - 1];
    if rest.Ok? {
      var all := RoutesOf(keys).value;
      assert forall i :: 0 < i < |keys| ==> all[i] == rest.value[i - 1];
    } else {
      var i :| 0 <= i < |keys[1..]| && rest.error == BadKey(keys[1..][i]) && SpellsNone(keys[1..][i])
        && forall j :: 0 <= j < i ==> !SpellsNone(keys[1..][j]);
      assert keys[i + 1] == keys[1..][i];
      assert forall j :: 0 < j < i + 1 ==> keys[j] == keys[1..][j - 1];
    }
  }

  ghost predicate Missed(d: Declaration, up: Upstream) {
    exists i :: 0 <= i < |d.sources| && up(d.sources[i].url).None?
  }

  // The first source that cannot be fetched.
  ghost predicate FirstMissed(d: Declaration, up: Upstream, i: nat) {
    && i < |d.sources| && up(d.sources[i].url).None?
    && forall j :: 0 <= j < i ==> up(d.sources[j].url).Some?
  }

  lemma {:induction false} FirstFailedExactly(up: Upstream, sources: seq<SpecSource>) returns (i: nat)
    ensures var failed := FirstFailed(up, sources);
            && (failed.Some? ==> && i < |sources| && failed.value == sources[i].url && up(sources[i].url).None?
                                 && forall j :: 0 <= j < i ==> up(sources[j].url).Some?)
            && (failed.None? ==> forall j :: 0 <= j < |sources| ==> up(sources[j].url).Some?)
  {
    i := 0;
    if sources != [] && up(sources[0].url).Some? {
      var rest := FirstFailedExactly(up, sources[1..]);
      assert forall j :: 0 < j < |sources| ==> sources[j] == sources[1..][j - 1];
      i := rest + 1;
    }
  }

  // The cached text is the pinned one: it is used as it is, and the guard, when asked for, looks at what is fetched.
  ghost predicate HitAs(after: (Files, Result<CacheResult, CacheTrouble>), tools: Tools, d: Declaration, up: Upstream,
                        checkProse: bool, files: Files, text: string) {
    && after.0 == files
    && if checkProse && !Missed(d, up) && tools.leaks(Blobs(up, d.sources)) then after.1 == Err(ProseLeak)
       else
         after.1 == Ok(CacheResult(tools.parse(text), true, {}, false, false, None, checkProse && Missed(d, up)))
  }

  // A cut of what was fetched for the pinned routes, every row dated; what drifted is what the pin does not have.
  ghost predicate FilledAs(after: (Files, Result<CacheResult, CacheTrouble>), tools: Tools, d: Declaration,
                           up: Upstream, today: string, files: Files, pin: Pin, content: Content) {
    && after.1.Ok?
    && var result := after.1.value;
       var text := tools.render(result.document);
       && after.0 == files.(extract := Some(text))
       && result.document.content == content && |result.document.sources| == |d.sources|
       && (forall i :: 0 <= i < |d.sources| ==>
             RowFor(result.document.sources[i], tools, d.sources[i], Bytes(up, d.sources[i]), Some(pin), today))
       && !result.hit && !result.offline && !result.proseUnchecked
       && (forall url :: url in result.drift <==>
             exists i :: 0 <= i < |d.sources| && d.sources[i].url == url
               && !RecordedAs(Some(pin), url, tools.sha(Bytes(up, d.sources[i]))))
       && (result.extractDiffers <==> result.drift == {} && tools.sha(text) != pin.extractSha)
       && result.cutMatches == if pin.cutSha == "" then None else Some(tools.cutSha(content.covered) == pin.cutSha)
  }

  // Without the pinned text: the first of these that applies.
  ghost predicate MissAs(after: (Files, Result<CacheResult, CacheTrouble>), tools: Tools, d: Declaration, up: Upstream,
                         today: string, files: Files, pin: Pin) {
    if pin.modeled == [] then after == (files, Err(NothingModeled))
    else
      exists routes :: RoutesAre(routes, pin.modeled)
        && if routes.Err? then after == (files, Err(routes.error))
           else if Missed(d, up) then
             if files.extract.Some? then
               after == (files, Ok(CacheResult(tools.parse(files.extract.value), false, {}, true, true, None, false)))
             else exists i: nat :: FirstMissed(d, up, i) && after == (files, Err(Unavailable(d.sources[i].url)))
           else if tools.leaks(Blobs(up, d.sources)) then after == (files, Err(ProseLeak))
           else
             var content := tools.cut(d, Blobs(up, d.sources), Spelled(routes.value));
             if content.None? then after == (files, Err(NotCut))
             else FilledAs(after, tools, d, up, today, files, pin, content.value)
  }

  /** `populate`, whatever the files hold. */
  lemma PopulateExactly(tools: Tools, d: Declaration, up: Upstream, checkProse: bool, today: string, files: Files)
    ensures var after := Populated(tools, d, up, checkProse, today, files);
            && (files.pin.None? ==> after == (files, Err(NoPin)))
            && (files.pin.Some? && files.pin.value.schema != 1 ==> after == (files, Err(Unreadable)))
            && (files.pin.Some? && files.pin.value.schema == 1 ==>
                  var pin := ReadPin(files.pin.value).value;
                  if files.extract.Some? && tools.sha(files.extract.value) == pin.extractSha then
                    HitAs(after, tools, d, up, checkProse, files, files.extract.value)
                  else MissAs(after, tools, d, up, today, files, pin))
  {
    hide HitAs, MissAs, ReadPin, Populated;
    PopulatedWithoutPin(tools, d, up, checkProse, today, files);
    if files.pin.Some? && files.pin.value.schema == 1 { PopulatedFrom(tools, d, up, checkProse, today, files); }
  }

  lemma PopulatedWithoutPin(tools: Tools, d: Declaration, up: Upstream, checkProse: bool, today: string, files: Files)
    ensures var after := Populated(tools, d, up, checkProse, today, files);
            && (files.pin.None? ==> after == (files, Err(NoPin)))
            && (files.pin.Some? && files.pin.value.schema != 1 ==> after == (files, Err(Unreadable)))
    ensures files.pin.Some? && files.pin.value.schema == 1 ==> ReadPin(files.pin.value).Some?
  {
    hide HitResult, Modeled, Cut, Drift, FirstFailed;
  }

  lemma PopulatedFrom(tools: Tools, d: Declaration, up: Upstream, checkProse: bool, today: string, files: Files)
    requires files.pin.Some? && ReadPin(files.pin.value).Some?
    ensures var after := Populated(tools, d, up, checkProse, today, files);
            var pin := ReadPin(files.pin.value).value;
            if files.extract.Some? && tools.sha(files.extract.value) == pin.extractSha then
              HitAs(after, tools, d, up, checkProse, files, files.extract.value)
            else MissAs(after, tools, d, up, today, files, pin)
  {
    hide ReadPin, RoutesOf, RoutesAre, Cut, Drift, FirstFailed, FilledAs;
    var pin := ReadPin(files.pin.value).value;
    var i := FirstFailedExactly(up, d.sources);
    assert FirstFailed(up, d.sources).None? <==> !Missed(d, up);
    assert Missed(d, up) ==> FirstMissed(d, up, i);
    RoutesOfExactly(pin.modeled);
    var routes := RoutesOf(pin.modeled);
    if routes.Ok? && !Missed(d, up) {
      var content := tools.cut(d, Blobs(up, d.sources), Spelled(routes.value));
      if content.Some? { Filled(tools, d, up, today, files, pin, content.value); }
    }
  }

  lemma Filled(tools: Tools, d: Declaration, up: Upstream, today: string, files: Files, pin: Pin, content: Content)
    requires !Missed(d, up)
    ensures var document := Cut(tools, d, content, up, Some(pin), today);
            var drift, text := Drift(document.sources, pin), tools.render(document);
            var differs := drift == {} && tools.sha(text) != pin.extractSha;
            var matches := if pin.cutSha != "" then Some(tools.cutSha(content.covered) == pin.cutSha) else None;
            FilledAs((files.(extract := Some(text)),
                      Ok(CacheResult(document, false, drift, differs, false, matches, false))),
                tools, d, up, today, files, pin, content)
  {
    hide RowFor, RecordedAs, Pinned;
    var document := Cut(tools, d, content, up, Some(pin), today);
    CutContent(tools, d, up, Some(pin), today, content);
    CutLength(tools, d, content, up, Some(pin), today);
    forall i | 0 <= i < |d.sources|
      ensures RowFor(document.sources[i], tools, d.sources[i], Bytes(up, d.sources[i]), Some(pin), today)
      ensures document.sources[i].url == d.sources[i].url
      ensures Unmoved(document.sources[i], Some(pin))
         <==> RecordedAs(Some(pin), d.sources[i].url, tools.sha(Bytes(up, d.sources[i])))
    {
      RowDated(tools, d.sources[i], Bytes(up, d.sources[i]), Some(pin), today);
      PinnedRecorded(Some(pin), d.sources[i].url);
    }
    hide Cut, Unmoved, Bytes;
  }
}
