/** The run-time cache of a vendor whose extract is not committed (`cache.py`): re-cut from the pin alone. */
module Caches {
  import opened Wrappers
  import opened Pins
  import opened Refreshing
  import Routes

  datatype CacheTrouble =
    | NoPin | Unreadable | NothingModeled | BadKey(key: string) | Unavailable(url: string) | ProseLeak | NotCut

  datatype CacheResult = CacheResult(document: Document, hit: bool, drift: set<string>, extractDiffers: bool,
                                     offline: bool, cutMatches: Option<bool>, proseUnchecked: bool)

  // `key.partition(" ")`: up to the first space, and past it.
  function Partition(key: string): (string, string) {
    if key == "" then ("", "")
    else if key[0] == ' ' then ("", key[1..])
    else var rest := Partition(key[1..]); ([key[0]] + rest.0, rest.1)
  }

  predicate IsKey(key: string) {
    Partition(key).0 != "" && Partition(key).1 != ""
  }

  function RoutesOf(keys: seq<string>): Result<seq<Route>, CacheTrouble> {
    if keys == [] then Ok([])
    else if !IsKey(keys[0]) then Err(BadKey(keys[0]))
    else
      var rest := RoutesOf(keys[1..]);
      if rest.Err? then rest else Ok([Routes.Route(Partition(keys[0]).0, Partition(keys[0]).1)] + rest.value)
  }

  /** `_modeled` */
  function Modeled(pin: Pin): Result<seq<Route>, CacheTrouble> {
    if pin.modeled == [] then Err(NothingModeled) else RoutesOf(pin.modeled)
  }

  // A method and a path, the method without a space.
  predicate Proper(route: Route) {
    route.verb != "" && ' ' !in route.verb && route.specPath != ""
  }

  lemma {:induction false} PartitionAtSpace(verb: string, path: string)
    requires ' ' !in verb
    ensures Partition(verb + " " + path) == (verb, path)
  {
    var key := verb + " " + path;
    if verb == "" {
      assert key[1..] == path;
    } else {
      assert key[1..] == verb[1..] + " " + path;
      PartitionAtSpace(verb[1..], path);
      assert verb == [verb[0]] + verb[1..];
    }
  }

  // Up to the first space there is none, and nothing else is lost.
  lemma {:induction false} PartitionParts(key: string)
    requires ' ' in key
    ensures ' ' !in Partition(key).0 && key == Partition(key).0 + " " + Partition(key).1
  {
    if key[0] != ' ' { PartitionParts(key[1..]); }
  }

  lemma UpperKeepsSpaces(s: string)
    ensures ' ' in UpperCased(s) <==> ' ' in s
    ensures UpperCased(UpperCased(s)) == UpperCased(s)
  {
    forall i | 0 <= i < |s| ensures UpperCased(s)[i] == ' ' <==> s[i] == ' ' {}
    forall i | 0 <= i < |s| ensures UpperCased(UpperCased(s))[i] == UpperCased(s)[i] {}
  }

  // Two methods are spelled alike in upper case exactly when they differ, if at all, in the case of ASCII letters.
  lemma UpperAlikeExactlyWhen(a: string, b: string)
    ensures UpperCased(a) == UpperCased(b)
       <==> |a| == |b| && forall i :: 0 <= i < |a| ==>
              || a[i] == b[i]
              || ('a' <= a[i] <= 'z' && a[i] as int - b[i] as int == 32)
              || ('a' <= b[i] <= 'z' && b[i] as int - a[i] as int == 32)
  {
    forall i | 0 <= i < |a| && |a| == |b|
      ensures Upper(a[i]) == Upper(b[i])
         <==> || a[i] == b[i]
              || ('a' <= a[i] <= 'z' && a[i] as int - b[i] as int == 32)
              || ('a' <= b[i] <= 'z' && b[i] as int - a[i] as int == 32)
    {
    }
    if UpperCased(a) == UpperCased(b) {
      assert |a| == |UpperCased(a)| == |b|;
      forall i | 0 <= i < |a| ensures Upper(a[i]) == Upper(b[i]) { assert UpperCased(a)[i] == UpperCased(b)[i]; }
    }
  }

  /** A route key reads back as its route exactly when the route is proper. */
  lemma KeyReadsBackExactlyWhen(route: Route)
    ensures IsKey(RouteKey(route)) && Partition(RouteKey(route)) == (UpperCased(route.verb), route.specPath)
        <==> Proper(route)
  {
    UpperKeepsSpaces(route.verb);
    var key := RouteKey(route);
    if ' ' in UpperCased(route.verb) {
      assert key[|UpperCased(route.verb)|] == ' ';
      PartitionParts(key);
    } else {
      PartitionAtSpace(UpperCased(route.verb), route.specPath);
    }
  }

  lemma {:induction false} RoutesReadBack(routes: seq<Route>)
    requires forall i :: 0 <= i < |routes| ==> Proper(routes[i])
    ensures RoutesOf(RouteKeys(routes)) == Ok(Spelled(routes))
  {
    if routes == [] {
    } else {
      KeyReadsBackExactlyWhen(routes[0]);
      hide Partition, RouteKey, UpperCased;
      assert RouteKeys(routes)[1..] == RouteKeys(routes[1..]);
      RoutesReadBack(routes[1..]);
      assert Spelled(routes) == [Spelled(routes)[0]] + Spelled(routes[1..]);
    }
  }

  // Read back once or twice, the routes are spelled as the cut reads them.
  lemma SpelledTwice(routes: seq<Route>)
    ensures Spelled(Spelled(routes)) == Spelled(routes)
  {
    forall i | 0 <= i < |routes| ensures Spelled(Spelled(routes))[i] == Spelled(routes)[i] {
      UpperKeepsSpaces(routes[i].verb);
    }
  }

  // ----- `populate`

  function FirstFailed(up: Upstream, sources: seq<SpecSource>): Option<string> {
    if sources == [] then None
    else if up(sources[0].url).None? then Some(sources[0].url)
    else FirstFailed(up, sources[1..])
  }

  lemma {:induction false} FirstFailedNone(up: Upstream, sources: seq<SpecSource>)
    ensures FirstFailed(up, sources).None? <==> forall i :: 0 <= i < |sources| ==> up(sources[i].url).Some?
  {
    if sources != [] {
      FirstFailedNone(up, sources[1..]);
      assert forall i :: 1 <= i < |sources| ==> sources[i] == sources[1..][i - 1];
      if up(sources[0].url).Some? && FirstFailed(up, sources[1..]).None? {
        forall i | 0 <= i < |sources| ensures up(sources[i].url).Some? {}
      }
    }
  }

  // The URLs whose bytes are not the pinned ones.
  function Drift(rows: seq<SourceRow>, pin: Pin): set<string> {
    set i | 0 <= i < |rows| && !Unmoved(rows[i], Some(pin)) :: rows[i].url
  }

  /**
   A hit; under `check_prose` the sources are fetched for the guard alone, and one that cannot be leaves it unchecked.
   */
  function HitResult(tools: Tools, d: Declaration, up: Upstream, checkProse: bool,
                     document: Document): Result<CacheResult, CacheTrouble> {
    var unchecked := checkProse && FirstFailed(up, d.sources).Some?;
    if checkProse && !unchecked && tools.leaks(Blobs(up, d.sources)) then Err(ProseLeak)
    else Ok(CacheResult(document, true, {}, false, false, None, unchecked))
  }

  function Populated(tools: Tools, d: Declaration, up: Upstream, checkProse: bool, today: string, files: Files):
    (Files, Result<CacheResult, CacheTrouble>)
  {
    if files.pin.None? then (files, Err(NoPin))
    else if ReadPin(files.pin.value).None? then (files, Err(Unreadable))
    else
      var pin := ReadPin(files.pin.value).value;
      if files.extract.Some? && tools.sha(files.extract.value) == pin.extractSha then
        (files, HitResult(tools, d, up, checkProse, tools.parse(files.extract.value)))
      else if Modeled(pin).Err? then (files, Err(Modeled(pin).error))
      else if FirstFailed(up, d.sources).Some? then
        if files.extract.Some? then
          (files, Ok(CacheResult(tools.parse(files.extract.value), false, {}, true, true, None, false)))
        else (files, Err(Unavailable(FirstFailed(up, d.sources).value)))
      else if tools.leaks(Blobs(up, d.sources)) then (files, Err(ProseLeak))
      else
        match tools.cut(d, Blobs(up, d.sources), Spelled(Modeled(pin).value))
        case None => (files, Err(NotCut))
        case Some(content) =>
          var document := Cut(tools, d, content, up, Some(pin), today);
          var drift := Drift(document.sources, pin);
          var text := tools.render(document);
          var differs := drift == {} && tools.sha(text) != pin.extractSha;
          var matches := if pin.cutSha != "" then Some(tools.cutSha(content.covered) == pin.cutSha) else None;
          (files.(extract := Some(text)), Ok(CacheResult(document, false, drift, differs, false, matches, false)))
  }

  /** A failed fetch, a leak or any error leaves the cached extract as it was. */
  lemma CacheUntouched(tools: Tools, d: Declaration, up: Upstream, checkProse: bool, today: string, files: Files)
    ensures var after := Populated(tools, d, up, checkProse, today, files);
            && after.0.pin == files.pin
            && (after.0 != files ==>
                  FirstFailed(up, d.sources).None? && after.1.Ok? && !after.1.value.hit && !after.1.value.offline)
  {
  }

  lemma NothingFailed(up: Upstream, sources: seq<SpecSource>)
    requires Failed(up, sources) == {}
    ensures FirstFailed(up, sources).None?
  {
    FirstFailedNone(up, sources);
    forall i | 0 <= i < |sources| ensures up(sources[i].url).Some? { NoneFailed(up, sources, i); }
  }

  lemma NoDrift(rows: seq<SourceRow>, pin: Pin)
    requires MovedRows(rows, Some(pin)) == {} && !SomeNew(rows, Some(pin))
    ensures Drift(rows, pin) == {}
  {
    hide Pinned;
    forall i | 0 <= i < |rows| ensures Unmoved(rows[i], Some(pin)) {
      assert rows[i].url !in MovedRows(rows, Some(pin));
      assert Pinned(Some(pin), rows[i].url).Some?;
    }
  }

  /**
   Reproducibility: from the pin a refresh left, with proper routes and at least one, an empty cache is filled on any
   date with the very text that was pinned, and the next `populate` is a hit.
   */
  lemma PinRebuildsExtract(tools: Tools, d: Declaration, modeled: seq<Route>, up: Upstream, files: Files, pin: Pin,
                           document: Document,
                           checkProse: bool, today: string, later: string)
    requires Lawful(tools) && Left(tools, d, modeled, up, files, pin, document) && !d.vendored
    requires modeled != [] && (forall i :: 0 <= i < |modeled| ==> Proper(modeled[i]))
    requires !tools.leaks(Blobs(up, d.sources))
    ensures Populated(tools, d, up, checkProse, today, files.(extract := None))
         == (files, Ok(CacheResult(document, false, {}, false, false, Some(true), false)))
    ensures Populated(tools, d, up, checkProse, later, files)
        == (files, Ok(CacheResult(document, true, {}, false, false, None, false)))
  {
    LeftReadsBack(tools, d, modeled, up, files, pin, document);
    SameDocument(tools, d, modeled, up, files, pin, document, today);
    NoDrift(document.sources, pin);
    NothingFailed(up, d.sources);
    PinnedRoutes(tools, d, modeled, up, files, pin, document);
    hide Cut, NewPin, Modeled, Drift, FirstFailed, MovedRows, SomeNew, SomeGone, ToJson;
    assert tools.cutSha(document.content.covered) != "";
  }

  lemma PinnedRoutes(tools: Tools, d: Declaration, modeled: seq<Route>, up: Upstream, files: Files, pin: Pin,
                     document: Document)
    requires Left(tools, d, modeled, up, files, pin, document) && !d.vendored
    requires modeled != [] && (forall i :: 0 <= i < |modeled| ==> Proper(modeled[i]))
    ensures Modeled(pin) == Ok(Spelled(modeled)) && Spelled(Modeled(pin).value) == Spelled(modeled)
  {
    hide Cut;
    RoutesReadBack(modeled);
    SpelledTwice(modeled);
  }

  /** The same, said of the refresh itself. */
  lemma RefreshIsReproducible(tools: Tools, d: Declaration, modeled: seq<Route>, up: Upstream, fetched: string,
                              files: Files,
                              checkProse: bool, today: string, later: string)
    requires Lawful(tools) && Wrote(files, Refreshed(tools, d, modeled, up, false, fetched, files), false)
        && !d.vendored
    requires modeled != [] && (forall i :: 0 <= i < |modeled| ==> Proper(modeled[i]))
    requires !tools.leaks(Blobs(up, d.sources))
    ensures var after := Refreshed(tools, d, modeled, up, false, fetched, files).0;
            && Populated(tools, d, up, checkProse, today, after.(extract := None)).0 == after
            && Populated(tools, d, up, checkProse, later, after).1.Ok?
               && Populated(tools, d, up, checkProse, later, after).1.value.hit
  {
    hide Refreshed, Left, Populated;
    var pin, document := WroteLeaves(tools, d, modeled, up, fetched, files);
    PinRebuildsExtract(tools, d, modeled, up, Refreshed(tools, d, modeled, up, false, fetched, files).0, pin, document,
        checkProse, today, later);
  }

  /** From a pin with nothing modeled the extract cannot be cut again. */
  lemma NothingModeledIsNotRebuilt(tools: Tools, d: Declaration, up: Upstream, files: Files, pin: Pin,
                                   document: Document,
                                   checkProse: bool, today: string)
    requires Lawful(tools) && Left(tools, d, [], up, files, pin, document)
    ensures Populated(tools, d, up, checkProse, today, files.(extract := None))
        == (files.(extract := None), Err(NothingModeled))
  {
    LeftReadsBack(tools, d, [], up, files, pin, document);
    hide Cut;
  }

  // ----- a cache cut from other bytes than the pinned ones

  lemma {:induction false} LastShaOf(rows: seq<PinnedSource>, url: string, sha: string)
    requires exists i :: 0 <= i < |rows| && rows[i].url == url
    requires forall i :: 0 <= i < |rows| && rows[i].url == url ==> rows[i].sha256 == sha
    ensures LastSha(rows, url) == Some(sha)
  {
    if rows[|rows| - 1].url != url {
      var front := rows[..|rows| - 1];
      var i :| 0 <= i < |rows| && rows[i].url == url;
      assert front[i].url == url;
      LastShaOf(front, url, sha);
    }
  }

  // The rows are those of the declared sources and of these bytes.
  ghost predicate RowsOfBytes(tools: Tools, rows: seq<PinnedSource>, d: Declaration, up: Upstream) {
    && |rows| == |d.sources|
    && forall i :: 0 <= i < |rows| ==>
       rows[i].url == d.sources[i].url && rows[i].sha256 == tools.sha(Bytes(up, d.sources[i]))
  }

  lemma CutRows(tools: Tools, d: Declaration, content: Content, up: Upstream, pin: Option<Pin>, fetched: string)
    ensures RowsOfBytes(tools, PinnedRows(Cut(tools, d, content, up, pin, fetched).sources), d, up)
  {
    hide Pinned;
  }

  lemma RowSha(tools: Tools, rows: seq<PinnedSource>, d: Declaration, up: Upstream, i: nat)
    requires RowsOfBytes(tools, rows, d, up) && i < |rows|
    ensures LastSha(rows, d.sources[i].url) == Some(tools.sha(Bytes(up, d.sources[i])))
  {
    assert rows[i].url == d.sources[i].url;
    LastShaOf(rows, d.sources[i].url, tools.sha(Bytes(up, d.sources[i])));
  }

  lemma MovedUrlsAre(tools: Tools, d: Declaration, up: Upstream, now: Upstream, rows: seq<SourceRow>, pin: Pin)
    requires BytesApart(tools, d, up, now) && Failed(now, d.sources) == {}
    requires RowsOfBytes(tools, pin.sources, d, up) && RowsOfBytes(tools, PinnedRows(rows), d, now)
    ensures MovedUrls(rows, pin) == Differing(d, up, now)
  {
    hide LastSha;
    forall i | 0 <= i < |rows|
      ensures rows[i].url == d.sources[i].url && LastSha(pin.sources, rows[i].url).Some?
      ensures LastSha(pin.sources, rows[i].url) != LastSha(PinnedRows(rows), rows[i].url)
         <==> Bytes(now, d.sources[i]) != Bytes(up, d.sources[i])
    {
      assert PinnedRows(rows)[i].url == d.sources[i].url;
      NoneFailed(now, d.sources, i);
      RowSha(tools, pin.sources, d, up, i);
      RowSha(tools, PinnedRows(rows), d, now, i);
    }
    hide Bytes, RowsOfBytes;
    SameLength(tools, PinnedRows(rows), d, now);
    assert |rows| == |PinnedRows(rows)|;
  }

  lemma SameLength(tools: Tools, rows: seq<PinnedSource>, d: Declaration, up: Upstream)
    requires RowsOfBytes(tools, rows, d, up)
    ensures |rows| == |d.sources|
  {
  }

  // What offline verification says of an extract cut, against the pin, from the bytes there are now.
  lemma RecutIsJudgedByItsCut(tools: Tools, d: Declaration, modeled: seq<Route>, up: Upstream, files: Files, pin: Pin,
                              document: Document,
                              now: Upstream, content: Content, today: string)
    requires Lawful(tools) && Left(tools, d, modeled, up, files, pin, document) && !d.vendored && modeled != []
    requires BytesApart(tools, d, up, now) && CutsApart(tools, document.content.covered, content.covered)
    requires var next := Cut(tools, d, content, now, Some(pin), today);
             TextsApart(tools, tools.render(next), tools.render(document))
    requires Failed(now, d.sources) == {} && tools.cut(d, Blobs(now, d.sources), Spelled(modeled)) == Some(content)
    ensures var next := Cut(tools, d, content, now, Some(pin), today);
            var cutMoved, moved := content.covered != document.content.covered, Differing(d, up, now);
            Verified(tools, d, files.(extract := Some(tools.render(next))))
            == Ok(Outcome(cutMoved && moved != {}, cutMoved || !(content.covered.stubbed <= d.stubsAccepted),
                          if cutMoved then {} else moved, {}))
  {
    var next := Cut(tools, d, content, now, Some(pin), today);
    CutContent(tools, d, now, Some(pin), today, content);
    LeftReadsBack(tools, d, modeled, up, files, pin, document);
    SameDocument(tools, d, modeled, up, files, pin, document, today);
    MovedAre(tools, d, modeled, up, files, pin, document, now, content, today);
    LeftRows(tools, d, modeled, up, files, pin, document);
    CutRows(tools, d, content, now, Some(pin), today);
    MovedUrlsAre(tools, d, up, now, next.sources, pin);
    assert Made(tools, next.content);
    assert content.covered.hooks == Names(d.webhooks) && tools.parse(tools.render(next)) == next;
    assert tools.sha(tools.render(next)) == pin.extractSha <==> next == document;
    hide Left, Lawful, Cut, NewPin, MovedUrls, MovedRows, Differing, Urls, PinnedUrls, RowsOfBytes;
    assert tools.cutSha(content.covered) == pin.cutSha <==> content.covered == document.content.covered;
  }

  lemma LeftRows(tools: Tools, d: Declaration, modeled: seq<Route>, up: Upstream, files: Files, pin: Pin,
                 document: Document)
    requires Left(tools, d, modeled, up, files, pin, document) && Lawful(tools)
    ensures RowsOfBytes(tools, pin.sources, d, up)
  {
    var before, fetched :| document == Cut(tools, d, document.content, up, before, fetched);
    LeftReadsBack(tools, d, modeled, up, files, pin, document);
    hide Left, Lawful, Cut, NewPin;
    CutRows(tools, d, document.content, up, before, fetched);
  }

  /**
   A cache filled after the upstream moved is judged by its cut: accepted as a chore when what the digest covers is
   unchanged, a finding when it is not.
   */
  lemma DriftedCacheIsJudgedByItsCut(tools: Tools, d: Declaration, modeled: seq<Route>, up: Upstream, files: Files,
                                     pin: Pin,
                                     document: Document, now: Upstream, content: Content, checkProse: bool,
                                     today: string)
    requires Lawful(tools) && Left(tools, d, modeled, up, files, pin, document) && !d.vendored
    requires BytesApart(tools, d, up, now) && CutsApart(tools, document.content.covered, content.covered)
    requires var next := Cut(tools, d, content, now, Some(pin), today);
             TextsApart(tools, tools.render(next), tools.render(document))
    requires modeled != [] && (forall i :: 0 <= i < |modeled| ==> Proper(modeled[i]))
    requires Failed(now, d.sources) == {} && !tools.leaks(Blobs(now, d.sources))
    requires tools.cut(d, Blobs(now, d.sources), Spelled(modeled)) == Some(content)
    ensures var after := Populated(tools, d, now, checkProse, today, files.(extract := None));
            var cutMoved, moved := content.covered != document.content.covered, Differing(d, up, now);
            && after.1.Ok? && after.1.value.drift == moved && after.1.value.cutMatches == Some(!cutMoved)
            && Verified(tools, d, after.0)
               == Ok(Outcome(cutMoved && moved != {}, cutMoved || !(content.covered.stubbed <= d.stubsAccepted),
                             if cutMoved then {} else moved, {}))
  {
    LeftReadsBack(tools, d, modeled, up, files, pin, document);
    MovedAre(tools, d, modeled, up, files, pin, document, now, content, today);
    NothingFailed(now, d.sources);
    PinnedRoutes(tools, d, modeled, up, files, pin, document);
    RecutIsJudgedByItsCut(tools, d, modeled, up, files, pin, document, now, content, today);
    var next := Cut(tools, d, content, now, Some(pin), today);
    DriftIsMoved(next.sources, pin);
    assert tools.cutSha(content.covered) == pin.cutSha <==> content.covered == document.content.covered;
    assert pin.cutSha != "" && files.pin.Some?;
    hide Cut, NewPin, Modeled, Drift, FirstFailed, MovedRows, SomeNew, SomeGone, ToJson, Verified, Left, Lawful,
        BytesApart, Differing;
  }

  // With no new source, what drifted is what moved.
  lemma DriftIsMoved(rows: seq<SourceRow>, pin: Pin)
    requires !SomeNew(rows, Some(pin))
    ensures Drift(rows, pin) == MovedRows(rows, Some(pin))
  {
    hide Pinned;
    assert forall i :: 0 <= i < |rows| ==> Pinned(Some(pin), rows[i].url).Some?;
  }
}
