/** The two files as they stand on disk, and the operations that read and write them step by step. */
module Workspaces {
  import opened Wrappers
  import opened Pins
  import opened Caches

  class Workspace {
    var pin: Option<PinFile>
    var extract: Option<string>

    ghost function OnDisk(): Files
      reads this
    {
      Files(pin, extract)
    }

    constructor ()
      ensures OnDisk() == Files(None, None)
    {
      pin := None;
      extract := None;
    }

    /** Every source is fetched, whatever the one before it did. */
    static method FetchAll(d: Declaration, up: Upstream) returns (blobs: seq<string>, failures: set<string>)
      ensures failures == Failed(up, d.sources)
      ensures failures == {} ==> blobs == Blobs(up, d.sources)
    {
      blobs, failures := [], {};
      for i := 0 to |d.sources|
        invariant failures == Failed(up, d.sources[..i])
        invariant failures == {} ==> blobs == Blobs(up, d.sources[..i])
      {
        FailedMore(up, d.sources, i);
        match up(d.sources[i].url)
        case Some(data) => blobs := blobs + [data];
        case None => failures := failures + {d.sources[i].url};
      }
      assert d.sources[..|d.sources|] == d.sources;
    }

    /** Each row is stamped in place; the loop gathers what moved and whether anything is new. */
    static method StampAll(rows: seq<SourceRow>, pin: Option<Pin>) returns (stamped: seq<SourceRow>,
                           moved: set<string>, anyNew: bool)
      ensures stamped == StampedRows(rows, pin)
      ensures moved == MovedRows(stamped, pin) && anyNew == SomeNew(stamped, pin)
    {
      hide Pinned;
      stamped, moved, anyNew := rows, {}, false;
      for i := 0 to |rows|
        invariant |stamped| == |rows| && stamped[i..] == rows[i..]
        invariant stamped[..i] == StampedRows(rows[..i], pin)
        invariant moved == MovedRows(rows[..i], pin) && anyNew == SomeNew(rows[..i], pin)
      {
        var row := stamped[i];
        assert row == rows[i];
        MovedMore(rows, pin, i);
        var pinned := Pinned(pin, row.url);
        if pinned.Some? && pinned.value.sha256 == row.sha256 {
          stamped := stamped[i := row.(fetched := pinned.value.fetched)];
        } else if pinned.None? {
          anyNew := true;
        } else {
          moved := moved + {row.url};
        }
        assert stamped[i + 1..] == rows[i + 1..];
        assert rows[..i + 1] == rows[..i] + [rows[i]];
        assert stamped[..i + 1] == stamped[..i] + [Stamped(row, pin)];
      }
      assert rows[..|rows|] == rows && stamped[..|rows|] == stamped;
      StampedMoves(rows, pin);
    }

    /** Whether a pinned source is no longer declared. */
    static method AnyGone(pin: Option<Pin>, d: Declaration) returns (gone: bool)
      ensures gone == SomeGone(pin, d.sources)
    {
      gone := false;
      if pin.Some? {
        var sources := pin.value.sources;
        for i := 0 to |sources|
          invariant gone == !(PinnedUrls(sources[..i]) <= Urls(d.sources))
        {
          PinnedUrlsMore(sources, i);
          if sources[i].url !in Urls(d.sources) { gone := true; }
        }
        assert sources[..|sources|] == sources;
      }
    }

    static method Unfetched(tools: Tools, d: Declaration, up: Upstream, pin: Option<Pin>) returns (changed: bool)
      ensures changed == UnfetchedChanged(tools, up, d.sources, pin)
    {
      hide Unmoved;
      changed := AnyGone(pin, d);
      for i := 0 to |d.sources|
        invariant changed == (SomeGone(pin, d.sources) ||
                              exists k :: 0 <= k < i && up(d.sources[k].url).Some?
                                          && !Unmoved(RowOf(tools, d.sources[k], Bytes(up, d.sources[k]), ""), pin))
      {
        if up(d.sources[i].url).Some? && !Unmoved(RowOf(tools, d.sources[i], Bytes(up, d.sources[i]), ""), pin) {
          changed := true;
        }
      }
    }

    /** `refresh` */
    method Refresh(tools: Tools, d: Declaration, modeled: seq<Route>, up: Upstream, check: bool, fetched: string)
      returns (result: Result<Outcome, Trouble>)
      modifies this
      ensures (OnDisk(), result) == Refreshed(tools, d, modeled, up, check, fetched, old(OnDisk()))
    {
      hide UnfetchedChanged, MovedRows, SomeNew, SomeGone, StampedRows, Failed, Blobs, FromExtract, ToJson;
      var oldPin := None;
      if pin.Some? {
        oldPin := ReadPin(pin.value);
        if oldPin.None? { return Err(PinUnreadable); }
      }
      var oldText := extract;
      var blobs, failures := FetchAll(d, up);
      if failures != {} {
        var changed := Unfetched(tools, d, up, oldPin);
        return Ok(Outcome(changed, false, {}, failures));
      }
      var content := tools.cut(d, blobs, Spelled(modeled));
      if content.None? { return Err(CutRaised); }
      var rows, moved, changedUpstream := StampAll(Rows(tools, up, d.sources, fetched), oldPin);
      var document := Document(rows, content.value);
      var gone := AnyGone(oldPin, d);
      if gone { changedUpstream := true; }
      var newText := tools.render(document);
      var newPin := FromExtract(tools, document, newText, if d.vendored then [] else modeled);
      var changedExtract := PinnedCut(tools, oldPin, oldText, d.vendored) != Some(tools.cutSha(content.value.covered));
      if changedExtract && moved != {} {
        changedUpstream, moved := true, {};
      }
      if d.vendored && oldPin.Some? && oldText.Some? && tools.sha(oldText.value) != oldPin.value.extractSha {
        changedExtract := true;
      } else if oldPin.Some? && !changedUpstream && !changedExtract && moved == {} && !PinsAgree(oldPin.value, newPin) {
        changedUpstream := true;
      }
      if !check && (changedUpstream || changedExtract || moved != {}) {
        extract := Some(newText);
        pin := Some(ToJson(newPin));
      }
      result := Ok(Outcome(changedUpstream, changedExtract, moved, {}));
    }

    /** The sources one after the other, until one cannot be fetched. */
    static method FetchInOrder(d: Declaration, up: Upstream) returns (blobs: seq<string>, failed: Option<string>)
      ensures failed == FirstFailed(up, d.sources)
      ensures failed.None? ==> blobs == Blobs(up, d.sources)
    {
      hide FirstFailed;
      blobs := [];
      for i := 0 to |d.sources|
        invariant blobs == Blobs(up, d.sources[..i])
        invariant FirstFailed(up, d.sources) == FirstFailed(up, d.sources[i..])
      {
        FirstFailedStep(up, d.sources[i..]);
        match up(d.sources[i].url)
        case Some(data) => blobs := blobs + [data];
        case None => return blobs, Some(d.sources[i].url);
      }
      FirstFailedStep(up, []);
      assert d.sources[|d.sources|..] == [] && d.sources[..|d.sources|] == d.sources;
      failed := None;
    }

    /** `populate` */
    method Populate(tools: Tools, d: Declaration, up: Upstream, checkProse: bool, today: string)
      returns (result: Result<CacheResult, CacheTrouble>)
      modifies this`extract
      ensures (OnDisk(), result) == Populated(tools, d, up, checkProse, today, old(OnDisk()))
    {
      hide MovedRows, SomeNew, StampedRows, Pinned, FirstFailed, Modeled, ReadPin;
      if pin.None? { return Err(NoPin); }
      if ReadPin(pin.value).None? { return Err(Unreadable); }
      var p := ReadPin(pin.value).value;
      if extract.Some? && tools.sha(extract.value) == p.extractSha {
        var hit := CacheResult(tools.parse(extract.value), true, {}, false, false, None, false);
        if !checkProse { return Ok(hit); }
        var fetched, unfetched := FetchInOrder(d, up);
        if unfetched.Some? { return Ok(hit.(proseUnchecked := true)); }
        if tools.leaks(fetched) { return Err(ProseLeak); }
        return Ok(hit);
      }
      if Modeled(p).Err? { return Err(Modeled(p).error); }
      var blobs, failed := FetchInOrder(d, up);
      if failed.Some? {
        if extract.Some? { return Ok(CacheResult(tools.parse(extract.value), false, {}, true, true, None, false)); }
        return Err(Unavailable(failed.value));
      }
      if tools.leaks(blobs) { return Err(ProseLeak); }
      var content := tools.cut(d, blobs, Spelled(Modeled(p).value));
      if content.None? { return Err(NotCut); }
      var rows, moved, anyNew := StampAll(Rows(tools, up, d.sources, today), Some(p));
      var document := Document(rows, content.value);
      var drift := Drift(rows, p);
      var text := tools.render(document);
      extract := Some(text);
      var matches := if p.cutSha != "" then Some(tools.cutSha(content.value.covered) == p.cutSha) else None;
      result := Ok(CacheResult(document, false, drift, drift == {} && tools.sha(text) != p.extractSha, false, matches,
          false));
    }
  }

  lemma FirstFailedStep(up: Upstream, sources: seq<SpecSource>)
    ensures FirstFailed(up, sources)
         == if sources == [] then None
            else if up(sources[0].url).None? then Some(sources[0].url) else FirstFailed(up, sources[1..])
  {
  }

  lemma FailedMore(up: Upstream, sources: seq<SpecSource>, i: nat)
    requires i < |sources|
    ensures Failed(up, sources[..i + 1])
        == Failed(up, sources[..i]) + if up(sources[i].url).None? then {sources[i].url} else {}
  {
    assert forall k :: 0 <= k <= i ==> sources[..i + 1][k] == sources[k];
    assert forall k :: 0 <= k < i ==> sources[..i][k] == sources[..i + 1][k];
    assert sources[..i + 1][i] == sources[i];
  }

  lemma MovedMore(rows: seq<SourceRow>, pin: Option<Pin>, i: nat)
    requires i < |rows|
    ensures var found := Pinned(pin, rows[i].url);
            && MovedRows(rows[..i + 1], pin)
               == MovedRows(rows[..i], pin)
                   + (if found.Some? && found.value.sha256 != rows[i].sha256 then {rows[i].url} else {})
            && (SomeNew(rows[..i + 1], pin) <==> SomeNew(rows[..i], pin) || found.None?)
  {
    hide Pinned;
    assert forall k :: 0 <= k <= i ==> rows[..i + 1][k] == rows[k];
    assert forall k :: 0 <= k < i ==> rows[..i][k] == rows[..i + 1][k];
    assert rows[..i + 1][i] == rows[i];
  }

  lemma PinnedUrlsMore(sources: seq<PinnedSource>, i: nat)
    requires i < |sources|
    ensures PinnedUrls(sources[..i + 1]) == PinnedUrls(sources[..i]) + {sources[i].url}
  {
    assert forall k :: 0 <= k <= i ==> sources[..i + 1][k] == sources[k];
    assert forall k :: 0 <= k < i ==> sources[..i][k] == sources[..i + 1][k];
    assert sources[..i + 1][i] == sources[i];
  }

  // Stamping changes no URL and no digest.
  lemma StampedMoves(rows: seq<SourceRow>, pin: Option<Pin>)
    ensures MovedRows(StampedRows(rows, pin), pin) == MovedRows(rows, pin)
        && SomeNew(StampedRows(rows, pin), pin) == SomeNew(rows, pin)
  {
    hide Pinned;
    var stamped := StampedRows(rows, pin);
    assert forall i :: 0 <= i < |rows| ==>
        stamped[i].url == rows[i].url && Unmoved(stamped[i], pin) == Unmoved(rows[i], pin);
    forall url ensures url in MovedRows(stamped, pin) <==> url in MovedRows(rows, pin) {
      if url in MovedRows(rows, pin) {
        var i :| 0 <= i < |rows| && Pinned(pin, rows[i].url).Some? && !Unmoved(rows[i], pin) && rows[i].url == url;
        assert stamped[i].url == url;
      }
    }
    if i :| 0 <= i < |rows| && Pinned(pin, rows[i].url).None? {
      assert Pinned(pin, stamped[i].url).None?;
    }
  }
}
