/**
 The laws asked of the tools can be met, and a refresh can write under them: a rendering that is read back, over every
 list of source rows and over extracts that differ whenever the bytes do.
 */
module LawfulTools {
  import opened Wrappers
  import opened JsonTree
  import opened Pins

  // A text with its end marked, each character quoted.
  function Framed(s: string): string {
    if s == "" then "." else ['\'', s[0]] + Framed(s[1..])
  }

  function Unframed(t: string): (r: (string, string))
    ensures |r.1| <= |t| && (t != "" ==> |r.1| < |t|)
  {
    if t == "" then ("", "")
    else if t[0] == '.' then ("", t[1..])
    else if |t| == 1 then ("", "")
    else var rest := Unframed(t[2..]); ([t[1]] + rest.0, rest.1)
  }

  lemma {:induction false} UnframeFramed(s: string, rest: string)
    ensures Unframed(Framed(s) + rest) == (s, rest)
  {
    var t := Framed(s) + rest;
    if s == "" {
      assert t[1..] == rest;
    } else {
      assert t == ['\'', s[0]] + (Framed(s[1..]) + rest);
      assert t[2..] == Framed(s[1..]) + rest;
      UnframeFramed(s[1..], rest);
      assert s == [s[0]] + s[1..];
    }
  }

  function Strokes(n: nat): (s: string)
    ensures |s| == n
  {
    seq(n, i => '1')
  }

  function RowText(row: SourceRow): string {
    Framed(row.url) + (Framed(row.tag) + (Framed(row.sha256)
    + (Framed(Strokes(row.bytes)) + (Framed(row.version) + Framed(row.fetched)))))
  }

  function RowRead(t: string): (r: (SourceRow, string))
    ensures |r.1| <= |t|
  {
    var url := Unframed(t);
    var tag := Unframed(url.1);
    var sha256 := Unframed(tag.1);
    var bytes := Unframed(sha256.1);
    var version := Unframed(bytes.1);
    var fetched := Unframed(version.1);
    (SourceRow(url.0, tag.0, sha256.0, |bytes.0|, version.0, fetched.0), fetched.1)
  }

  lemma RowReadText(row: SourceRow, rest: string)
    ensures RowRead(RowText(row) + rest) == (row, rest)
  {
    hide Framed, Unframed;
    var f := Framed(row.fetched) + rest;
    var v := Framed(row.version) + f;
    var b := Framed(Strokes(row.bytes)) + v;
    var s := Framed(row.sha256) + b;
    var t := Framed(row.tag) + s;
    assert RowText(row) + rest == Framed(row.url) + t;
    UnframeFramed(row.url, t);
    UnframeFramed(row.tag, s);
    UnframeFramed(row.sha256, b);
    UnframeFramed(Strokes(row.bytes), v);
    UnframeFramed(row.version, f);
    UnframeFramed(row.fetched, rest);
  }

  function RowsText(rows: seq<SourceRow>): string {
    if rows == [] then "" else "+" + (RowText(rows[0]) + RowsText(rows[1..]))
  }

  function RowsRead(t: string): seq<SourceRow>
    decreases |t|
  {
    if t == "" then [] else var row := RowRead(t[1..]); [row.0] + RowsRead(row.1)
  }

  lemma {:induction false} RowsReadText(rows: seq<SourceRow>)
    ensures RowsRead(RowsText(rows)) == rows
  {
    if rows != [] {
      hide RowText, RowRead;
      assert RowsText(rows)[1..] == RowText(rows[0]) + RowsText(rows[1..]);
      RowReadText(rows[0], RowsText(rows[1..]));
      RowsReadText(rows[1..]);
      assert rows == [rows[0]] + rows[1..];
    }
  }

  function BlobsText(blobs: seq<string>): string {
    if blobs == [] then "" else Framed(blobs[0]) + BlobsText(blobs[1..])
  }

  lemma {:induction false} BlobsApart(a: seq<string>, b: seq<string>)
    requires BlobsText(a) == BlobsText(b)
    ensures a == b
  {
    hide Framed;
    FramedNotEmpty(a);
    FramedNotEmpty(b);
    if a != [] && b != [] {
      UnframeFramed(a[0], BlobsText(a[1..]));
      UnframeFramed(b[0], BlobsText(b[1..]));
      BlobsApart(a[1..], b[1..]);
      assert a == [a[0]] + a[1..] && b == [b[0]] + b[1..];
    }
  }

  lemma FramedNotEmpty(blobs: seq<string>)
    ensures BlobsText(blobs) == "" <==> blobs == []
  {
  }

  // An extract that holds the bytes it was cut from, for a declaration without webhooks.
  function ContentOf(text: string): Content {
    Content(Covered(Str(text), {}, {}), Null)
  }

  function TextOf(covered: Covered): string {
    if covered.cut.Str? then covered.cut.text else ""
  }

  function CutFor(d: Declaration, blobs: seq<string>, routes: seq<Route>): Option<Content> {
    if d.webhooks == [] then Some(ContentOf(BlobsText(blobs))) else None
  }

  function Rendered(document: Document): string {
    Framed(TextOf(document.content.covered)) + RowsText(document.sources)
  }

  function Parsed(text: string): Document {
    Document(RowsRead(Unframed(text).1), ContentOf(Unframed(text).0))
  }

  function Digest(covered: Covered): string {
    Framed(TextOf(covered))
  }

  function ToolsOf(): Tools {
    Tools(
      (text: string) => text,
      (d: Declaration, blobs: seq<string>, routes: seq<Route>) => CutFor(d, blobs, routes),
      (source: SpecSource, data: string) => source.tag,
      (source: SpecSource, data: string) => "1",
      (document: Document) => Rendered(document),
      (text: string) => Parsed(text),
      (covered: Covered) => Digest(covered),
      (covered: Covered) => map[],
      (names: set<string>) => [],
      (blobs: seq<string>) => false)
  }

  lemma ToolsAre(tools: Tools)
    requires tools == ToolsOf()
    ensures forall text :: tools.sha(text) == text
    ensures forall d, blobs, routes :: tools.cut(d, blobs, routes) == CutFor(d, blobs, routes)
    ensures forall document :: tools.render(document) == Rendered(document)
    ensures forall text :: tools.parse(text) == Parsed(text)
    ensures forall covered :: tools.cutSha(covered) == Digest(covered)
  {
    hide CutFor, Rendered, Parsed, Digest;
  }

  // Other bytes, another extract.
  ghost predicate Telling(tools: Tools) {
    forall d: Declaration, a, b, routes :: d.webhooks == [] && tools.cut(d, a, routes) == tools.cut(d, b, routes)
      ==> a == b
  }

  // No two texts, and no two extracts that are ever cut, have one digest.
  ghost predicate NeverCollides(tools: Tools) {
    && (forall a, b :: TextsApart(tools, a, b))
    && (forall a, b :: Made(tools, a) && Made(tools, b) ==> CutsApart(tools, a.covered, b.covered))
  }

  lemma LawsCanBeMet(d: Declaration, modeled: seq<Route>, up: Upstream, fetched: string)
    requires d.webhooks == [] && d.sources != [] && Fetched(up, d.sources)
    ensures var tools := ToolsOf();
            && Lawful(tools) && Telling(tools) && NeverCollides(tools)
            && Wrote(Files(None, None), Refreshed(tools, d, modeled, up, false, fetched, Files(None, None)), false)
  {
    hide ToolsOf, Rendered, Parsed, Digest, Framed, BlobsText, Refreshed, Wrote, Lawful, Telling, NeverCollides;
    var tools := ToolsOf();
    ToolsAre(tools);
    ToolsAreLawful(tools);
    ToolsAreTelling(tools);
    ToolsNeverCollide(tools);
    FirstRefreshWrites(tools, d, modeled, up, fetched);
  }

  lemma ToolsAreLawful(tools: Tools)
    requires tools == ToolsOf()
    ensures Lawful(tools)
  {
    hide ToolsOf, Framed, Unframed, BlobsText, RowsText, RowsRead;
    ToolsAre(tools);
    forall document: Document | Made(tools, document.content) ensures tools.parse(tools.render(document)) == document {
      UnframeFramed(TextOf(document.content.covered), RowsText(document.sources));
      RowsReadText(document.sources);
    }
    FramedApart();
  }

  lemma ToolsAreTelling(tools: Tools)
    requires tools == ToolsOf()
    ensures Telling(tools)
  {
    hide ToolsOf, BlobsText, Rendered, Parsed, Digest;
    ToolsAre(tools);
    forall d: Declaration, a, b, routes | d.webhooks == [] && tools.cut(d, a, routes) == tools.cut(d, b, routes)
      ensures a == b
    {
      assert ContentOf(BlobsText(a)).covered.cut.text == ContentOf(BlobsText(b)).covered.cut.text;
      BlobsApart(a, b);
    }
  }

  lemma ToolsNeverCollide(tools: Tools)
    requires tools == ToolsOf()
    ensures NeverCollides(tools)
  {
    hide ToolsOf, Framed, BlobsText, Rendered, Parsed;
    ToolsAre(tools);
    FramedApart();
  }

  lemma FramedApart()
    ensures forall s, t :: Framed(s) == Framed(t) ==> s == t
    ensures forall s :: Framed(s) != ""
  {
    forall s, t | Framed(s) == Framed(t) ensures s == t {
      UnframeFramed(s, "");
      UnframeFramed(t, "");
      assert Framed(s) + "" == Framed(t) + "";
    }
  }

  // With nothing pinned every source is new.
  lemma FirstRefreshWrites(tools: Tools, d: Declaration, modeled: seq<Route>, up: Upstream, fetched: string)
    requires tools.cut(d, Blobs(up, d.sources), Spelled(modeled)).Some?
    requires d.sources != [] && Fetched(up, d.sources)
    ensures Wrote(Files(None, None), Refreshed(tools, d, modeled, up, false, fetched, Files(None, None)), false)
  {
    assert Failed(up, d.sources) == {};
    var content := tools.cut(d, Blobs(up, d.sources), Spelled(modeled)).value;
    var document := Cut(tools, d, content, up, None, fetched);
    assert Pinned(None, document.sources[0].url).None?;
    assert SomeNew(document.sources, None);
  }
}
