/** Lookups in the embedded documents: a catalogue, a document, its headings or one section, a page at a time. */
module Reference {
  import opened Common
  import opened Headings
  import opened Paging
  import Utf8

  datatype Doc = Doc(id: string, source: string, content: string)

  function JoinLines(lines: seq<string>): string {
    if lines == [] then "" else if |lines| == 1 then lines[0] else lines[0] + ['\n'] + JoinLines(lines[1..])
  }

  /** Lines are joined by line breaks, with none at either end. */
  lemma {:induction false} JoinNext(lines: seq<string>, line: string)
    ensures JoinLines([]) == "" && JoinLines([line]) == line
    ensures lines != [] ==> JoinLines(lines + [line]) == JoinLines(lines) + "\n" + line
  {
    if |lines| > 1 {
      JoinNext(lines[1..], line);
      assert (lines + [line])[1..] == lines[1..] + [line];
    } else if |lines| == 1 {
      assert (lines + [line])[1..] == [line];
    }
  }

  function Catalogue(docs: seq<Doc>): seq<string> {
    seq(|docs|, i requires 0 <= i < |docs| => docs[i].id + ": " + docs[i].source)
  }

  function Titles(hs: seq<Heading>): seq<string> {
    seq(|hs|, i requires 0 <= i < |hs| => hs[i].title)
  }

  /** The short names of the syntax document's sections. */
  const TOPICS: map<string, string> := map[
    "kql" := "2. KQL — Read", "kml" := "3. KML — Write", "meta" := "4. META — Ground, Verify, Inspect",
    "envelope" := "5. Runtime Envelope"
  ]

  function TitleOf(document: string, section: string): string {
    if document == "syntax" && section in TOPICS then TOPICS[section] else section
  }

  ghost predicate IsFirst(docs: seq<Doc>, document: string, d: nat) {
    d < |docs| && docs[d].id == document && forall k :: 0 <= k < d ==> docs[k].id != document
  }

  /** The text a request selects in one document. */
  ghost predicate Selects(content: string, document: string, section: Option<string>, text: string) {
    if section.None? then text == content
    else if section.value == "index" then text == JoinLines(Titles(HeadingsIn(content)))
    else
      var title := if document == "syntax" && section.value in TOPICS then TOPICS[section.value] else section.value;
      IsSection(content, HeadingsIn(content), title, text)
  }

  /** The text of a section, if it is there once. */
  method SelectIn(content: string, document: string, section: Option<string>) returns (text: Option<string>)
    ensures forall t :: Selects(content, document, section, t) <==> text == Some(t)
  {
    if section.None? {
      return Some(content);
    }
    if section.value == "index" {
      var hs := ScanText(content);
      return Some(JoinLines(Titles(hs)));
    }
    text := ReadSection(content, TitleOf(document, section.value));
  }

  /** What a request selects: the catalogue, or some text of the first document with its id. */
  ghost predicate Requested(docs: seq<Doc>, document: string, section: Option<string>, text: string) {
    if document == "index" then section.None? && text == JoinLines(Catalogue(docs))
    else exists d: nat :: IsFirst(docs, document, d) && Selects(docs[d].content, document, section, text)
  }

  lemma FirstSelects(docs: seq<Doc>, document: string, d: nat, section: Option<string>, text: string)
    requires document != "index" && IsFirst(docs, document, d)
    ensures Requested(docs, document, section, text) <==> Selects(docs[d].content, document, section, text)
  {
    if Requested(docs, document, section, text) {
      var k: nat :| IsFirst(docs, document, k) && Selects(docs[k].content, document, section, text);
      assert k == d;
    }
  }

  /** The text a request selects, which is one text at most. */
  method Select(docs: seq<Doc>, document: string, section: Option<string>) returns (text: Option<string>)
    ensures forall t :: Requested(docs, document, section, t) <==> text == Some(t)
  {
    if document == "index" {
      text := if section.Some? then None else Some(JoinLines(Catalogue(docs)));
      return;
    }
    var d := 0;
    while d < |docs| && docs[d].id != document
      invariant d <= |docs| && forall k :: 0 <= k < d ==> docs[k].id != document
    {
      d := d + 1;
    }
    if d == |docs| {
      return None;
    }
    text := SelectIn(docs[d].content, document, section);
    forall t
      ensures Requested(docs, document, section, t) <==> text == Some(t)
    {
      FirstSelects(docs, document, d, section, t);
    }
  }

  /** `readReference`: a page of what the request selects in the compiled-in documents, refused exactly if it selects
      nothing or the offset is no character boundary of it. */
  method ReadReference(docs: seq<Doc>, document: string, section: Option<string>, offset: int) returns (r: Option<Page>)
    ensures r.Some? <==> exists text :: Requested(docs, document, section, text) && Utf8.IsBoundary(text, offset)
    ensures r.Some? ==> exists text :: Requested(docs, document, section, text) && IsPageOf(text, offset, r.value)
  {
    var text := Select(docs, document, section);
    if text.None? {
      return None;
    }
    assert Requested(docs, document, section, text.value);
    r := ReadPage(text.value, offset);
  }

  ghost predicate IsPageOf(text: string, offset: int, p: Page) {
    exists i: nat, j: nat :: i <= |text| && Utf8.BoundaryAt(text, i) == offset && Covers(text, p, i, j)
  }
}
