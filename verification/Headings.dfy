/** The headings of an embedded document, and the sections they cut it into. */
module Headings {
  import opened Common
  import opened LineMarks

  // ── Fences ─────────────────────────────────────────────────────────────

  /** A line that ends a fence: its marker, at least as long, and nothing else. */
  predicate Closes(line: Line, fence: Fence) {
    line.marker.Some? && line.marker.value.marker == fence.marker && line.marker.value.length >= fence.length && line.bare
  }

  /** The fence open before line `k`. */
  function OpenBefore(lines: seq<Line>, k: nat): Option<Fence>
    requires k <= |lines|
  {
    if k == 0 then None
    else
      var open := OpenBefore(lines, k - 1);
      if open.Some? then if Closes(lines[k - 1], open.value) then None else open
      else lines[k - 1].marker
  }

  /** A fence opened at line `j` and is still open before line `k`. */
  ghost predicate FencedSince(lines: seq<Line>, j: nat, k: nat, fence: Fence)
    requires k <= |lines|
  {
    && j < k && OpenBefore(lines, j).None? && lines[j].marker == Some(fence)
    && forall m :: j < m < k ==> !IsClosing(lines[m], fence)
  }

  /** A line with the marker of a fence, at least as long, and nothing after it. */
  ghost predicate IsClosing(line: Line, fence: Fence) {
    line.bare && exists n: nat :: n >= fence.length && line.marker == Some(Fence(fence.marker, n))
  }

  lemma {:induction false} OpenedSomewhere(lines: seq<Line>, k: nat, fence: Fence)
    requires k <= |lines| && OpenBefore(lines, k) == Some(fence)
    ensures exists j :: 0 <= j < k && FencedSince(lines, j, k, fence)
    decreases k
  {
    if OpenBefore(lines, k - 1) == Some(fence) {
      OpenedSomewhere(lines, k - 1, fence);
      var j :| 0 <= j < k - 1 && FencedSince(lines, j, k - 1, fence);
      assert FencedSince(lines, j, k, fence);
    } else {
      assert FencedSince(lines, k - 1, k, fence);
    }
  }

  lemma {:induction false} StaysOpen(lines: seq<Line>, j: nat, k: nat, fence: Fence)
    requires k <= |lines| && FencedSince(lines, j, k, fence)
    ensures OpenBefore(lines, k) == Some(fence)
    decreases k
  {
    if j < k - 1 {
      StaysOpen(lines, j, k - 1, fence);
    }
  }

  /** A line is inside a fence exactly when a line before it opened one outside any other and none since closed it. */
  lemma InsideExactly(lines: seq<Line>, k: nat, fence: Fence)
    requires k <= |lines|
    ensures OpenBefore(lines, k) == Some(fence) <==> exists j :: 0 <= j < k && FencedSince(lines, j, k, fence)
  {
    if OpenBefore(lines, k) == Some(fence) {
      OpenedSomewhere(lines, k, fence);
    }
    forall j | 0 <= j < k && FencedSince(lines, j, k, fence)
      ensures OpenBefore(lines, k) == Some(fence)
    {
      StaysOpen(lines, j, k, fence);
    }
  }

  // ── Headings ───────────────────────────────────────────────────────────

  datatype Heading = Heading(offset: nat, level: nat, title: string)

  function OffsetOf(lines: seq<Line>, k: nat): nat
    requires k <= |lines|
  {
    if k == 0 then 0 else OffsetOf(lines, k - 1) + lines[k - 1].length
  }

  /** The heading that line `k` is, if it is one: outside any fence, and no fence line itself. */
  function HeadingAt(lines: seq<Line>, k: nat): Option<Heading>
    requires k < |lines|
  {
    if OpenBefore(lines, k).Some? || lines[k].marker.Some? || lines[k].heading.None? then None
    else Some(Heading(OffsetOf(lines, k), lines[k].heading.value.0, lines[k].heading.value.1))
  }

  function HeadingsOf(lines: seq<Line>, k: nat): seq<Heading>
    requires k <= |lines|
  {
    if k == 0 then []
    else HeadingsOf(lines, k - 1) + if HeadingAt(lines, k - 1).Some? then [HeadingAt(lines, k - 1).value] else []
  }

  /** The scan, line by line. */
  method Scan(lines: seq<Line>) returns (result: seq<Heading>)
    ensures result == HeadingsOf(lines, |lines|)
  {
    var offset, fence := 0, None;
    result := [];
    for k := 0 to |lines|
      invariant offset == OffsetOf(lines, k) && fence == OpenBefore(lines, k) && result == HeadingsOf(lines, k)
    {
      var line := lines[k];
      if fence.Some? {
        if Closes(line, fence.value) {
          fence := None;
        }
      } else if line.marker.Some? {
        fence := line.marker;
      } else if line.heading.Some? {
        result := result + [Heading(offset, line.heading.value.0, line.heading.value.1)];
      }
      offset := offset + line.length;
    }
  }

  /** The headings are exactly the heading lines, each at its own place; none is inside a fence. */
  lemma {:induction false} HeadingsExactly(lines: seq<Line>, n: nat, h: Heading)
    requires n <= |lines|
    ensures h in HeadingsOf(lines, n) <==> exists k :: 0 <= k < n && HeadingAt(lines, k) == Some(h)
    decreases n
  {
    if n > 0 {
      HeadingsExactly(lines, n - 1, h);
    }
  }

  ghost predicate Ascending(hs: seq<Heading>) {
    forall i, j :: 0 <= i < j < |hs| ==> hs[i].offset < hs[j].offset
  }

  lemma {:induction false} HeadingsAscend(lines: seq<Line>, n: nat)
    requires n <= |lines| && forall k :: 0 <= k < |lines| ==> lines[k].length > 0
    ensures Ascending(HeadingsOf(lines, n))
    ensures forall h :: h in HeadingsOf(lines, n) ==> h.offset < OffsetOf(lines, n)
  {
    if n > 0 {
      HeadingsAscend(lines, n - 1);
    }
  }

  // ── Sections ───────────────────────────────────────────────────────────

  /** Where the section of heading `i` ends: at the first later heading of its rank or higher, else at the end. */
  function EndFrom(hs: seq<Heading>, i: nat, k: nat, length: nat): nat
    requires i < |hs|
    decreases |hs| - k
  {
    if k >= |hs| then length else if hs[k].offset > hs[i].offset && hs[k].level <= hs[i].level then hs[k].offset
    else EndFrom(hs, i, k + 1, length)
  }

  function SectionEnd(hs: seq<Heading>, i: nat, length: nat): nat
    requires i < |hs|
  {
    EndFrom(hs, i, 0, length)
  }

  ghost predicate Within(hs: seq<Heading>, length: nat) {
    Ascending(hs) && forall i :: 0 <= i < |hs| ==> hs[i].offset < length
  }

  /** The end of a section, by what follows it: no later heading before it has its rank, and one at it has. */
  ghost predicate EndsAt(hs: seq<Heading>, i: nat, length: nat, end: nat)
    requires i < |hs|
  {
    && hs[i].offset < end <= length
    && (forall k :: i < k < |hs| && hs[k].offset < end ==> hs[k].level > hs[i].level)
    && (end < length ==> exists k :: i < k < |hs| && hs[k].offset == end && hs[k].level <= hs[i].level)
  }

  lemma {:induction false} EndFromIs(hs: seq<Heading>, i: nat, k: nat, length: nat)
    requires Within(hs, length) && i < |hs| && k <= |hs|
    requires forall m :: i < m < k ==> hs[m].level > hs[i].level
    ensures EndsAt(hs, i, length, EndFrom(hs, i, k, length))
    decreases |hs| - k
  {
    if k < |hs| && !(hs[k].offset > hs[i].offset && hs[k].level <= hs[i].level) {
      EndFromIs(hs, i, k + 1, length);
    }
  }

  lemma SectionEndsAt(hs: seq<Heading>, i: nat, length: nat)
    requires Within(hs, length) && i < |hs|
    ensures EndsAt(hs, i, length, SectionEnd(hs, i, length))
  {
    EndFromIs(hs, i, 0, length);
  }

  lemma EndIsUnique(hs: seq<Heading>, i: nat, length: nat, a: nat, b: nat)
    requires i < |hs| && EndsAt(hs, i, length, a) && EndsAt(hs, i, length, b)
    ensures a <= b
  {
  }

  /** Sections form a laminar family: of two sections, the later one starts after the earlier ends or ends inside it. */
  lemma SectionsAreLaminar(hs: seq<Heading>, i: nat, j: nat, length: nat)
    requires Within(hs, length) && i < j < |hs|
    ensures var (a, b) := (SectionEnd(hs, i, length), SectionEnd(hs, j, length));
      a <= hs[j].offset || (hs[i].offset < hs[j].offset && b <= a)
  {
    SectionEndsAt(hs, i, length);
    SectionEndsAt(hs, j, length);
    var a, b := SectionEnd(hs, i, length), SectionEnd(hs, j, length);
    if hs[j].offset < a < length {
      var k :| i < k < |hs| && hs[k].offset == a && hs[k].level <= hs[i].level;
      assert j < k && hs[k].level < hs[j].level;
    }
  }

  predicate IsOnly(hs: seq<Heading>, title: string, i: nat) {
    i < |hs| && hs[i].title == title && forall k :: 0 <= k < |hs| && hs[k].title == title ==> k == i
  }

  /** The one heading with a title, if exactly one has it. */
  method FindOnly(hs: seq<Heading>, title: string) returns (at: Option<nat>)
    ensures at.Some? ==> IsOnly(hs, title, at.value)
    ensures at.None? ==> forall i :: !IsOnly(hs, title, i)
  {
    var matches: seq<nat> := [];
    for k := 0 to |hs|
      invariant forall j :: 0 <= j < |matches| ==> matches[j] < k && hs[matches[j]].title == title
      invariant forall m :: 0 <= m < k && hs[m].title == title ==> m in matches
      invariant forall i, j :: 0 <= i < j < |matches| ==> matches[i] < matches[j]
    {
      if hs[k].title == title {
        matches := matches + [k];
      }
    }
    if |matches| != 1 {
      if |matches| > 1 {
        assert matches[0] in matches && matches[1] in matches && matches[0] != matches[1];
      }
      return None;
    }
    assert matches[0] in matches;
    at := Some(matches[0]);
  }

  lemma {:induction false} OffsetsAgree(lines: seq<Line>, texts: seq<string>, k: nat)
    requires k <= |texts| == |lines| && forall i :: 0 <= i < |lines| ==> lines[i].length == |texts[i]|
    ensures OffsetOf(lines, k) == StartOf(texts, k)
    decreases k
  {
    if k > 0 {
      OffsetsAgree(lines, texts, k - 1);
    }
  }

  function HeadingsIn(content: string): seq<Heading> {
    HeadingsOf(Marked(Lines(content)), |Lines(content)|)
  }

  /** The headings of a text, in place. */
  method ScanText(content: string) returns (hs: seq<Heading>)
    ensures hs == HeadingsIn(content) && Within(hs, |content|)
  {
    var texts := Lines(content);
    hs := Scan(Marked(texts));
    HeadingsAscend(Marked(texts), |texts|);
    OffsetsAgree(Marked(texts), texts, |texts|);
    LinesJoin(content);
  }

  /** A slice of the text is the section of its one heading with a title. */
  ghost predicate IsSection(content: string, hs: seq<Heading>, title: string, section: string) {
    exists i: nat, end: nat :: IsOnly(hs, title, i) && EndsAt(hs, i, |content|, end) && section == content[hs[i].offset..end]
  }

  lemma SectionIsUnique(content: string, hs: seq<Heading>, title: string, i: nat, end: nat, section: string)
    requires Within(hs, |content|) && IsOnly(hs, title, i) && EndsAt(hs, i, |content|, end)
    requires IsSection(content, hs, title, section)
    ensures section == content[hs[i].offset..end]
  {
    var j: nat, other: nat :| IsOnly(hs, title, j) && EndsAt(hs, j, |content|, other) && section == content[hs[j].offset..other];
    assert i == j;
    EndIsUnique(hs, i, |content|, end, other);
    EndIsUnique(hs, i, |content|, other, end);
  }

  /** The section slice of `readReference`: refused unless exactly one heading has the title. */
  method ReadSection(content: string, title: string) returns (r: Option<string>)
    ensures r.Some? <==> exists i :: IsOnly(HeadingsIn(content), title, i)
    ensures forall section :: IsSection(content, HeadingsIn(content), title, section) <==> r == Some(section)
  {
    var hs := ScanText(content);
    var at := FindOnly(hs, title);
    if at.None? {
      return None;
    }
    var end := SectionEnd(hs, at.value, |content|);
    SectionEndsAt(hs, at.value, |content|);
    r := Some(content[hs[at.value].offset..end]);
    forall section | IsSection(content, hs, title, section)
      ensures r == Some(section)
    {
      SectionIsUnique(content, hs, title, at.value, end, section);
    }
  }
}
