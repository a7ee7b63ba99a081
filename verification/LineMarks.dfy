/** The lines of a document and what each of them is to the heading scan. */
module LineMarks {
  import opened Common
  import opened Text

  // ── Lines ──────────────────────────────────────────────────────────────

  /** The length of the first line, with its line break. */
  function LineLength(text: string): (n: nat)
    ensures n <= |text| && (text != [] ==> n > 0)
    ensures forall i :: 0 <= i < n - 1 ==> text[i] != '\n'
    ensures n > 0 && text[n - 1] != '\n' ==> n == |text|
  {
    if text == [] then 0 else if text[0] == '\n' then 1 else 1 + LineLength(text[1..])
  }

  /** What the line pattern matches: lines with their breaks, the last perhaps without one. */
  function Lines(text: string): (lines: seq<string>)
    ensures forall k :: 0 <= k < |lines| ==> lines[k] != []
  {
    if text == [] then [] else [text[..LineLength(text)]] + Lines(text[LineLength(text)..])
  }

  /** Where line `k` starts, as the scan adds it up. */
  function StartOf(lines: seq<string>, k: nat): nat
    requires k <= |lines|
  {
    if k == 0 then 0 else StartOf(lines, k - 1) + |lines[k - 1]|
  }

  /** The first `k` lines put together. */
  function Joined(lines: seq<string>, k: nat): (text: string)
    requires k <= |lines|
    ensures |text| == StartOf(lines, k)
  {
    if k == 0 then "" else Joined(lines, k - 1) + lines[k - 1]
  }

  lemma {:induction false} JoinShifts(lines: seq<string>, k: nat)
    requires 0 < k <= |lines|
    ensures Joined(lines, k) == lines[0] + Joined(lines[1..], k - 1)
    decreases k
  {
    if k > 1 {
      JoinShifts(lines, k - 1);
    }
  }

  lemma {:induction false} LinesJoin(text: string)
    ensures Joined(Lines(text), |Lines(text)|) == text
    decreases |text|
  {
    if text != [] {
      var rest := text[LineLength(text)..];
      LinesJoin(rest);
      assert Lines(text)[1..] == Lines(rest);
      JoinShifts(Lines(text), |Lines(text)|);
    }
  }

  lemma {:induction false} JoinGrows(lines: seq<string>, k: nat, n: nat)
    requires k < n <= |lines|
    ensures Joined(lines, k) + lines[k] <= Joined(lines, n)
    decreases n
  {
    if k + 1 < n {
      JoinGrows(lines, k, n - 1);
    }
  }

  /** The lines partition the text: all together they are the text, and each stands where the scan puts it. */
  lemma LinesPartition(text: string, k: nat)
    requires k < |Lines(text)|
    ensures var lines := Lines(text);
      Joined(lines, |lines|) == text && Joined(lines, k) + lines[k] <= text && |Joined(lines, k)| == StartOf(lines, k)
  {
    LinesJoin(text);
    JoinGrows(Lines(text), k, |Lines(text)|);
  }

  // ── What a line is ─────────────────────────────────────────────────────

  datatype Fence = Fence(marker: char, length: nat)

  /** A line: its length, the fence marker it starts with, whether anything follows that marker, and the heading it
      would be outside any fence. */
  datatype Line = Line(length: nat, marker: Option<Fence>, bare: bool, heading: Option<(nat, string)>)

  function RunOf(s: string, c: char): (n: nat)
    ensures n <= |s| && (forall i :: 0 <= i < n ==> s[i] == c) && (n < |s| ==> s[n] != c)
  {
    if s == [] || s[0] != c then 0 else 1 + RunOf(s[1..], c)
  }

  /** Three or more backticks, or three or more tildes, at the start of a trimmed line. */
  function MarkerOf(trimmed: string): (r: Option<Fence>)
    ensures r.Some? ==> 3 <= r.value.length <= |trimmed|
  {
    var ticks, tildes := RunOf(trimmed, '`'), RunOf(trimmed, '~');
    if ticks >= 3 then Some(Fence('`', ticks)) else if tildes >= 3 then Some(Fence('~', tildes)) else None
  }

  /** One to six `#`, a blank and some text on one line. */
  function HeadingOf(trimmed: string): Option<(nat, string)> {
    var level := RunOf(trimmed, '#');
    if 1 <= level <= 6 && level + 1 < |trimmed| && trimmed[level] == ' '
       && forall i :: level < i < |trimmed| ==> !IsLineBreak(trimmed[i])
    then Some((level, Trim(trimmed[level + 1..])))
    else None
  }

  /** A marker is the whole run of one fence character, three at least, that the line starts with. */
  lemma MarkerExactly(t: string, c: char, n: nat)
    ensures MarkerOf(t) == Some(Fence(c, n))
      <==> c in {'`', '~'} && 3 <= n <= |t| && (forall i :: 0 <= i < n ==> t[i] == c) && (n < |t| ==> t[n] != c)
  {
    if c in {'`', '~'} && 3 <= n <= |t| && (forall i :: 0 <= i < n ==> t[i] == c) && (n < |t| ==> t[n] != c) {
      RunIs(t, c, n);
      assert t[0] == c;
    }
  }

  lemma RunIs(s: string, c: char, n: nat)
    requires n <= |s| && (forall i :: 0 <= i < n ==> s[i] == c) && (n < |s| ==> s[n] != c)
    ensures RunOf(s, c) == n
  {
    var run := RunOf(s, c);
    assert run < n ==> s[run] == c;
    assert n < run ==> s[n] == c;
  }

  /** A heading is one to six `#`, a blank and some text, all on one line; the text is its title, trimmed. */
  lemma HeadingExactly(t: string, level: nat, title: string)
    ensures HeadingOf(t) == Some((level, title))
      <==> && 1 <= level <= 6 && level + 1 < |t| && (forall i :: 0 <= i < level ==> t[i] == '#') && t[level] == ' '
           && (forall i :: level < i < |t| ==> t[i] !in {'\n', '\r', '\U{2028}', '\U{2029}'})
           && title == Trim(t[level + 1..])
  {
    hide Trim, RunOf;
    if level < |t| && (forall i :: 0 <= i < level ==> t[i] == '#') && t[level] == ' ' {
      RunIs(t, '#', level);
    }
  }

  function LineOf(text: string): Line {
    var trimmed := Trim(text);
    var marker := MarkerOf(trimmed);
    Line(|text|, marker, marker.Some? && Trim(trimmed[marker.value.length..]) == "", HeadingOf(trimmed))
  }

  lemma BlankFrom(t: string, k: nat)
    requires k <= |t|
    ensures Trim(t[k..]) == "" <==> forall i :: k <= i < |t| ==> IsSpace(t[i])
  {
    hide Trim, IsSpace;
    var rest := t[k..];
    BlankExactly(rest);
    assert forall i :: 0 <= i < |rest| ==> rest[i] == t[k + i];
    assert forall i :: k <= i < |t| ==> t[i] == rest[i - k];
  }

  /** What the scan knows of a line, told by its trimmed text: its marker, whether only blanks follow that, and its heading. */
  lemma LineExactly(text: string)
    ensures var (line, t) := (LineOf(text), Trim(text));
      && line.length == |text| && line.marker == MarkerOf(t) && line.heading == HeadingOf(t)
      && (line.bare <==> line.marker.Some? && forall i :: line.marker.value.length <= i < |t| ==> IsSpace(t[i]))
  {
    hide Trim, IsSpace, MarkerOf, HeadingOf;
    var t := Trim(text);
    if MarkerOf(t).Some? {
      BlankFrom(t, MarkerOf(t).value.length);
    }
  }

  function Marked(lines: seq<string>): (r: seq<Line>)
    ensures |r| == |lines| && forall k :: 0 <= k < |r| ==> r[k] == LineOf(lines[k]) && r[k].length == |lines[k]|
  {
    seq(|lines|, i requires 0 <= i < |lines| => LineOf(lines[i]))
  }
}
