/** The three forms of an attention cursor as a host keeps it. */
module AttentionCursor {
  import opened Common
  import opened Text
  import opened AttentionStream

  const PREFIX := "attention:"
  const MAX_DIGITS := 15

  predicate OneLine(s: string) {
    forall i :: 0 <= i < |s| ==> !IsLineBreak(s[i])
  }

  function Body(cursor: string): string {
    if PREFIX <= cursor then cursor[|PREFIX|..] else ""
  }

  /** `parseAttentionCursor`: `None` is the error. */
  function Parse(cursor: Option<string>): Option<Position> {
    if cursor.None? then Some(Start)
    else
      var body := Body(cursor.value);
      if body == "start" || body == "-1" then Some(Start)
      else
        var k := DigitRun(body);
        if k == 0 || k > MAX_DIGITS then None
        else if k == |body| then Some(At(NumberOf(body), None))
        else if body[k] == ':' && k + 1 < |body| && OneLine(body[k + 1..])
        then Some(At(NumberOf(body[..k]), Some(body[k + 1..])))
        else None
  }

  /** The cursor `recallAttention` writes for a position. */
  function Render(p: Position): string {
    match p
    case Start => PREFIX + "start"
    case At(seq_, None) => PREFIX + Decimal(seq_)
    case At(seq_, Some(ref)) => PREFIX + (Decimal(seq_) + [':'] + ref)
  }

  /** Positions a cursor can carry. */
  predicate Carried(p: Position) {
    p.At? ==> p.seq_ < Power10(MAX_DIGITS) && (p.ref.Some? ==> p.ref.value != "" && OneLine(p.ref.value))
  }

  lemma DigitsAreNoWord(d: string, rest: string)
    requires |d| > 0 && AllDigits(d)
    ensures d + rest != "start" && d + rest != "-1"
  {
    assert (d + rest)[0] == d[0] && IsDigit(d[0]);
    assert "start"[0] == 's' && "-1"[0] == '-';
  }

  /** A position survives the trip through its cursor exactly when a cursor can carry it; any other cursor is refused. */
  lemma CursorRoundTrip(p: Position)
    ensures Parse(Some(Render(p))) == if Carried(p) then Some(p) else None
  {
    if p.At? {
      var d := Decimal(p.seq_);
      var rest := if p.ref.None? then "" else [':'] + p.ref.value;
      var body := d + rest;
      assert Render(p) == PREFIX + body && Body(Render(p)) == body by {
        assert d + [] == d;
        assert p.ref.Some? ==> d + [':'] + p.ref.value == body;
      }
      DigitsAreNoWord(d, rest);
      assert body[..|d|] == d;
      DigitRunIs(body, |d|);
      DecimalLength(p.seq_, MAX_DIGITS);
      NumberOfDecimal(p.seq_);
      if p.ref.Some? {
        assert body[|d| + 1..] == p.ref.value;
      } else {
        assert body == d;
      }
    } else {
      assert Body(Render(p)) == "start";
    }
  }

  lemma {:induction false} NumberBelow(s: string)
    requires AllDigits(s)
    ensures NumberOf(s) < Power10(|s|)
  {
    if s != [] {
      NumberBelow(s[..|s| - 1]);
    }
  }

  lemma PowerIsMonotone(a: nat, b: nat)
    requires a <= b
    ensures Power10(a) <= Power10(b)
  {
    if a < b {
      PowerIsMonotone(a, b - 1);
    }
  }

  /** What a host sends back is accepted again in the form the Worker writes: older and padded forms denote the same
      position as the canonical cursor. */
  lemma AcceptedIsCarried(cursor: Option<string>)
    requires Parse(cursor).Some?
    ensures Carried(Parse(cursor).value) && Parse(Some(Render(Parse(cursor).value))) == Parse(cursor)
  {
    if cursor.Some? && Parse(cursor).value.At? {
      var body := Body(cursor.value);
      var k := DigitRun(body);
      assert body[..|body|] == body;
      NumberBelow(body[..k]);
      PowerIsMonotone(k, MAX_DIGITS);
    }
    CursorRoundTrip(Parse(cursor).value);
  }

  /** A cursor's text, told by its digits: up to 15 of them, and a ref on one line or none. */
  ghost predicate Denotes(cursor: string, p: Position, digits: string) {
    && AllDigits(digits) && 1 <= |digits| <= 15 && p.At? && p.seq_ == NumberOf(digits)
    && if p.ref.None? then cursor == "attention:" + digits
       else
         && p.ref.value != "" && cursor == "attention:" + (digits + (":" + p.ref.value))
         && forall i :: 0 <= i < |p.ref.value| ==> p.ref.value[i] !in {'\n', '\r', '\U{2028}', '\U{2029}'}
  }

  /** A cursor is read exactly in one of these forms; without one, and in the two forms of the start, everything is new. */
  lemma ParseExactly(cursor: string, p: Position)
    ensures Parse(None) == Some(Start)
    ensures Parse(Some(cursor)) == Some(p)
      <==> (p == Start && cursor in {"attention:start", "attention:-1"}) || exists digits :: Denotes(cursor, p, digits)
  {
    if digits :| Denotes(cursor, p, digits) {
      DenotedIsParsed(cursor, p, digits);
    } else if p == Start && cursor in {"attention:start", "attention:-1"} {
      assert cursor[|PREFIX|..] in {"start", "-1"};
    } else if Parse(Some(cursor)) == Some(p) {
      ParsedIsDenoted(cursor, p);
    }
  }

  lemma DenotedIsParsed(cursor: string, p: Position, digits: string)
    requires Denotes(cursor, p, digits)
    ensures Parse(Some(cursor)) == Some(p)
  {
    var rest := if p.ref.None? then "" else ":" + p.ref.value;
    var body := digits + rest;
    assert cursor == PREFIX + body && Body(cursor) == body by {
      assert digits + [] == digits;
    }
    DigitsAreNoWord(digits, rest);
    assert body[..|digits|] == digits;
    DigitRunIs(body, |digits|);
    if p.ref.Some? {
      assert body[|digits| + 1..] == p.ref.value;
    } else {
      assert body == digits;
    }
  }

  lemma BodyExactly(cursor: string)
    ensures Body(cursor) != "" ==> cursor == "attention:" + Body(cursor)
  {
  }

  lemma SplitBody(body: string, k: nat)
    requires k <= |body|
    ensures k == |body| ==> body[..k] == body
    ensures k < |body| && body[k] == ':' ==> body == body[..k] + (":" + body[k + 1..])
  {
  }

  lemma ParsedIsDenoted(cursor: string, p: Position)
    requires Parse(Some(cursor)) == Some(p)
    ensures if p == Start then cursor in {"attention:start", "attention:-1"} else exists digits :: Denotes(cursor, p, digits)
  {
    hide Body, NumberOf;
    var body := Body(cursor);
    BodyExactly(cursor);
    if p.At? {
      var k := DigitRun(body);
      SplitBody(body, k);
      assert Denotes(cursor, p, body[..k]);
    } else {
      assert "attention:" + "start" == "attention:start" && "attention:" + "-1" == "attention:-1";
    }
  }
}
