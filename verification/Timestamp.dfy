/** Canonical timestamps: any RFC 3339 instant in one spelling, whose order as text is its order in time. */
module Timestamp {
  import opened Calendar
  import opened Common
  import opened Text

  /** The hours and minutes of an offset that the host's date parser reads. Every result below holds for any host. */
  type Offsets = (nat, nat) -> bool

  // ── Reading ────────────────────────────────────────────────────────────

  /** `YYYY-MM-DDThh:mm:ss`, with `t` or a blank allowed for the `T`. */
  predicate HasDateTime(s: string) {
    && |s| >= 19 && AllDigits(s[0..4]) && s[4] == '-' && AllDigits(s[5..7]) && s[7] == '-' && AllDigits(s[8..10])
    && s[10] in {'T', 't', ' '} && AllDigits(s[11..13]) && s[13] == ':' && AllDigits(s[14..16]) && s[16] == ':'
    && AllDigits(s[17..19])
  }

  /** The fraction's digits and what follows it. */
  function Fraction(rest: string): Option<(string, string)> {
    if rest == [] || rest[0] != '.' then Some(("", rest))
    else
      var k := DigitRun(rest[1..]);
      if k == 0 then None else Some((rest[1..][..k], rest[1..][k..]))
  }

  /** Minutes ahead of UTC. */
  function Zone(zone: string, offsets: Offsets): Option<int> {
    if zone == "Z" || zone == "z" then Some(0)
    else if |zone| == 6 && zone[0] in {'+', '-'} && AllDigits(zone[1..3]) && zone[3] == ':' && AllDigits(zone[4..6]) then
      var hours, minutes := NumberOf(zone[1..3]), NumberOf(zone[4..6]);
      if !offsets(hours, minutes) then None
      else Some((if zone[0] == '+' then 1 else -1) * (hours * 60 + minutes))
    else None
  }

  function DigitAt(fraction: string, i: nat): nat
    requires AllDigits(fraction)
  {
    if i < |fraction| then fraction[i] as nat - 48 else 0
  }

  /** At most millisecond precision: every further digit is a zero. */
  predicate IsMillis(fraction: string) {
    forall i :: 3 <= i < |fraction| ==> fraction[i] == '0'
  }

  function Millis(fraction: string): (n: nat)
    requires AllDigits(fraction)
    ensures n <= 999
  {
    DigitAt(fraction, 0) * 100 + DigitAt(fraction, 1) * 10 + DigitAt(fraction, 2)
  }

  function FieldsOf(s: string, fraction: string): Civil
    requires HasDateTime(s) && AllDigits(fraction)
  {
    Civil(NumberOf(s[0..4]), NumberOf(s[5..7]), NumberOf(s[8..10]),
          NumberOf(s[11..13]), NumberOf(s[14..16]), NumberOf(s[17..19]), Millis(fraction))
  }

  /** The instant of some fields, a fraction and what its zone is ahead. */
  function InstantOf(c: Civil, fraction: string, ahead: Option<int>): Option<int> {
    if ahead.Some? && IsMillis(fraction) && IsDate(c) && IsTime(c) then Some(MillisOf(c) - ahead.value * 60_000) else None
  }

  function InstantIn(s: string, offsets: Offsets): Option<int> {
    if !HasDateTime(s) then None
    else
      match Fraction(s[19..])
      case None => None
      case Some((fraction, zone)) => InstantOf(FieldsOf(s, fraction), fraction, Zone(zone, offsets))
  }

  /** The instant some text denotes, if it is an RFC 3339 instant with at most millisecond precision. */
  function Instant(text: string, offsets: Offsets): Option<int> {
    InstantIn(Trim(text), offsets)
  }

  // ── Writing ────────────────────────────────────────────────────────────

  /** A number in exactly `w` digits. */
  function Padded(n: nat, w: nat): (s: string)
    ensures |s| == w && AllDigits(s)
  {
    if w == 0 then "" else Padded(n / 10, w - 1) + [Digit(n % 10)]
  }

  function ToSecond(c: Civil, rest: string): string {
    Padded(c.hour, 2) + ([':'] + (Padded(c.minute, 2) + ([':'] + (Padded(c.second, 2) + rest))))
  }

  function SpellTime(c: Civil, zone: string): string {
    ToSecond(c, ['.'] + (Padded(c.milli, 3) + zone))
  }

  /** A date, some mark and what follows it. */
  function DatedBy(c: Civil, mark: char, time: string): (s: string)
    ensures |s| == 11 + |time|
  {
    Padded(c.year, 4) + (['-'] + (Padded(c.month, 2) + (['-'] + (Padded(c.day, 2) + ([mark] + time)))))
  }

  function Dated(c: Civil, time: string): (s: string)
    ensures |s| == 11 + |time|
  {
    DatedBy(c, 'T', time)
  }

  /** A date and time to the millisecond, in a zone. */
  function Spell(c: Civil, zone: string): (s: string)
    ensures |s| == 23 + |zone|
  {
    Dated(c, SpellTime(c, zone))
  }

  /** A date and time to the second, without a fraction. */
  function SpellSeconds(c: Civil, zone: string): (s: string)
    ensures |s| == 19 + |zone|
  {
    Dated(c, ToSecond(c, zone))
  }

  /** Instants of the years 0000 to 9999; the host spells any other year in 27 characters. */
  predicate InYears(t: int) {
    0 <= t && CivilOf(t).year <= 9999
  }

  /** These are the milliseconds of the 3,652,425 days of ten thousand years. */
  lemma YearsExactly(t: int)
    ensures InYears(t) <==> 0 <= t < 3_652_425 * DAY
  {
    hide CivilOf, DaysBeforeYear, DayOf;
    YearsInClosedForm(10_000);
    if t >= 0 {
      InstantDay(t);
      YearBefore(CivilOf(t), 10_000);
    }
  }

  function Iso(t: nat): string {
    Spell(CivilOf(t), "Z")
  }

  /** `canonicalTimestamp`: `None` for anything that is not an accepted instant. */
  function Canonical(text: string, offsets: Offsets): Option<string> {
    match Instant(text, offsets)
    case None => None
    case Some(t) => if InYears(t) then Some(Iso(t)) else None
  }

  /** `observationTimestamp`: the caller's time if it is one, else when the call was received. */
  function Observation(value: Option<string>, receivedAt: nat, offsets: Offsets): string {
    if value.Some? && Canonical(value.value, offsets).Some? then Canonical(value.value, offsets).value
    else Iso(receivedAt)
  }

  // ── Writing and reading back ───────────────────────────────────────────

  lemma {:induction false} NumberOfPadded(n: nat, w: nat)
    requires n < Power10(w)
    ensures NumberOf(Padded(n, w)) == n
  {
    if w > 0 {
      NumberOfPadded(n / 10, w - 1);
      assert Padded(n, w)[..w - 1] == Padded(n / 10, w - 1);
    }
  }

  lemma ToSecondFields(c: Civil, rest: string)
    ensures var s := ToSecond(c, rest);
      && |s| == 8 + |rest| && s[0..2] == Padded(c.hour, 2) && s[2] == ':' && s[3..5] == Padded(c.minute, 2) && s[5] == ':'
      && s[6..8] == Padded(c.second, 2) && s[8..] == rest
  {
  }

  lemma DatedFields(c: Civil, mark: char, time: string)
    ensures var s := DatedBy(c, mark, time);
      && s[0..4] == Padded(c.year, 4) && s[4] == '-' && s[5..7] == Padded(c.month, 2) && s[7] == '-'
      && s[8..10] == Padded(c.day, 2) && s[10] == mark && s[11..] == time
  {
  }

  lemma TrimKeeps(s: string)
    requires s != [] && !IsSpace(s[0]) && !IsSpace(s[|s| - 1])
    ensures Trim(s) == s
  {
  }

  lemma MillisOfPadded(n: nat)
    requires n < 1000
    ensures Millis(Padded(n, 3)) == n
  {
    assert Padded(n, 3) == Padded(n / 10, 2) + [Digit(n % 10)];
    assert Padded(n / 10, 2) == Padded(n / 100, 1) + [Digit(n / 10 % 10)];
    assert Padded(n / 100, 1) == [Digit(n / 100 % 10)];
  }

  lemma Powers()
    ensures Power10(2) == 100 && Power10(3) == 1000 && Power10(4) == 10_000
  {
    assert Power10(2) == 10 * Power10(1) && Power10(4) == 10 * Power10(3);
  }

  lemma ZoneShape(zone: string, offsets: Offsets)
    requires Zone(zone, offsets).Some?
    ensures zone != [] && !IsDigit(zone[0]) && zone[0] != '.' && !IsSpace(zone[|zone| - 1])
  {
    if |zone| == 6 {
      assert IsDigit(zone[4..6][1]);
    }
  }

  lemma FractionOfPadded(n: nat, zone: string)
    requires zone == [] || !IsDigit(zone[0])
    ensures Fraction(['.'] + (Padded(n, 3) + zone)) == Some((Padded(n, 3), zone))
  {
    var rest := Padded(n, 3) + zone;
    assert (['.'] + rest)[1..] == rest && rest[..3] == Padded(n, 3) && rest[3..] == zone;
    DigitRunIs(rest, 3);
  }

  lemma DateReads(c: Civil, mark: char, time: string)
    requires IsDate(c) && c.year <= 9999
    ensures var s := DatedBy(c, mark, time);
      && AllDigits(s[0..4]) && AllDigits(s[5..7]) && AllDigits(s[8..10])
      && NumberOf(s[0..4]) == c.year && NumberOf(s[5..7]) == c.month && NumberOf(s[8..10]) == c.day
  {
    DatedFields(c, mark, time);
    Powers();
    NumberOfPadded(c.year, 4);
    NumberOfPadded(c.month, 2);
    NumberOfPadded(c.day, 2);
  }

  lemma TimeReads(c: Civil, rest: string)
    requires IsTime(c)
    ensures var s := ToSecond(c, rest);
      && |s| == 8 + |rest| && AllDigits(s[0..2]) && AllDigits(s[3..5]) && AllDigits(s[6..8])
      && NumberOf(s[0..2]) == c.hour && NumberOf(s[3..5]) == c.minute && NumberOf(s[6..8]) == c.second
  {
    ToSecondFields(c, rest);
    Powers();
    NumberOfPadded(c.hour, 2);
    NumberOfPadded(c.minute, 2);
    NumberOfPadded(c.second, 2);
  }

  lemma TimePart(s: string, time: string)
    requires |time| >= 8 && |s| == 11 + |time| && s[11..] == time
    ensures s[11..13] == time[0..2] && s[14..16] == time[3..5] && s[17..19] == time[6..8] && s[19..] == time[8..]
    ensures s[13] == time[2] && s[16] == time[5]
  {
  }

  /** Any text after the seconds leaves the fields before it as they are. */
  lemma PartsAre(c: Civil, mark: char, rest: string, fraction: string)
    requires IsDate(c) && IsTime(c) && c.year <= 9999 && AllDigits(fraction) && Millis(fraction) == c.milli && mark in {'T', 't', ' '}
    ensures var s := DatedBy(c, mark, ToSecond(c, rest)); HasDateTime(s) && FieldsOf(s, fraction) == c && s[19..] == rest
  {
    var time := ToSecond(c, rest);
    DateReads(c, mark, time);
    TimeReads(c, rest);
    DatedFields(c, mark, time);
    ToSecondFields(c, rest);
    TimePart(DatedBy(c, mark, time), time);
  }

  lemma SpelledReads(c: Civil, rest: string, fraction: string, zone: string, offsets: Offsets)
    requires IsDate(c) && IsTime(c) && c.year <= 9999 && AllDigits(fraction) && Millis(fraction) == c.milli
    requires Fraction(rest) == Some((fraction, zone))
    ensures InstantIn(Dated(c, ToSecond(c, rest)), offsets) == InstantOf(c, fraction, Zone(zone, offsets))
  {
    PartsAre(c, 'T', rest, fraction);
  }

  lemma DatedEnds(c: Civil, time: string)
    requires time != []
    ensures var s := Dated(c, time); !IsSpace(s[0]) && s[|s| - 1] == time[|time| - 1]
  {
    assert Dated(c, time)[0] == Padded(c.year, 4)[0];
  }

  lemma SpelledTrimmed(c: Civil, rest: string)
    requires rest != [] && !IsSpace(rest[|rest| - 1])
    ensures var s := Dated(c, ToSecond(c, rest)); Trim(s) == s
  {
    var time := ToSecond(c, rest);
    assert time[|time| - 1] == rest[|rest| - 1];
    DatedEnds(c, time);
    TrimKeeps(Dated(c, time));
  }

  lemma SpelledInstant(c: Civil, rest: string, fraction: string, zone: string, offsets: Offsets)
    requires IsDate(c) && IsTime(c) && c.year <= 9999 && AllDigits(fraction) && Millis(fraction) == c.milli
    requires Fraction(rest) == Some((fraction, zone)) && rest != [] && !IsSpace(rest[|rest| - 1])
    ensures Instant(Dated(c, ToSecond(c, rest)), offsets) == InstantOf(c, fraction, Zone(zone, offsets))
  {
    SpelledTrimmed(c, rest);
    SpelledReads(c, rest, fraction, zone, offsets);
  }

  /** A spelled date and time denotes the instant of its fields and its zone. */
  lemma SpellInstant(c: Civil, zone: string, offsets: Offsets)
    requires IsDate(c) && IsTime(c) && c.year <= 9999 && Zone(zone, offsets).Some?
    ensures Instant(Spell(c, zone), offsets) == InstantOf(c, Padded(c.milli, 3), Zone(zone, offsets))
  {
    ZoneShape(zone, offsets);
    FractionOfPadded(c.milli, zone);
    MillisOfPadded(c.milli);
    var rest := ['.'] + (Padded(c.milli, 3) + zone);
    assert rest[|rest| - 1] == zone[|zone| - 1];
    SpelledInstant(c, rest, Padded(c.milli, 3), zone, offsets);
  }

  /** `+hh:mm` or `-hh:mm`. */
  function OffsetText(sign: char, hours: nat, minutes: nat): (s: string)
    ensures |s| == 6
  {
    [sign] + (Padded(hours, 2) + ([':'] + Padded(minutes, 2)))
  }

  lemma OffsetParts(sign: char, a: string, b: string)
    requires |a| == |b| == 2
    ensures var s := [sign] + (a + ([':'] + b)); s[0] == sign && s[1..3] == a && s[3] == ':' && s[4..6] == b
  {
  }

  lemma OffsetFields(sign: char, hours: nat, minutes: nat)
    requires hours < 100 && minutes < 100
    ensures var s := OffsetText(sign, hours, minutes);
      && s[0] == sign && AllDigits(s[1..3]) && s[3] == ':' && AllDigits(s[4..6])
      && NumberOf(s[1..3]) == hours && NumberOf(s[4..6]) == minutes
  {
    hide Padded, NumberOf;
    OffsetParts(sign, Padded(hours, 2), Padded(minutes, 2));
    Powers();
    NumberOfPadded(hours, 2);
    NumberOfPadded(minutes, 2);
  }

  lemma ZoneIs(sign: char, hours: nat, minutes: nat, offsets: Offsets)
    requires sign in {'+', '-'} && hours < 100 && minutes < 100 && offsets(hours, minutes)
    ensures Zone(OffsetText(sign, hours, minutes), offsets) == Some(if sign == '+' then hours * 60 + minutes else -(hours * 60 + minutes))
  {
    OffsetFields(sign, hours, minutes);
  }

  /** A local time spelled with an offset denotes its fields, less the hours and minutes it is ahead of UTC, or plus those
      it is behind; one in an offset the host does not read denotes nothing. */
  lemma OffsetInstant(c: Civil, sign: char, hours: nat, minutes: nat, offsets: Offsets)
    requires IsDate(c) && IsTime(c) && c.year <= 9999 && sign in {'+', '-'} && hours < 100 && minutes < 100
    requires offsets(hours, minutes)
    ensures Instant(Spell(c, OffsetText(sign, hours, minutes)), offsets)
         == Some(if sign == '+' then MillisOf(c) - (hours * 60 + minutes) * 60_000 else MillisOf(c) + (hours * 60 + minutes) * 60_000)
  {
    hide Zone, Instant, Spell;
    ZoneIs(sign, hours, minutes, offsets);
    SpellInstant(c, OffsetText(sign, hours, minutes), offsets);
  }

  lemma UtcInstant(c: Civil, fraction: string, offsets: Offsets)
    requires IsDate(c) && IsTime(c) && |fraction| <= 3
    ensures InstantOf(c, fraction, Zone("Z", offsets)) == Some(MillisOf(c))
  {
  }

  /** One to the second does so too. */
  lemma SecondsInstant(c: Civil, offsets: Offsets)
    requires IsDate(c) && IsTime(c) && c.year <= 9999 && c.milli == 0
    ensures Instant(SpellSeconds(c, "Z"), offsets) == InstantOf(c, "", Zone("Z", offsets))
  {
    var fraction: string := "";
    assert Fraction("Z") == Some((fraction, "Z")) && Millis(fraction) == 0;
    SpelledInstant(c, "Z", fraction, "Z", offsets);
  }

  lemma CanonicalOf(s: string, t: nat, offsets: Offsets)
    requires Instant(s, offsets) == Some(t) && InYears(t)
    ensures Canonical(s, offsets) == Some(Iso(t))
  {
  }

  lemma UtcSpelling(c: Civil, offsets: Offsets)
    requires IsDate(c) && IsTime(c) && c.year <= 9999
    ensures Instant(Spell(c, "Z"), offsets) == Some(MillisOf(c))
  {
    SpellInstant(c, "Z", offsets);
    UtcInstant(c, Padded(c.milli, 3), offsets);
  }

  // ── Exactly what is read ───────────────────────────────────────────────

  function FractionText(fraction: string): string {
    if fraction == "" then "" else ['.'] + fraction
  }

  /** `Z` or `z`, or an offset that the host reads. */
  ghost predicate IsZone(zone: string, ahead: int, offsets: Offsets) {
    || (zone in {"Z", "z"} && ahead == 0)
    || exists sign, hours, minutes :: IsOffset(zone, ahead, offsets, sign, hours, minutes)
  }

  ghost predicate IsOffset(zone: string, ahead: int, offsets: Offsets, sign: char, hours: nat, minutes: nat) {
    && sign in {'+', '-'} && hours < 100 && minutes < 100 && offsets(hours, minutes) && zone == OffsetText(sign, hours, minutes)
    && ahead == if sign == '+' then hours * 60 + minutes else -(hours * 60 + minutes)
  }

  /** A text in the form of RFC 3339 section 5.6, with `t` or a blank allowed for the `T`: a date of the calendar, a time of
      the day, a fraction of which only the first three digits may be other than zero, and a zone. */
  ghost predicate Says(s: string, t: int, offsets: Offsets, c: Civil, mark: char, fraction: string, zone: string, ahead: int) {
    && IsDate(c) && IsTime(c) && c.year <= 9999 && mark in {'T', 't', ' '}
    && AllDigits(fraction) && (forall i :: 3 <= i < |fraction| ==> fraction[i] == '0') && c.milli == Millis(fraction)
    && IsZone(zone, ahead, offsets)
    && s == DatedBy(c, mark, ToSecond(c, FractionText(fraction) + zone))
    && t == MillisOf(c) - ahead * 60_000
  }

  lemma {:induction false} PaddedOfNumber(s: string)
    requires AllDigits(s)
    ensures Padded(NumberOf(s), |s|) == s && NumberOf(s) < Power10(|s|)
  {
    if s != [] {
      PaddedOfNumber(s[..|s| - 1]);
    }
  }

  lemma SixAreOffset(zone: string)
    requires |zone| == 6 && AllDigits(zone[1..3]) && zone[3] == ':' && AllDigits(zone[4..6])
    ensures zone == OffsetText(zone[0], NumberOf(zone[1..3]), NumberOf(zone[4..6]))
    ensures NumberOf(zone[1..3]) < 100 && NumberOf(zone[4..6]) < 100
  {
    hide NumberOf, Padded;
    Powers();
    PaddedOfNumber(zone[1..3]);
    PaddedOfNumber(zone[4..6]);
    assert zone == [zone[0]] + (zone[1..3] + ([':'] + zone[4..6]));
  }

  lemma ReadZone(zone: string, ahead: int, offsets: Offsets)
    requires Zone(zone, offsets) == Some(ahead)
    ensures IsZone(zone, ahead, offsets)
  {
    hide NumberOf, OffsetText;
    if zone !in {"Z", "z"} {
      SixAreOffset(zone);
      assert IsOffset(zone, ahead, offsets, zone[0], NumberOf(zone[1..3]), NumberOf(zone[4..6]));
    }
  }

  lemma ZoneExactly(zone: string, ahead: int, offsets: Offsets)
    ensures Zone(zone, offsets) == Some(ahead) <==> IsZone(zone, ahead, offsets)
  {
    if Zone(zone, offsets) == Some(ahead) {
      ReadZone(zone, ahead, offsets);
    }
    if sign, hours, minutes :| IsOffset(zone, ahead, offsets, sign, hours, minutes) {
      hide Zone, OffsetText;
      ZoneIs(sign, hours, minutes, offsets);
    }
  }

  lemma DottedDigits(fraction: string, zone: string)
    requires fraction != "" && AllDigits(fraction) && (zone == "" || !IsDigit(zone[0]))
    ensures Fraction(['.'] + (fraction + zone)) == Some((fraction, zone))
  {
    var rest := fraction + zone;
    assert (['.'] + rest)[1..] == rest && rest[..|fraction|] == fraction && rest[|fraction|..] == zone;
    DigitRunIs(rest, |fraction|);
  }

  lemma Undotted(zone: string)
    requires zone != "" && zone[0] != '.'
    ensures Fraction(zone) == Some(("", zone))
  {
  }

  lemma FractionExactly(fraction: string, zone: string, offsets: Offsets)
    requires AllDigits(fraction) && Zone(zone, offsets).Some?
    ensures Fraction(FractionText(fraction) + zone) == Some((fraction, zone))
  {
    hide Zone, Fraction;
    ZoneShape(zone, offsets);
    if fraction == "" {
      Undotted(zone);
      assert FractionText(fraction) + zone == zone;
    } else {
      DottedDigits(fraction, zone);
      assert FractionText(fraction) + zone == ['.'] + (fraction + zone);
    }
  }

  lemma SaidIsRead(s: string, t: int, offsets: Offsets, c: Civil, mark: char, fraction: string, zone: string, ahead: int)
    requires Says(s, t, offsets, c, mark, fraction, zone, ahead)
    ensures InstantIn(s, offsets) == Some(t)
  {
    hide Zone, IsZone, Fraction, DatedBy, ToSecond, FractionText, HasDateTime, FieldsOf;
    ZoneExactly(zone, ahead, offsets);
    FractionExactly(fraction, zone, offsets);
    PartsAre(c, mark, FractionText(fraction) + zone, fraction);
  }

  lemma TimeIsSpelled(s: string, c: Civil, rest: string)
    requires |s| >= 19 && AllDigits(s[11..13]) && s[13] == ':' && AllDigits(s[14..16]) && s[16] == ':' && AllDigits(s[17..19])
    requires c.hour == NumberOf(s[11..13]) && c.minute == NumberOf(s[14..16]) && c.second == NumberOf(s[17..19]) && s[19..] == rest
    ensures s[11..] == ToSecond(c, rest)
  {
    PaddedOfNumber(s[11..13]);
    PaddedOfNumber(s[14..16]);
    PaddedOfNumber(s[17..19]);
  }

  lemma DateIsSpelled(s: string, c: Civil, time: string)
    requires |s| >= 11 && AllDigits(s[0..4]) && s[4] == '-' && AllDigits(s[5..7]) && s[7] == '-' && AllDigits(s[8..10])
    requires c.year == NumberOf(s[0..4]) && c.month == NumberOf(s[5..7]) && c.day == NumberOf(s[8..10]) && s[11..] == time
    ensures c.year <= 9999 && s == DatedBy(c, s[10], time)
  {
    Powers();
    PaddedOfNumber(s[0..4]);
    PaddedOfNumber(s[5..7]);
    PaddedOfNumber(s[8..10]);
  }

  lemma ReadIsSpelled(s: string, fraction: string, rest: string)
    requires HasDateTime(s) && AllDigits(fraction) && s[19..] == rest
    ensures var c := FieldsOf(s, fraction); c.year <= 9999 && s == DatedBy(c, s[10], ToSecond(c, rest))
  {
    hide DatedBy, ToSecond;
    var c := FieldsOf(s, fraction);
    TimeIsSpelled(s, c, rest);
    DateIsSpelled(s, c, ToSecond(c, rest));
  }

  lemma FractionSpelled(rest: string, fraction: string, zone: string)
    requires Fraction(rest) == Some((fraction, zone))
    ensures AllDigits(fraction) && rest == FractionText(fraction) + zone
  {
    if rest != [] && rest[0] == '.' {
      var tail := rest[1..];
      var k := DigitRun(tail);
      assert fraction == tail[..k] && zone == tail[k..];
      DotAndTail(rest, tail, k);
    }
  }

  lemma DotAndTail(rest: string, tail: string, k: nat)
    requires rest != [] && rest[0] == '.' && tail == rest[1..] && 0 < k <= |tail|
    ensures rest == FractionText(tail[..k]) + tail[k..]
  {
  }

  /** `canonicalTimestamp` reads exactly the texts of this form, once trimmed, and reads the instant they say. */
  lemma InstantExactly(text: string, t: int, offsets: Offsets)
    ensures Instant(text, offsets) == Some(t)
      <==> exists c, mark, fraction, zone, ahead :: Says(Trim(text), t, offsets, c, mark, fraction, zone, ahead)
  {
    var s := Trim(text);
    if c, mark, fraction, zone, ahead :| Says(s, t, offsets, c, mark, fraction, zone, ahead) {
      SaidIsRead(s, t, offsets, c, mark, fraction, zone, ahead);
    } else if Instant(text, offsets) == Some(t) {
      var (fraction, zone) := Fraction(s[19..]).value;
      var c, ahead := FieldsOf(s, fraction), Zone(zone, offsets).value;
      FractionSpelled(s[19..], fraction, zone);
      ReadIsSpelled(s, fraction, s[19..]);
      ZoneExactly(zone, ahead, offsets);
      assert Says(s, t, offsets, c, s[10], fraction, zone, ahead);
    }
  }

  /** Every instant of the years 0000 to 9999 has a canonical spelling, which denotes it. */
  lemma IsoDenotes(t: nat, offsets: Offsets)
    requires InYears(t)
    ensures Instant(Iso(t), offsets) == Some(t) && Canonical(Iso(t), offsets) == Some(Iso(t))
  {
    CivilKeepsInstant(t);
    UtcSpelling(CivilOf(t), offsets);
    CanonicalOf(Iso(t), t, offsets);
  }

  /** A canonical spelling denotes the instant it was made from, and is its own canonical spelling. */
  lemma CanonicalIsIdempotent(text: string, offsets: Offsets)
    ensures var r := Canonical(text, offsets);
      r.Some? ==> |r.value| == 24 && Instant(r.value, offsets) == Instant(text, offsets) && Canonical(r.value, offsets) == r
  {
    if Canonical(text, offsets).Some? {
      IsoDenotes(Instant(text, offsets).value, offsets);
    }
  }

  // ── Order as text and order in time ────────────────────────────────────

  lemma {:induction false} PaddedOrder(a: nat, b: nat, w: nat, x: string, y: string)
    requires a < Power10(w) && b < Power10(w)
    ensures Less(Padded(a, w) + x, Padded(b, w) + y) <==> a < b || (a == b && Less(x, y))
    decreases w
  {
    if w == 0 {
      assert Padded(a, 0) + x == x && Padded(b, 0) + y == y;
    } else {
      var (c, d) := (Digit(a % 10), Digit(b % 10));
      assert Padded(a, w) + x == Padded(a / 10, w - 1) + ([c] + x);
      assert Padded(b, w) + y == Padded(b / 10, w - 1) + ([d] + y);
      PaddedOrder(a / 10, b / 10, w - 1, [c] + x, [d] + y);
      assert ([c] + x)[1..] == x && ([d] + y)[1..] == y;
    }
  }

  lemma SameStart(c: char, x: string, y: string)
    ensures Less([c] + x, [c] + y) <==> Less(x, y)
  {
    assert ([c] + x)[1..] == x && ([c] + y)[1..] == y;
  }

  /** A field and the mark after it. */
  lemma FieldOrder(a: nat, b: nat, w: nat, mark: char, x: string, y: string)
    requires a < Power10(w) && b < Power10(w)
    ensures Less(Padded(a, w) + ([mark] + x), Padded(b, w) + ([mark] + y)) <==> a < b || (a == b && Less(x, y))
  {
    PaddedOrder(a, b, w, [mark] + x, [mark] + y);
    SameStart(mark, x, y);
  }

  function WholeSecond(c: Civil): Civil {
    c.(milli := 0)
  }

  lemma SecondTextOrder(a: Civil, b: Civil, x: string, y: string)
    requires IsTime(a) && IsTime(b)
    ensures Less(ToSecond(a, x), ToSecond(b, y))
      <==> TimeBefore(WholeSecond(a), WholeSecond(b)) || (TimeOf(WholeSecond(a)) == TimeOf(WholeSecond(b)) && Less(x, y))
  {
    Powers();
    var (u2, v2) := (Padded(a.second, 2) + x, Padded(b.second, 2) + y);
    var (u1, v1) := (Padded(a.minute, 2) + ([':'] + u2), Padded(b.minute, 2) + ([':'] + v2));
    PaddedOrder(a.second, b.second, 2, x, y);
    FieldOrder(a.minute, b.minute, 2, ':', u2, v2);
    FieldOrder(a.hour, b.hour, 2, ':', u1, v1);
  }

  lemma TimeTextOrder(a: Civil, b: Civil, x: string, y: string)
    requires IsTime(a) && IsTime(b)
    ensures Less(SpellTime(a, x), SpellTime(b, y)) <==> TimeBefore(a, b) || (TimeOf(a) == TimeOf(b) && Less(x, y))
  {
    Powers();
    var (u, v) := (Padded(a.milli, 3) + x, Padded(b.milli, 3) + y);
    PaddedOrder(a.milli, b.milli, 3, x, y);
    SameStart('.', u, v);
    SecondTextOrder(a, b, ['.'] + u, ['.'] + v);
  }

  lemma DatedOrder(a: Civil, b: Civil, w: string, z: string)
    requires IsDate(a) && a.year <= 9999 && IsDate(b) && b.year <= 9999
    ensures Less(Dated(a, w), Dated(b, z)) <==> DateBefore(a, b) || (SameDate(a, b) && Less(w, z))
  {
    Powers();
    var (u2, v2) := (Padded(a.day, 2) + (['T'] + w), Padded(b.day, 2) + (['T'] + z));
    var (u1, v1) := (Padded(a.month, 2) + (['-'] + u2), Padded(b.month, 2) + (['-'] + v2));
    FieldOrder(a.day, b.day, 2, 'T', w, z);
    FieldOrder(a.month, b.month, 2, '-', u2, v2);
    FieldOrder(a.year, b.year, 4, '-', u1, v1);
  }

  /** Spelled dates and times compare as text as they compare in time, and then by zone. */
  lemma SpellOrder(a: Civil, b: Civil, x: string, y: string)
    requires IsDate(a) && IsTime(a) && a.year <= 9999 && IsDate(b) && IsTime(b) && b.year <= 9999
    ensures Less(Spell(a, x), Spell(b, y)) <==> MillisOf(a) < MillisOf(b) || (MillisOf(a) == MillisOf(b) && Less(x, y))
  {
    DatedOrder(a, b, SpellTime(a, x), SpellTime(b, y));
    TimeTextOrder(a, b, x, y);
    InstantOrder(a, b);
    InstantOrder(b, a);
    DateOrder(a, b);
    TimeOrder(a, b);
    TimeOrder(b, a);
  }

  /** Canonical spellings compare as text exactly as their instants compare in time. */
  lemma IsoOrder(t: nat, u: nat)
    requires InYears(t) && InYears(u)
    ensures Less(Iso(t), Iso(u)) <==> t < u
    ensures Iso(t) == Iso(u) <==> t == u
  {
    CivilKeepsInstant(t);
    CivilKeepsInstant(u);
    SpellOrder(CivilOf(t), CivilOf(u), "Z", "Z");
    SpellOrder(CivilOf(u), CivilOf(t), "Z", "Z");
    LessIsTotal(Iso(t), Iso(u));
  }

  /** Two accepted texts, in any offsets, have one canonical spelling exactly when they denote one millisecond, and
      their canonical spellings compare as their instants do. */
  lemma CanonicalOrder(a: string, b: string, offsets: Offsets)
    ensures var (x, y) := (Canonical(a, offsets), Canonical(b, offsets));
      x.Some? && y.Some? ==>
        && (x == y <==> Instant(a, offsets) == Instant(b, offsets))
        && (Less(x.value, y.value) <==> Instant(a, offsets).value < Instant(b, offsets).value)
  {
    if Canonical(a, offsets).Some? && Canonical(b, offsets).Some? {
      IsoOrder(Instant(a, offsets).value, Instant(b, offsets).value);
    }
  }

  /** An observation time is always canonical. */
  lemma ObservationIsCanonical(value: Option<string>, receivedAt: nat, offsets: Offsets)
    requires InYears(receivedAt)
    ensures var r := Observation(value, receivedAt, offsets); |r| == 24 && Canonical(r, offsets) == Some(r)
  {
    if value.Some? && Canonical(value.value, offsets).Some? {
      CanonicalIsIdempotent(value.value, offsets);
    } else {
      IsoDenotes(receivedAt, offsets);
    }
  }

  // ── Due Commitments ────────────────────────────────────────────────────

  /** What the host's date parser makes of a text: it reads more forms than `Instant` does, a bare date among them. */
  type Parser = string -> Option<int>

  /** The parser reads the forms of `Instant` as `Instant` does. */
  ghost predicate Agrees(parse: Parser, offsets: Offsets) {
    forall s :: Instant(s, offsets).Some? ==> parse(s) == Instant(s, offsets)
  }

  /** Whether `raiseDueCommitments` raises a Commitment: the query compares text, then the time is checked again. */
  predicate IsRaised(dueAt: string, now: nat, parse: Parser) {
    && (Less(dueAt, Iso(now)) || dueAt == Iso(now))
    && parse(dueAt).Some? && parse(dueAt).value <= now
  }

  /** A Commitment whose due time is canonical is raised exactly when it is due. */
  lemma CanonicalDueIsRaised(text: string, now: nat, offsets: Offsets, parse: Parser)
    requires InYears(now) && Agrees(parse, offsets)
    ensures var due := Canonical(text, offsets);
      due.Some? ==> (IsRaised(due.value, now, parse) <==> Instant(text, offsets).value <= now)
  {
    if Canonical(text, offsets).Some? {
      CanonicalIsIdempotent(text, offsets);
      IsoOrder(Instant(text, offsets).value, now);
    }
  }

  /** Whether a Commitment is raised at every moment from its due time on, and at none before. */
  ghost predicate RaisedOnTime(due: string, t: nat, parse: Parser) {
    forall now: nat | InYears(now) :: IsRaised(due, now, parse) <==> t <= now
  }

  /** Any due time the host reads, in whatever form, is raised on time exactly if its text is not after the canonical
      spelling of its instant. */
  lemma DueExactly(due: string, t: nat, parse: Parser)
    requires parse(due) == Some(t) && InYears(t)
    ensures RaisedOnTime(due, t, parse) <==> (Less(due, Iso(t)) || due == Iso(t))
  {
    assert RaisedOnTime(due, t, parse) ==> IsRaised(due, t, parse);
    if Less(due, Iso(t)) || due == Iso(t) {
      forall now: nat | InYears(now)
        ensures IsRaised(due, now, parse) <==> t <= now
      {
        IsoOrder(t, now);
        if due != Iso(t) && t < now {
          LessIsTransitive(due, Iso(t), Iso(now));
        }
      }
    }
  }

  lemma {:induction false} PrefixIsLess(a: string, b: string)
    requires b != []
    ensures Less(a, a + b)
  {
    if a != [] {
      PrefixIsLess(a[1..], b);
      assert (a + b)[1..] == a[1..] + b;
    }
  }

  lemma IsoIs(c: Civil)
    requires IsDate(c) && IsTime(c) && c.year <= 9999 && InYears(MillisOf(c))
    ensures Iso(MillisOf(c)) == Spell(c, "Z")
  {
    var b := CivilOf(MillisOf(c));
    CivilKeepsInstant(MillisOf(c));
    SpellOrder(b, c, "Z", "Z");
    SpellOrder(c, b, "Z", "Z");
    LessIsTotal(Spell(b, "Z"), Spell(c, "Z"));
  }

  /** A due time that is the beginning of its canonical spelling, such as a bare date that the host reads as midnight, is
      raised on time. */
  lemma StartOfIsoIsRaised(c: Civil, n: nat, parse: Parser)
    requires IsDate(c) && IsTime(c) && c.year <= 9999 && InYears(MillisOf(c)) && n < 24
    requires parse(Spell(c, "Z")[..n]) == Some(MillisOf(c))
    ensures RaisedOnTime(Spell(c, "Z")[..n], MillisOf(c), parse)
  {
    var s := Spell(c, "Z");
    IsoIs(c);
    PrefixIsLess(s[..n], s[n..]);
    assert s[..n] + s[n..] == s;
    DueExactly(s[..n], MillisOf(c), parse);
  }

  lemma OffsetTextOrder(c: Civil, zone: string, now: nat)
    requires IsDate(c) && IsTime(c) && c.year <= 9999 && InYears(now) && zone != [] && zone[0] in {'+', '-'}
    ensures Less(Spell(c, zone), Iso(now)) <==> MillisOf(c) <= now
  {
    CivilKeepsInstant(now);
    SpellOrder(c, CivilOf(now), zone, "Z");
    assert Less(zone, "Z");
  }

  /** One whose due time is spelled with an offset ahead of UTC is raised late by the whole offset; with one behind UTC, on
      time. */
  lemma OffsetDueIsRaised(c: Civil, sign: char, hours: nat, minutes: nat, now: nat, offsets: Offsets, parse: Parser)
    requires Agrees(parse, offsets) && IsDate(c) && IsTime(c) && c.year <= 9999 && InYears(now)
    requires sign in {'+', '-'} && hours < 100 && minutes < 100 && offsets(hours, minutes)
    ensures var (due, ahead) := (Spell(c, OffsetText(sign, hours, minutes)), (hours * 60 + minutes) * 60_000);
      && parse(due) == Some(if sign == '+' then MillisOf(c) - ahead else MillisOf(c) + ahead)
      && (IsRaised(due, now, parse) <==> if sign == '+' then MillisOf(c) <= now else MillisOf(c) + ahead <= now)
  {
    hide Instant, Spell;
    var zone := OffsetText(sign, hours, minutes);
    OffsetInstant(c, sign, hours, minutes, offsets);
    OffsetTextOrder(c, zone, now);
    assert |Spell(c, zone)| != |Iso(now)|;
  }

  lemma WholeSeconds(c: Civil)
    requires IsDate(c) && IsTime(c)
    ensures MillisOf(WholeSecond(c)) % 1000 == 0 && MillisOf(c) == MillisOf(WholeSecond(c)) + c.milli
  {
    assert MillisOf(WholeSecond(c)) == 1000 * (DayOf(c) * 86_400 + (c.hour * 60 + c.minute) * 60 + c.second);
  }

  lemma NextSecond(t: int, u: int, milli: nat)
    requires t % 1000 == 0 && u % 1000 == 0 && milli <= 999
    ensures t < u <==> t + 1000 <= u + milli
  {
  }

  lemma SecondOrder(c: Civil, b: Civil)
    requires IsDate(c) && IsTime(c) && c.milli == 0 && IsDate(b) && IsTime(b)
    ensures DateBefore(c, b) || (SameDate(c, b) && TimeBefore(c, WholeSecond(b))) <==> MillisOf(c) + 1000 <= MillisOf(b)
  {
    InstantOrder(c, WholeSecond(b));
    WholeSeconds(c);
    WholeSeconds(b);
    NextSecond(MillisOf(c), MillisOf(WholeSecond(b)), b.milli);
  }

  lemma SecondsTextOrder(c: Civil, b: Civil)
    requires IsDate(c) && IsTime(c) && c.year <= 9999 && c.milli == 0 && IsDate(b) && IsTime(b) && b.year <= 9999
    ensures Less(SpellSeconds(c, "Z"), Spell(b, "Z")) <==> MillisOf(c) + 1000 <= MillisOf(b)
  {
    var after := ['.'] + (Padded(b.milli, 3) + "Z");
    assert !Less("Z", after);
    SecondTextOrder(c, b, "Z", after);
    DatedOrder(c, b, ToSecond(c, "Z"), ToSecond(b, after));
    SecondOrder(c, b);
  }

  /** One whose due time has no fraction is raised one second late. */
  lemma SecondsDueIsRaised(c: Civil, now: nat, offsets: Offsets, parse: Parser)
    requires Agrees(parse, offsets) && IsDate(c) && IsTime(c) && c.year <= 9999 && c.milli == 0 && InYears(now)
    ensures Instant(SpellSeconds(c, "Z"), offsets) == Some(MillisOf(c))
    ensures IsRaised(SpellSeconds(c, "Z"), now, parse) <==> MillisOf(c) + 1000 <= now
  {
    SecondsInstant(c, offsets);
    UtcInstant(c, "", offsets);
    CivilKeepsInstant(now);
    SecondsTextOrder(c, CivilOf(now));
    assert |SpellSeconds(c, "Z")| != |Iso(now)|;
  }
}
