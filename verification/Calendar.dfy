/** The proleptic Gregorian calendar from the year 0000 on. */
module Calendar {

  const DAY := 86_400_000

  predicate IsLeap(year: nat) {
    year % 4 == 0 && (year % 100 != 0 || year % 400 == 0)
  }

  function YearLength(year: nat): nat {
    if IsLeap(year) then 366 else 365
  }

  function MonthLength(year: nat, month: nat): nat
    requires 1 <= month <= 12
  {
    if month == 2 then if IsLeap(year) then 29 else 28
    else if month in {4, 6, 9, 11} then 30
    else 31
  }

  function DaysBeforeYear(year: nat): nat {
    if year == 0 then 0 else DaysBeforeYear(year - 1) + YearLength(year - 1)
  }

  function DaysBeforeMonth(year: nat, month: nat): nat
    requires 1 <= month <= 13
  {
    if month == 1 then 0 else DaysBeforeMonth(year, month - 1) + MonthLength(year, month - 1)
  }

  /** A day of the calendar and a time of that day. */
  datatype Civil = Civil(year: nat, month: nat, day: nat, hour: nat, minute: nat, second: nat, milli: nat)

  predicate IsDate(c: Civil) {
    1 <= c.month <= 12 && 1 <= c.day <= MonthLength(c.year, c.month)
  }

  predicate IsTime(c: Civil) {
    c.hour <= 23 && c.minute <= 59 && c.second <= 59 && c.milli <= 999
  }

  function DayOf(c: Civil): nat
    requires IsDate(c)
  {
    DaysBeforeYear(c.year) + DaysBeforeMonth(c.year, c.month) + c.day - 1
  }

  function TimeOf(c: Civil): nat {
    ((c.hour * 60 + c.minute) * 60 + c.second) * 1000 + c.milli
  }

  /** Milliseconds since 0000-01-01T00:00:00Z. The host counts from 1970, a constant later. */
  function MillisOf(c: Civil): nat
    requires IsDate(c)
  {
    DayOf(c) * DAY + TimeOf(c)
  }

  // ── Back from an instant ───────────────────────────────────────────────

  /** The year a day falls in, looked for from `from` on. */
  function YearAt(day: nat, from: nat): (year: nat)
    requires DaysBeforeYear(from) <= day
    ensures DaysBeforeYear(year) <= day < DaysBeforeYear(year + 1)
    decreases day - DaysBeforeYear(from)
  {
    if day < DaysBeforeYear(from + 1) then from else YearAt(day, from + 1)
  }

  function MonthAt(year: nat, rest: nat, from: nat): (month: nat)
    requires 1 <= from <= 12 && DaysBeforeMonth(year, from) <= rest < DaysBeforeMonth(year, 13)
    ensures 1 <= month <= 12 && DaysBeforeMonth(year, month) <= rest < DaysBeforeMonth(year, month + 1)
    decreases 12 - from
  {
    if rest < DaysBeforeMonth(year, from + 1) then from else MonthAt(year, rest, from + 1)
  }

  /** Twelve months make a year. */
  lemma MonthsFillYear(year: nat)
    ensures DaysBeforeMonth(year, 13) == YearLength(year)
  {
    assert DaysBeforeMonth(year, 2) == 31;
    assert DaysBeforeMonth(year, 3) == 31 + MonthLength(year, 2);
    assert DaysBeforeMonth(year, 5) == DaysBeforeMonth(year, 3) + 61;
    assert DaysBeforeMonth(year, 7) == DaysBeforeMonth(year, 5) + 61;
    assert DaysBeforeMonth(year, 9) == DaysBeforeMonth(year, 7) + 62;
    assert DaysBeforeMonth(year, 11) == DaysBeforeMonth(year, 9) + 61;
    assert DaysBeforeMonth(year, 13) == DaysBeforeMonth(year, 11) + 61;
  }

  function CivilOf(t: nat): (c: Civil)
    ensures IsDate(c) && IsTime(c)
  {
    var day, time := t / DAY, t % DAY;
    var year := YearAt(day, 0);
    var rest := day - DaysBeforeYear(year);
    MonthsFillYear(year);
    var month := MonthAt(year, rest, 1);
    Civil(year, month, rest - DaysBeforeMonth(year, month) + 1,
          time / 3_600_000, time / 60_000 % 60, time / 1000 % 60, time % 1000)
  }

  lemma TimeSplits(time: nat)
    ensures time == ((time / 3_600_000 * 60 + time / 60_000 % 60) * 60 + time / 1000 % 60) * 1000 + time % 1000
  {
    var seconds := time / 1000;
    var minutes := seconds / 60;
    assert time / 60_000 == minutes && time / 3_600_000 == minutes / 60;
  }

  lemma CivilKeepsInstant(t: nat)
    ensures MillisOf(CivilOf(t)) == t
  {
    TimeSplits(t % DAY);
  }

  // ── The calendar in closed form ────────────────────────────────────────

  /** Every fourth year is longer by a day, of the centuries every fourth only. */
  lemma {:induction false} YearsInClosedForm(year: nat)
    ensures DaysBeforeYear(year) == 365 * year + (year + 3) / 4 - (year + 99) / 100 + (year + 399) / 400
  {
    if year > 0 {
      YearsInClosedForm(year - 1);
      FourthStep(year - 1);
      HundredthStep(year - 1);
      FourHundredthStep(year - 1);
      LeapCounts(year - 1);
    }
  }

  function One(b: bool): nat {
    if b then 1 else 0
  }

  lemma FourthStep(n: nat)
    ensures (n + 4) / 4 == (n + 3) / 4 + One(n % 4 == 0)
  {
  }

  lemma HundredthStep(n: nat)
    ensures (n + 100) / 100 == (n + 99) / 100 + One(n % 100 == 0)
  {
  }

  lemma FourHundredthStep(n: nat)
    ensures (n + 400) / 400 == (n + 399) / 400 + One(n % 400 == 0)
  {
  }

  lemma LeapCounts(n: nat)
    ensures YearLength(n) == 365 + One(n % 4 == 0) - One(n % 100 == 0) + One(n % 400 == 0)
  {
    assert n % 100 == 0 ==> n % 4 == 0;
    assert n % 400 == 0 ==> n % 100 == 0;
  }

  /** The lengths of the months, of a leap year's February too. */
  const MONTHS := [31, 28, 31, 30, 31, 30, 31, 31, 30, 31, 30, 31]

  lemma MonthExactly(year: nat, month: nat)
    requires 1 <= month <= 12
    ensures MonthLength(year, month) == MONTHS[month - 1] + if month == 2 && DaysBeforeYear(year + 1) - DaysBeforeYear(year) == 366 then 1 else 0
  {
  }

  /** The host counts from here. */
  lemma UnixEpoch()
    ensures DayOf(Civil(1970, 1, 1, 0, 0, 0, 0)) == 719_528
  {
    YearsInClosedForm(1970);
  }

  // ── The order of dates ─────────────────────────────────────────────────

  /** Field by field, the largest first. */
  predicate DateBefore(a: Civil, b: Civil) {
    a.year < b.year || (a.year == b.year && (a.month < b.month || (a.month == b.month && a.day < b.day)))
  }

  predicate SameDate(a: Civil, b: Civil) {
    a.year == b.year && a.month == b.month && a.day == b.day
  }

  predicate TimeBefore(a: Civil, b: Civil) {
    a.hour < b.hour || (a.hour == b.hour && (a.minute < b.minute || (a.minute == b.minute
    && (a.second < b.second || (a.second == b.second && a.milli < b.milli)))))
  }

  lemma {:induction false} YearsGrow(a: nat, b: nat)
    requires a <= b
    ensures DaysBeforeYear(a) <= DaysBeforeYear(b)
    decreases b - a
  {
    if a < b {
      YearsGrow(a, b - 1);
    }
  }

  lemma {:induction false} MonthsGrow(year: nat, a: nat, b: nat)
    requires 1 <= a <= b <= 13
    ensures DaysBeforeMonth(year, a) <= DaysBeforeMonth(year, b)
    decreases b - a
  {
    if a < b {
      MonthsGrow(year, a, b - 1);
    }
  }

  lemma DateBeforeIsEarlier(a: Civil, b: Civil)
    requires IsDate(a) && IsDate(b) && DateBefore(a, b)
    ensures DayOf(a) < DayOf(b)
  {
    MonthsFillYear(a.year);
    if a.year < b.year {
      YearsGrow(a.year + 1, b.year);
      MonthsGrow(a.year, a.month + 1, 13);
    } else if a.month < b.month {
      MonthsGrow(a.year, a.month + 1, b.month);
    }
  }

  /** Dates compare field by field exactly as days compare. */
  lemma DateOrder(a: Civil, b: Civil)
    requires IsDate(a) && IsDate(b)
    ensures DateBefore(a, b) <==> DayOf(a) < DayOf(b)
    ensures SameDate(a, b) <==> DayOf(a) == DayOf(b)
  {
    if DateBefore(a, b) {
      DateBeforeIsEarlier(a, b);
    } else if DateBefore(b, a) {
      DateBeforeIsEarlier(b, a);
    }
  }

  lemma TimeOrder(a: Civil, b: Civil)
    requires IsTime(a) && IsTime(b)
    ensures TimeBefore(a, b) <==> TimeOf(a) < TimeOf(b)
    ensures TimeOf(a) < DAY
  {
  }

  /** Instants compare as date and then time compare. */
  lemma InstantOrder(a: Civil, b: Civil)
    requires IsDate(a) && IsTime(a) && IsDate(b) && IsTime(b)
    ensures MillisOf(a) < MillisOf(b) <==> DateBefore(a, b) || (SameDate(a, b) && TimeBefore(a, b))
  {
    DateOrder(a, b);
    TimeOrder(a, b);
    TimeOrder(b, a);
  }

  /** A date is in a year before `year` exactly if its day is before that year's first. */
  lemma YearBefore(c: Civil, year: nat)
    requires IsDate(c)
    ensures c.year < year <==> DayOf(c) < DaysBeforeYear(year)
  {
    if c.year < year {
      YearsGrow(c.year + 1, year);
      MonthsGrow(c.year, c.month + 1, 13);
      MonthsFillYear(c.year);
    } else {
      YearsGrow(year, c.year);
    }
  }

  lemma InstantDay(t: nat)
    ensures DayOf(CivilOf(t)) == t / DAY
  {
    hide CivilOf, DayOf;
    CivilKeepsInstant(t);
    TimeOrder(CivilOf(t), CivilOf(t));
  }
}
