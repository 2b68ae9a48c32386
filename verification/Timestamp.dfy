/** TS(t) of RFC-0009 section 2.3: cmd/agw-verify/main.go, pkg/evidence/strict.go and
    site/assets/rfc0009.js read the same grammar and print one UTC normal form. */
module Timestamp {
  import opened Decimal

  // ---------------------------------------------------------------- the grammar

  datatype Zone = Utc | Offset(negative: bool, hours: nat, minutes: nat)

  /** The fields of a timestamp as written. An absent fraction is "". */
  datatype Stamp = Stamp(year: nat, month: nat, day: nat, hour: nat, minute: nat, second: nat,
                         fraction: string, zone: Zone)

  function Two(s: string, i: nat): (n: nat)
    requires i + 1 < |s| && IsDigit(s[i]) && IsDigit(s[i + 1])
    ensures n < 100
  {
    DigitValue(s[i]) * 10 + DigitValue(s[i + 1])
  }

  predicate MatchesHead(s: string) {
    && |s| >= 19
    && IsDigit(s[0]) && IsDigit(s[1]) && IsDigit(s[2]) && IsDigit(s[3]) && s[4] == '-'
    && IsDigit(s[5]) && IsDigit(s[6]) && s[7] == '-' && IsDigit(s[8]) && IsDigit(s[9]) && s[10] == 'T'
    && IsDigit(s[11]) && IsDigit(s[12]) && s[13] == ':' && IsDigit(s[14]) && IsDigit(s[15])
    && s[16] == ':' && IsDigit(s[17]) && IsDigit(s[18])
  }

  /** How many digits s starts with. */
  function DigitRun(s: string): (k: nat)
    ensures k <= |s| && AllDigits(s[..k]) && (k < |s| ==> !IsDigit(s[k]))
  {
    if s == "" || !IsDigit(s[0]) then 0
    else
      var k := DigitRun(s[1..]);
      assert s[..k + 1] == [s[0]] + s[1..][..k];
      k + 1
  }

  function MatchZone(s: string): (r: Option<Zone>) {
    if s == "Z" then Some(Utc)
    else if |s| == 6 && (s[0] == '+' || s[0] == '-') && IsDigit(s[1]) && IsDigit(s[2]) && s[3] == ':'
            && IsDigit(s[4]) && IsDigit(s[5])
    then Some(Offset(s[0] == '-', Two(s, 1), Two(s, 4)))
    else None
  }

  /** The optional fraction and the zone: (\.[0-9]{1,9})?(Z|[+-][0-9]{2}:[0-9]{2}). */
  function MatchTail(s: string): (r: Option<(string, Zone)>)
    ensures r.Some? ==> |r.value.0| <= 9 && AllDigits(r.value.0)
  {
    var k := if s != "" && s[0] == '.' then DigitRun(s[1..]) else 0;
    if s != "" && s[0] == '.' && !(1 <= k <= 9) then None
    else
      var fraction, rest := if k == 0 then "" else s[1..k + 1], if k == 0 then s else s[k + 1..];
      assert k > 0 ==> fraction == s[1..][..k];
      match MatchZone(rest)
      case None => None
      case Some(zone) => Some((fraction, zone))
  }

  /** timestampRE.FindStringSubmatch. */
  function Match(s: string): (r: Option<Stamp>) {
    if !MatchesHead(s) then None
    else
      match MatchTail(s[19..])
      case None => None
      case Some((fraction, zone)) =>
        Some(Stamp(Two(s, 0) * 100 + Two(s, 2), Two(s, 5), Two(s, 8), Two(s, 11), Two(s, 14), Two(s, 17),
                   fraction, zone))
  }

  // ---------------------------------------------------------------- the calendar

  predicate IsLeap(y: int) {
    y % 4 == 0 && (y % 100 != 0 || y % 400 == 0)
  }

  function DaysIn(y: int, month: int): (n: nat)
    ensures 28 <= n <= 31
  {
    if month == 2 then if IsLeap(y) then 29 else 28
    else if month in {4, 6, 9, 11} then 30
    else 31
  }

  /** The day of month that time.Date and setUTCFullYear leave after carrying an overlong day
      into the following months. */
  function CarriedDay(y: int, month: int, day: int): (d: int)
    requires 1 <= month <= 12 && day >= 1
    ensures d == day <==> day <= DaysIn(y, month)
    ensures 1 <= d <= 31 && d <= day
    decreases day
  {
    if day <= DaysIn(y, month) then day
    else if month == 12 then CarriedDay(y + 1, 1, day - DaysIn(y, month))
    else CarriedDay(y, month + 1, day - DaysIn(y, month))
  }

  /** The range checks of `ts` and ValidTimestamp. */
  predicate Accepted(t: Stamp) {
    && 1 <= t.month <= 12 && t.day >= 1 && t.hour <= 23 && t.minute <= 59 && t.second <= 59
    && CarriedDay(t.year, t.month, t.day) == t.day
    && (t.zone.Offset? ==> t.zone.hours <= 23 && t.zone.minutes <= 59)
  }

  datatype Date = Date(year: int, month: int, day: int) {
    predicate Valid() {
      1 <= month <= 12 && 1 <= day <= DaysIn(year, month)
    }
  }

  function Next(d: Date): (n: Date)
    requires d.Valid()
    ensures n.Valid()
  {
    if d.day < DaysIn(d.year, d.month) then d.(day := d.day + 1)
    else if d.month < 12 then Date(d.year, d.month + 1, 1)
    else Date(d.year + 1, 1, 1)
  }

  function Previous(d: Date): (p: Date)
    requires d.Valid()
    ensures p.Valid() && Next(p) == d
  {
    if d.day > 1 then d.(day := d.day - 1)
    else if d.month > 1 then Date(d.year, d.month - 1, DaysIn(d.year, d.month - 1))
    else Date(d.year - 1, 12, 31)
  }

  function DaysBeforeYear(y: int): int {
    365 * y + (y + 3) / 4 - (y + 99) / 100 + (y + 399) / 400
  }

  function DaysBeforeMonth(y: int, month: int): (n: nat)
    requires 1 <= month <= 13
  {
    if month == 1 then 0 else DaysBeforeMonth(y, month - 1) + DaysIn(y, month - 1)
  }

  /** Days since the first of January of year 0 in the proleptic Gregorian calendar. */
  function DayNumber(d: Date): int
    requires d.Valid()
  {
    DaysBeforeYear(d.year) + DaysBeforeMonth(d.year, d.month) + d.day - 1
  }

  lemma YearLength(y: int)
    ensures DaysBeforeYear(y + 1) - DaysBeforeYear(y) == (if IsLeap(y) then 366 else 365)
    ensures DaysBeforeMonth(y, 13) == (if IsLeap(y) then 366 else 365)
  {
    LeapDay(y);
    MonthLengths(y);
  }

  /** The carried day is that of the date as many days on: it is told from the day given exactly where
      the month is over before it. */
  lemma {:induction false} CarriedDate(y: int, month: int, day: int) returns (d: Date)
    requires 1 <= month <= 12 && day >= 1
    ensures d.Valid() && d.day == CarriedDay(y, month, day)
    ensures DayNumber(d) == DayNumber(Date(y, month, 1)) + day - 1
    decreases day
  {
    hide DaysBeforeYear;
    if day <= DaysIn(y, month) {
      d := Date(y, month, day);
    } else if month == 12 {
      YearLength(y);
      d := CarriedDate(y + 1, 1, day - DaysIn(y, month));
    } else {
      d := CarriedDate(y, month + 1, day - DaysIn(y, month));
    }
  }

  lemma LeapDay(y: int)
    ensures DaysBeforeYear(y + 1) - DaysBeforeYear(y) == (if IsLeap(y) then 366 else 365)
  {
    assert (y + 4) / 4 - (y + 3) / 4 == (if y % 4 == 0 then 1 else 0);
    assert (y + 100) / 100 - (y + 99) / 100 == (if y % 100 == 0 then 1 else 0);
    assert (y + 400) / 400 - (y + 399) / 400 == (if y % 400 == 0 then 1 else 0);
    assert y % 100 == 0 ==> y % 4 == 0;
    assert y % 400 == 0 ==> y % 100 == 0;
  }

  lemma MonthLengths(y: int)
    ensures DaysBeforeMonth(y, 13) == 337 + DaysIn(y, 2)
  {
    var february := DaysIn(y, 2);
    assert DaysBeforeMonth(y, 2) == 31;
    assert DaysBeforeMonth(y, 3) == 31 + february;
    assert DaysBeforeMonth(y, 4) == 62 + february;
    assert DaysBeforeMonth(y, 5) == 92 + february;
    assert DaysBeforeMonth(y, 6) == 123 + february;
    assert DaysBeforeMonth(y, 7) == 153 + february;
    assert DaysBeforeMonth(y, 8) == 184 + february;
    assert DaysBeforeMonth(y, 9) == 215 + february;
    assert DaysBeforeMonth(y, 10) == 245 + february;
    assert DaysBeforeMonth(y, 11) == 276 + february;
    assert DaysBeforeMonth(y, 12) == 306 + february;
  }

  lemma NextDayNumber(d: Date)
    requires d.Valid()
    ensures DayNumber(Next(d)) == DayNumber(d) + 1
  {
    YearLength(d.year);
  }

  lemma {:induction false} MonthsOrdered(y: int, m: int, n: int)
    requires 1 <= m < n <= 13
    ensures DaysBeforeMonth(y, m) + DaysIn(y, m) <= DaysBeforeMonth(y, n)
    decreases n
  {
    if m >= n - 1 {
    } else {
      MonthsOrdered(y, m, n - 1);
    }
  }

  lemma {:induction false} YearsOrdered(x: int, y: int)
    requires x < y
    ensures DaysBeforeYear(x + 1) <= DaysBeforeYear(y)
    decreases y - x
  {
    if x + 1 >= y {
    } else {
      YearsOrdered(x, y - 1);
      YearLength(y - 1);
    }
  }

  lemma DayNumberOrdered(a: Date, b: Date)
    requires a.Valid() && b.Valid()
    requires a.year < b.year || (a.year == b.year && (a.month < b.month || (a.month == b.month && a.day < b.day)))
    ensures DayNumber(a) < DayNumber(b)
  {
    if a.year < b.year {
      YearsOrdered(a.year, b.year);
      YearLength(a.year);
      MonthsOrdered(a.year, a.month, 13);
    } else if a.month < b.month {
      MonthsOrdered(a.year, a.month, b.month);
    }
  }

  lemma DayNumberInjective(a: Date, b: Date)
    requires a.Valid() && b.Valid() && DayNumber(a) == DayNumber(b)
    ensures a == b
  {
    if a != b {
      if a.year < b.year || (a.year == b.year && (a.month < b.month || (a.month == b.month && a.day < b.day))) {
        DayNumberOrdered(a, b);
      } else {
        DayNumberOrdered(b, a);
      }
    }
  }

  // ---------------------------------------------------------------- instants

  const DAY: int := 86400
  const SECOND: int := 1_000_000_000

  /** A moment broken down in UTC: what Go's time.Time shows through UTC(). */
  datatype Civil = Civil(date: Date, second: int, nanos: int) {
    predicate Valid() {
      date.Valid() && 0 <= second < DAY && 0 <= nanos < SECOND
    }
  }

  /** Years the formatters print as four digits. */
  predicate FourDigitYear(c: Civil) {
    0 <= c.date.year <= 9999
  }

  function Instant(c: Civil): int
    requires c.Valid()
  {
    (DayNumber(c.date) * DAY + c.second) * SECOND + c.nanos
  }

  lemma InstantInjective(a: Civil, b: Civil)
    requires a.Valid() && b.Valid() && Instant(a) == Instant(b)
    ensures a == b
  {
    var x, y := DayNumber(a.date) * DAY + a.second, DayNumber(b.date) * DAY + b.second;
    assert x == y;
    assert DayNumber(a.date) == DayNumber(b.date);
    DayNumberInjective(a.date, b.date);
  }

  function Zeros(n: nat): (s: string)
    ensures |s| == n && AllDigits(s)
  {
    seq(n, _ => '0')
  }

  /** The fraction padded to nine digits. */
  function Padded(fraction: string): (s: string)
    requires |fraction| <= 9 && AllDigits(fraction)
    ensures |s| == 9 && AllDigits(s)
  {
    fraction + Zeros(9 - |fraction|)
  }

  function OffsetSeconds(z: Zone): int {
    match z
    case Utc => 0
    case Offset(negative, hours, minutes) =>
      if negative then -(hours * 3600 + minutes * 60) else hours * 3600 + minutes * 60
  }

  ghost predicate WellFormed(t: Stamp) {
    && t.year <= 9999 && t.month <= 99 && t.day <= 99 && t.hour <= 99 && t.minute <= 99 && t.second <= 99
    && |t.fraction| <= 9 && AllDigits(t.fraction)
    && (t.zone.Offset? ==> t.zone.hours <= 99 && t.zone.minutes <= 99)
  }

  /** The instant a timestamp names, in nanoseconds: its local reading minus its offset. */
  ghost function NamedInstant(t: Stamp): int
    requires WellFormed(t) && Accepted(t)
  {
    var local := DayNumber(Date(t.year, t.month, t.day)) * DAY + t.hour * 3600 + t.minute * 60 + t.second;
    (local - OffsetSeconds(t.zone)) * SECOND + Value(Padded(t.fraction))
  }

  lemma MatchWellFormed(s: string)
    ensures Match(s).Some? ==> WellFormed(Match(s).value)
  {
  }

  function {:induction false} FixedWidth(n: nat, w: nat): (s: string)
    ensures |s| == w && AllDigits(s)
  {
    if w == 0 then "" else FixedWidth(n / 10, w - 1) + [DigitChar(n % 10)]
  }

  lemma {:induction false} FixedWidthValue(s: string)
    requires AllDigits(s)
    ensures FixedWidth(Value(s), |s|) == s
  {
    if s == "" {
    } else {
      FixedWidthValue(s[..|s| - 1]);
      assert s == s[..|s| - 1] + [s[|s| - 1]];
    }
  }

  function Pow10(w: nat): nat {
    if w == 0 then 1 else 10 * Pow10(w - 1)
  }

  lemma {:induction false} ValueFixedWidth(n: nat, w: nat)
    requires n < Pow10(w)
    ensures Value(FixedWidth(n, w)) == n
  {
    if w == 0 {
    } else {
      ValueFixedWidth(n / 10, w - 1);
      var s := FixedWidth(n, w);
      assert s[..|s| - 1] == FixedWidth(n / 10, w - 1);
    }
  }

  lemma {:induction false} ValueBound(s: string)
    requires AllDigits(s)
    ensures Value(s) < Pow10(|s|)
  {
    if s == "" {
    } else {
      ValueBound(s[..|s| - 1]);
    }
  }

  lemma Pow10Nine()
    ensures Pow10(9) == SECOND
  {
    assert Pow10(3) == 1000;
    assert Pow10(6) == 1_000_000;
  }

  /** strings.TrimRight(s, "0"). */
  function TrimZeros(s: string): (t: string)
    ensures t <= s && (t != "" ==> t[|t| - 1] != '0')
    ensures t + Zeros(|s| - |t|) == s
  {
    if s != "" && s[|s| - 1] == '0' then
      var t := TrimZeros(s[..|s| - 1]);
      assert s == s[..|s| - 1] + ['0'];
      t
    else s
  }

  lemma {:induction false} ValueZero(s: string)
    requires AllDigits(s)
    ensures Value(s) == 0 <==> TrimZeros(s) == ""
  {
    if s == "" {
    } else {
      ValueZero(s[..|s| - 1]);
    }
  }

  /** time.Date(..., UTC).Add(-offset): an offset is under a day, so at most one day is carried. */
  function ToUtc(t: Stamp): (c: Civil)
    requires |t.fraction| <= 9 && AllDigits(t.fraction) && Accepted(t)
    ensures c.date.Valid() && 0 <= c.second < DAY
  {
    var date := Date(t.year, t.month, t.day);
    var second := t.hour * 3600 + t.minute * 60 + t.second - OffsetSeconds(t.zone);
    var nanos := Value(Padded(t.fraction));
    if second < 0 then Civil(Previous(date), second + DAY, nanos)
    else if second >= DAY then Civil(Next(date), second - DAY, nanos)
    else Civil(date, second, nanos)
  }

  /** Converting to UTC keeps the instant. */
  lemma ToUtcKeepsInstant(t: Stamp)
    requires WellFormed(t) && Accepted(t)
    ensures ToUtc(t).Valid() && Instant(ToUtc(t)) == NamedInstant(t)
  {
    ValueBound(Padded(t.fraction));
    Pow10Nine();
    var date := Date(t.year, t.month, t.day);
    NextDayNumber(date);
    NextDayNumber(Previous(date));
  }

  // ---------------------------------------------------------------- printing

  function Head(year: nat, month: nat, day: nat, hour: nat, minute: nat, second: nat): (s: string)
    requires year <= 9999 && month <= 99 && day <= 99 && hour <= 99 && minute <= 99 && second <= 99
    ensures |s| == 19
  {
    [DigitChar(year / 1000), DigitChar(year / 100 % 10), DigitChar(year / 10 % 10), DigitChar(year % 10), '-',
     DigitChar(month / 10), DigitChar(month % 10), '-', DigitChar(day / 10), DigitChar(day % 10), 'T',
     DigitChar(hour / 10), DigitChar(hour % 10), ':', DigitChar(minute / 10), DigitChar(minute % 10), ':',
     DigitChar(second / 10), DigitChar(second % 10)]
  }

  /** The printed fraction: nothing at zero, else a point and the nine digits without trailing zeros. */
  function FractionText(nanos: nat): string {
    if nanos == 0 then "" else "." + TrimZeros(FixedWidth(nanos, 9))
  }

  /** t.UTC().Format(time.RFC3339Nano), and the tail of `ts`. */
  function Format(c: Civil): string
    requires c.Valid() && FourDigitYear(c)
  {
    Head(c.date.year, c.date.month, c.date.day, c.second / 3600, c.second / 60 % 60, c.second % 60)
    + (FractionText(c.nanos) + "Z")
  }

  /** The stamp that Format spells. */
  function Spelling(c: Civil): Stamp
    requires c.Valid() && FourDigitYear(c)
  {
    Stamp(c.date.year, c.date.month, c.date.day, c.second / 3600, c.second / 60 % 60, c.second % 60,
          TrimZeros(FixedWidth(c.nanos, 9)), Utc)
  }

  lemma {:induction false} DigitRunStops(digits: string, rest: string)
    requires AllDigits(digits) && rest != "" && !IsDigit(rest[0])
    ensures DigitRun(digits + rest) == |digits|
  {
    if digits == "" {
      assert digits + rest == rest;
    } else {
      DigitRunStops(digits[1..], rest);
      assert (digits + rest)[1..] == digits[1..] + rest;
    }
  }

  /** The text of a stamp: the grammar read the other way. */
  ghost function Render(t: Stamp): string
    requires WellFormed(t)
  {
    Head(t.year, t.month, t.day, t.hour, t.minute, t.second)
    + ((if t.fraction == "" then "" else "." + t.fraction) + RenderZone(t.zone))
  }

  ghost function RenderZone(z: Zone): (s: string)
    requires z.Offset? ==> z.hours <= 99 && z.minutes <= 99
    ensures s != "" && !IsDigit(s[0]) && s[0] != '.'
  {
    match z
    case Utc => "Z"
    case Offset(negative, hours, minutes) =>
      [if negative then '-' else '+', DigitChar(hours / 10), DigitChar(hours % 10), ':',
       DigitChar(minutes / 10), DigitChar(minutes % 10)]
  }

  lemma ZoneRendered(z: Zone)
    requires z.Offset? ==> z.hours <= 99 && z.minutes <= 99
    ensures MatchZone(RenderZone(z)) == Some(z)
  {
  }

  lemma MatchTailRender(fraction: string, z: Zone)
    requires |fraction| <= 9 && AllDigits(fraction)
    requires z.Offset? ==> z.hours <= 99 && z.minutes <= 99
    ensures MatchTail((if fraction == "" then "" else "." + fraction) + RenderZone(z)) == Some((fraction, z))
  {
    hide MatchZone;
    hide RenderZone;
    hide DigitRun;
    ZoneRendered(z);
    if fraction == "" {
      assert "" + RenderZone(z) == RenderZone(z);
    } else {
      var s := "." + fraction + RenderZone(z);
      assert s[1..] == fraction + RenderZone(z);
      DigitRunStops(fraction, RenderZone(z));
      assert s[1..|fraction| + 1] == fraction && s[|fraction| + 1..] == RenderZone(z);
    }
  }

  lemma HeadMatches(year: nat, month: nat, day: nat, hour: nat, minute: nat, second: nat)
    requires year <= 9999 && month <= 99 && day <= 99 && hour <= 99 && minute <= 99 && second <= 99
    ensures MatchesHead(Head(year, month, day, hour, minute, second))
  {
  }

  lemma HeadFields(year: nat, month: nat, day: nat, hour: nat, minute: nat, second: nat)
    requires year <= 9999 && month <= 99 && day <= 99 && hour <= 99 && minute <= 99 && second <= 99
    ensures var s := Head(year, month, day, hour, minute, second);
            MatchesHead(s) && Two(s, 0) * 100 + Two(s, 2) == year && Two(s, 5) == month && Two(s, 8) == day
            && Two(s, 11) == hour && Two(s, 14) == minute && Two(s, 17) == second
  {
    HeadMatches(year, month, day, hour, minute, second);
    FourDigits(year);
  }

  lemma FourDigits(n: nat)
    requires n <= 9999
    ensures (n / 1000 * 10 + n / 100 % 10) * 100 + n / 10 % 10 * 10 + n % 10 == n
  {
  }

  /** A matching head decides the fields whatever follows it. */
  lemma HeadDecides(head: string, tail: string)
    requires |head| == 19 && MatchesHead(head)
    ensures MatchesHead(head + tail) && (head + tail)[19..] == tail && (head + tail)[..19] == head
    ensures forall i :: 0 <= i < 18 && IsDigit(head[i]) && IsDigit(head[i + 1]) ==>
              Two(head + tail, i) == Two(head, i)
  {
    var s := head + tail;
    assert forall i :: 0 <= i < 19 ==> s[i] == head[i];
  }

  lemma MatchRender(t: Stamp)
    requires WellFormed(t)
    ensures Match(Render(t)) == Some(t)
  {
    hide Head;
    hide RenderZone;
    hide MatchTail;
    hide DigitRun;
    var head := Head(t.year, t.month, t.day, t.hour, t.minute, t.second);
    var tail := (if t.fraction == "" then "" else "." + t.fraction) + RenderZone(t.zone);
    assert Render(t) == head + tail;
    HeadFields(t.year, t.month, t.day, t.hour, t.minute, t.second);
    HeadDecides(head, tail);
    MatchTailRender(t.fraction, t.zone);
  }

  lemma ClockFields(second: int)
    requires 0 <= second < DAY
    ensures second / 3600 <= 23 && second / 60 % 60 <= 59 && second % 60 <= 59
    ensures second / 3600 * 3600 + second / 60 % 60 * 60 + second % 60 == second
  {
  }

  lemma PaddedTrim(nanos: int)
    requires 0 <= nanos < SECOND
    ensures var trimmed := TrimZeros(FixedWidth(nanos, 9));
            AllDigits(trimmed) && |trimmed| <= 9 && Padded(trimmed) == FixedWidth(nanos, 9)
            && Value(Padded(trimmed)) == nanos && (trimmed == "" <==> nanos == 0)
  {
    Pow10Nine();
    ValueFixedWidth(nanos, 9);
    ValueZero(FixedWidth(nanos, 9));
  }

  lemma FormatRenders(c: Civil)
    requires c.Valid() && FourDigitYear(c)
    ensures WellFormed(Spelling(c)) && Accepted(Spelling(c)) && ToUtc(Spelling(c)) == c
    ensures Format(c) == Render(Spelling(c))
  {
    PaddedTrim(c.nanos);
    ClockFields(c.second);
  }

  // ---------------------------------------------------------------- ts

  /** OutsideYears is a text whose UTC year has no four-digit form: 10000, or the year before 0. */
  datatype TsResult = Refused | OutsideYears(text: string) | Ok(text: string)

  function PadLeft(s: string, width: nat): string {
    if |s| < width then Zeros(width - |s|) + s else s
  }

  /** %04d: the sign counts towards the width. */
  function AgwYear(year: int): string {
    if year < 0 then "-" + PadLeft(Print(-year), 3) else PadLeft(Print(year), 4)
  }

  /** String(year).padStart(4, "0"): the zeros go in front of the sign. */
  function JsYear(year: int): string {
    PadLeft(PrintInt(year), 4)
  }

  /** The year of time.RFC3339Nano: the sign does not count. */
  function ReferenceYear(year: int): string {
    if year < 0 then "-" + PadLeft(Print(-year), 4) else PadLeft(Print(year), 4)
  }

  /** Everything behind the year. */
  function AfterYear(c: Civil): string
    requires c.Valid()
  {
    Head(0, c.date.month, c.date.day, c.second / 3600, c.second / 60 % 60, c.second % 60)[4..]
    + (FractionText(c.nanos) + "Z")
  }

  /** `ts` of cmd/agw-verify/main.go. */
  function Ts(s: string): TsResult {
    match Match(s)
    case None => Refused
    case Some(t) =>
      if !Accepted(t) then Refused
      else
        MatchWellFormed(s); ToUtcKeepsInstant(t);
        var c := ToUtc(t);
        if FourDigitYear(c) then Ok(Format(c)) else OutsideYears(AgwYear(c.date.year) + AfterYear(c))
  }

  /** ValidTimestamp of pkg/evidence/strict.go, which encoding/json's time decoding follows. */
  predicate ValidTimestamp(s: string) {
    Match(s).Some? && Accepted(Match(s).value)
  }

  /** What the reference stores for an accepted timestamp. */
  function Decode(s: string): (c: Civil)
    requires ValidTimestamp(s)
    ensures c.Valid()
  {
    MatchWellFormed(s);
    ToUtcKeepsInstant(Match(s).value);
    ToUtc(Match(s).value)
  }

  /** What the reference prints of the time it decoded. */
  function ReferenceTs(s: string): TsResult {
    if !ValidTimestamp(s) then Refused
    else
      var c := Decode(s);
      if FourDigitYear(c) then Ok(Format(c)) else OutsideYears(ReferenceYear(c.date.year) + AfterYear(c))
  }

  /** The JavaScript side's UTC date and minute of day: whole minutes of offset, carried by Date. */
  function JsMinutes(t: Stamp): (r: (Date, nat))
    requires Accepted(t)
    ensures r.0.Valid() && r.1 < 1440
  {
    var offsetMinutes := if t.zone.Utc? then 0
                         else (if t.zone.negative then -1 else 1) * (t.zone.hours * 60 + t.zone.minutes);
    var date := Date(t.year, t.month, t.day);
    var minute := t.hour * 60 + t.minute - offsetMinutes;
    (if minute < 0 then Previous(date) else if minute >= 1440 then Next(date) else date, minute % 1440)
  }

  /** `ts` of site/assets/rfc0009.js: the fraction is carried as text. */
  function JsTs(s: string): TsResult {
    match Match(s)
    case None => Refused
    case Some(t) =>
      if !(1 <= t.month <= 12) || t.day < 1 || t.hour > 23 || t.minute > 59 || t.second > 59 then Refused
      else if CarriedDay(t.year, t.month, t.day) != t.day then Refused
      else if t.zone.Offset? && (t.zone.hours > 23 || t.zone.minutes > 59) then Refused
      else
        var (day, m) := JsMinutes(t);
        MatchWellFormed(s);
        var fraction := TrimZeros(Padded(t.fraction));
        var tail := (if fraction != "" then "." + fraction else "") + "Z";
        if 0 <= day.year <= 9999 then Ok(Head(day.year, day.month, day.day, m / 60, m % 60, t.second) + tail)
        else OutsideYears(JsYear(day.year) + (Head(0, day.month, day.day, m / 60, m % 60, t.second)[4..] + tail))
  }

  /** Exactly the grammar's real dates are accepted: s is accepted if and only if it is the
      rendering of fields in range whose date exists. */
  lemma AcceptsExactly(s: string)
    ensures Ts(s) != Refused <==>
            exists t: Stamp :: WellFormed(t) && Render(t) == s && InCalendar(t)
  {
    if Ts(s) != Refused {
      var t := Match(s).value;
      MatchWellFormed(s);
      RenderMatch(s);
      assert InCalendar(t);
    }
    forall t: Stamp | WellFormed(t) && Render(t) == s && InCalendar(t)
      ensures Ts(s) != Refused
    {
      MatchRender(t);
    }
  }

  /** Fields in range and a day its month has: the prose of section 2.3, with no carrying. */
  ghost predicate InCalendar(t: Stamp) {
    && 1 <= t.month <= 12 && 1 <= t.day <= DaysIn(t.year, t.month)
    && t.hour < 24 && t.minute < 60 && t.second < 60
    && (t.zone.Offset? ==> t.zone.hours < 24 && t.zone.minutes < 60)
  }

  lemma RenderMatch(s: string)
    requires Match(s).Some?
    ensures WellFormed(Match(s).value) && Render(Match(s).value) == s
  {
    MatchWellFormed(s);
    HeadDigits(s);
    TailMatch(s[19..]);
    RenderJoins(Match(s).value, s[..19], s[19..]);
    assert s == s[..19] + s[19..];
  }

  lemma RenderJoins(t: Stamp, head: string, tail: string)
    requires WellFormed(t)
    requires Head(t.year, t.month, t.day, t.hour, t.minute, t.second) == head
    requires (if t.fraction == "" then "" else "." + t.fraction) + RenderZone(t.zone) == tail
    ensures Render(t) == head + tail
  {
  }

  lemma TwoChars(s: string, i: nat)
    requires i + 1 < |s| && IsDigit(s[i]) && IsDigit(s[i + 1])
    ensures DigitChar(Two(s, i) / 10) == s[i] && DigitChar(Two(s, i) % 10) == s[i + 1]
  {
    assert Two(s, i) / 10 == DigitValue(s[i]);
  }

  lemma YearChars(s: string)
    requires MatchesHead(s)
    ensures var year := Two(s, 0) * 100 + Two(s, 2);
            DigitChar(year / 1000) == s[0] && DigitChar(year / 100 % 10) == s[1]
            && DigitChar(year / 10 % 10) == s[2] && DigitChar(year % 10) == s[3]
  {
    YearDigits(DigitValue(s[0]), DigitValue(s[1]), DigitValue(s[2]), DigitValue(s[3]));
  }

  lemma YearDigits(a: nat, b: nat, c: nat, d: nat)
    requires a < 10 && b < 10 && c < 10 && d < 10
    ensures var n := (a * 10 + b) * 100 + (c * 10 + d);
            n / 1000 == a && n / 100 % 10 == b && n / 10 % 10 == c && n % 10 == d
  {
    var n := (a * 10 + b) * 100 + (c * 10 + d);
    assert n / 10 == (a * 10 + b) * 10 + c;
    assert n / 100 == a * 10 + b;
    assert n / 1000 == a;
  }

  lemma HeadDigits(s: string)
    requires MatchesHead(s)
    ensures Head(Two(s, 0) * 100 + Two(s, 2), Two(s, 5), Two(s, 8), Two(s, 11), Two(s, 14), Two(s, 17)) == s[..19]
  {
    YearChars(s);
    TwoChars(s, 5);
    TwoChars(s, 8);
    TwoChars(s, 11);
    TwoChars(s, 14);
    TwoChars(s, 17);
    HeadSpells(s, Two(s, 0) * 100 + Two(s, 2), Two(s, 5), Two(s, 8), Two(s, 11), Two(s, 14), Two(s, 17));
  }

  lemma HeadSpells(s: string, year: nat, month: nat, day: nat, hour: nat, minute: nat, second: nat)
    requires year <= 9999 && month <= 99 && day <= 99 && hour <= 99 && minute <= 99 && second <= 99
    requires |s| >= 19 && s[4] == s[7] == '-' && s[10] == 'T' && s[13] == s[16] == ':'
    requires DigitChar(year / 1000) == s[0] && DigitChar(year / 100 % 10) == s[1]
    requires DigitChar(year / 10 % 10) == s[2] && DigitChar(year % 10) == s[3]
    requires DigitChar(month / 10) == s[5] && DigitChar(month % 10) == s[6]
    requires DigitChar(day / 10) == s[8] && DigitChar(day % 10) == s[9]
    requires DigitChar(hour / 10) == s[11] && DigitChar(hour % 10) == s[12]
    requires DigitChar(minute / 10) == s[14] && DigitChar(minute % 10) == s[15]
    requires DigitChar(second / 10) == s[17] && DigitChar(second % 10) == s[18]
    ensures Head(year, month, day, hour, minute, second) == s[..19]
  {
    var h := Head(year, month, day, hour, minute, second);
    assert forall i :: 0 <= i < 19 ==> h[i] == s[i];
  }

  lemma TailMatch(s: string)
    requires MatchTail(s).Some?
    ensures var (fraction, z) := MatchTail(s).value;
            (z.Offset? ==> z.hours <= 99 && z.minutes <= 99)
            && (if fraction == "" then "" else "." + fraction) + RenderZone(z) == s
  {
    var (fraction, z) := MatchTail(s).value;
    var rest := s[if s[0] == '.' then |fraction| + 1 else 0..];
    assert MatchZone(rest) == Some(z);
    assert RenderZone(z) == rest;
    if s[0] == '.' {
      assert s == "." + s[1..|fraction| + 1] + s[|fraction| + 1..];
    }
  }

  /** Two accepted texts normalise to the same text exactly when they name the same instant. */
  lemma NormalFormIsInstant(a: string, b: string)
    requires Ts(a).Ok? && Ts(b).Ok?
    ensures WellFormed(Match(a).value) && WellFormed(Match(b).value)
    ensures Ts(a) == Ts(b) <==> NamedInstant(Match(a).value) == NamedInstant(Match(b).value)
  {
    MatchWellFormed(a);
    MatchWellFormed(b);
    var s, t := Match(a).value, Match(b).value;
    ToUtcKeepsInstant(s);
    ToUtcKeepsInstant(t);
    if Ts(a) == Ts(b) {
      FormatInjective(ToUtc(s), ToUtc(t));
    }
    if NamedInstant(s) == NamedInstant(t) {
      InstantInjective(ToUtc(s), ToUtc(t));
    }
  }

  lemma FormatInjective(c: Civil, d: Civil)
    requires c.Valid() && d.Valid() && FourDigitYear(c) && FourDigitYear(d)
    requires Format(c) == Format(d)
    ensures c == d
  {
    FormatRenders(c);
    FormatRenders(d);
    MatchRender(Spelling(c));
    MatchRender(Spelling(d));
  }

  /** Normalising a formatted moment gives it back. */
  lemma TsFormat(c: Civil)
    requires c.Valid() && FourDigitYear(c)
    ensures Ts(Format(c)) == Ok(Format(c))
    ensures ValidTimestamp(Format(c)) && Decode(Format(c)) == c
  {
    FormatRenders(c);
    MatchRender(Spelling(c));
  }

  /** Normalisation is idempotent. */
  lemma TsIdempotent(s: string)
    requires Ts(s).Ok?
    ensures Ts(Ts(s).text) == Ts(s)
  {
    MatchWellFormed(s);
    ToUtcKeepsInstant(Match(s).value);
    TsFormat(ToUtc(Match(s).value));
  }

  /** The text's UTC year is before 0: local midnight of 0000-01-01 less an offset ahead of UTC. */
  predicate BeforeYearZero(s: string) {
    ValidTimestamp(s) && Decode(s).date.year < 0
  }

  /** Minutes of offset and a fraction carried as text print what the UTC moment prints. */
  lemma JsTsIs(s: string)
    requires ValidTimestamp(s)
    ensures var c := Decode(s);
            JsTs(s) == if FourDigitYear(c) then Ok(Format(c)) else OutsideYears(JsYear(c.date.year) + AfterYear(c))
  {
    hide Match;
    hide Head;
    hide TrimZeros;
    hide Padded;
    hide FractionText;
    hide Value;
    hide JsYear;
    var t := Match(s).value;
    MatchWellFormed(s);
    ToUtcKeepsInstant(t);
    MinutesOfDay(t);
    FractionAsText(t.fraction);
  }

  /** The three texts of a moment are one from year 0 on, and three before it. */
  lemma YearsInFront(c: Civil)
    requires c.Valid() && c.date.year >= -1
    ensures var (a, j, r) := (AgwYear(c.date.year), JsYear(c.date.year), ReferenceYear(c.date.year));
            if c.date.year >= 0 then a == j == r
            else a + AfterYear(c) != j + AfterYear(c) && a + AfterYear(c) != r + AfterYear(c)
                 && j + AfterYear(c) != r + AfterYear(c)
  {
    hide AfterYear;
    var (a, j, r) := (AgwYear(c.date.year), JsYear(c.date.year), ReferenceYear(c.date.year));
    YearsDiffer(c.date.year);
    FirstCharDiffers(a, j, AfterYear(c));
    assert |a + AfterYear(c)| == |a| + |AfterYear(c)| && |j + AfterYear(c)| == |j| + |AfterYear(c)|;
    assert |r + AfterYear(c)| == |r| + |AfterYear(c)|;
  }

  /** The second Go normaliser and the JavaScript one agree exactly on the texts whose UTC year is
      not before 0. There they pad the sign differently. */
  lemma JsTsAgrees(s: string)
    ensures JsTs(s) == Ts(s) <==> !BeforeYearZero(s)
    ensures JsTs(s).Ok? || Ts(s).Ok? ==> JsTs(s) == Ts(s)
  {
    hide Match;
    hide AfterYear;
    hide AgwYear;
    hide JsYear;
    hide Format;
    if ValidTimestamp(s) {
      JsTsIs(s);
      EarliestYear(s);
      YearsInFront(Decode(s));
    }
  }

  /** The two Go normalisers part at the same texts. */
  lemma ReferenceTsAgrees(s: string)
    ensures ReferenceTs(s) == Ts(s) <==> !BeforeYearZero(s)
  {
    hide Match;
    hide AfterYear;
    hide AgwYear;
    hide ReferenceYear;
    hide Format;
    if ValidTimestamp(s) {
      EarliestYear(s);
      YearsInFront(Decode(s));
    }
  }

  lemma EarliestYear(s: string)
    requires ValidTimestamp(s)
    ensures Decode(s).date.year >= -1
  {
    hide Match;
  }

  lemma YearsDiffer(year: int)
    requires year >= -1
    ensures AgwYear(year) != "" && JsYear(year) != ""
    ensures year >= 0 ==> AgwYear(year) == JsYear(year) == ReferenceYear(year)
    ensures year < 0 ==> |AgwYear(year)| == |JsYear(year)| == 4 && AgwYear(year)[0] != JsYear(year)[0]
    ensures year < 0 ==> |ReferenceYear(year)| == 5
  {
    assert Print(1) == "1";
  }

  lemma FirstCharDiffers(x: string, y: string, tail: string)
    requires x != "" && y != ""
    ensures x[0] != y[0] ==> x + tail != y + tail
  {
    assert (x + tail)[0] == x[0] && (y + tail)[0] == y[0];
  }

  /** Before year 0 there are three normalisers and three texts. */
  lemma ThreeNormalForms(s: string)
    requires BeforeYearZero(s)
    ensures Ts(s) != JsTs(s) && Ts(s) != ReferenceTs(s) && JsTs(s) != ReferenceTs(s)
  {
    hide Match;
    hide AfterYear;
    hide AgwYear;
    hide JsYear;
    hide ReferenceYear;
    hide Format;
    JsTsAgrees(s);
    ReferenceTsAgrees(s);
    JsTsIs(s);
    EarliestYear(s);
    YearsInFront(Decode(s));
  }

  /** 0000-01-01T00:00:00+00:01 is such a text. */
  lemma MinuteBeforeYearZero()
    ensures BeforeYearZero(Render(Stamp(0, 1, 1, 0, 0, 0, "", Offset(false, 0, 1))))
  {
    hide Match;
    MatchRender(Stamp(0, 1, 1, 0, 0, 0, "", Offset(false, 0, 1)));
  }

  /** Carrying the fraction as text prints what carrying it as nanoseconds prints. */
  lemma FractionAsText(fraction: string)
    requires |fraction| <= 9 && AllDigits(fraction)
    ensures var f := TrimZeros(Padded(fraction));
            FractionText(Value(Padded(fraction))) == (if f != "" then "." + f else "")
  {
    FixedWidthValue(Padded(fraction));
    ValueZero(Padded(fraction));
  }

  /** Whole-minute offsets leave the seconds alone. */
  lemma MinutesOfDay(t: Stamp)
    requires WellFormed(t) && Accepted(t)
    ensures var c := ToUtc(t);
            var (day, m) := JsMinutes(t);
            c.date == day && c.second / 3600 == m / 60 && c.second / 60 % 60 == m % 60 && c.second % 60 == t.second
  {
    var k := if t.zone.Utc? then 0
             else (if t.zone.negative then -1 else 1) * (t.zone.hours * 60 + t.zone.minutes);
    assert OffsetSeconds(t.zone) == 60 * k && -1440 < k < 1440;
    var minute := t.hour * 60 + t.minute - k;
    var second := t.hour * 3600 + t.minute * 60 + t.second - OffsetSeconds(t.zone);
    assert second == 60 * minute + t.second;
    MinuteCarry(minute);
    ClockOfMinutes(minute % 1440, t.second);
    assert ToUtc(t).second == minute % 1440 * 60 + t.second;
  }

  lemma MinuteCarry(minute: int)
    requires -1440 < minute < 2880
    ensures minute % 1440 == (if minute < 0 then minute + 1440 else if minute >= 1440 then minute - 1440 else minute)
  {
  }

  lemma ClockOfMinutes(m: nat, s: nat)
    requires m < 1440 && s < 60
    ensures (m * 60 + s) / 3600 == m / 60 && (m * 60 + s) / 60 % 60 == m % 60 && (m * 60 + s) % 60 == s
  {
    assert (m * 60 + s) / 60 == m;
  }
}
