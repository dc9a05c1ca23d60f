/**
 Container start times (agent/ploydok-agent/src/monitor.rs): an RFC 3339 timestamp parsed by
 hand into Unix seconds, with Howard Hinnant's days-from-civil arithmetic on `i32` and `u32`.

 The reference is a calendar that knows only the length of each month and counts days one by one.
 */
module CivilTime {

  import opened Wrappers
  import opened Text

  const I32_MIN: int := -0x8000_0000
  const I32_MAX: int := 0x7FFF_FFFF
  const U32_MAX: int := 0xFFFF_FFFF

  // ----- The reference calendar ---------------------------------------------------

  datatype Date = Date(year: int, month: int, day: int)

  const EPOCH: Date := Date(1970, 1, 1)

  predicate IsLeap(year: int) {
    year % 4 == 0 && (year % 100 != 0 || year % 400 == 0)
  }

  function DaysInMonth(year: int, month: int): int
    requires 1 <= month <= 12
  {
    if month == 2 then (if IsLeap(year) then 29 else 28)
    else if month in {4, 6, 9, 11} then 30
    else 31
  }

  predicate Valid(d: Date) {
    1 <= d.month <= 12 && 1 <= d.day <= DaysInMonth(d.year, d.month)
  }

  /** Calendar order. */
  predicate Before(a: Date, b: Date) {
    a.year < b.year || (a.year == b.year && (a.month < b.month || (a.month == b.month && a.day < b.day)))
  }

  function DayBefore(d: Date): (p: Date)
    requires Valid(d)
    ensures Valid(p) && Before(p, d)
  {
    if d.day > 1 then Date(d.year, d.month, d.day - 1)
    else if d.month > 1 then Date(d.year, d.month - 1, DaysInMonth(d.year, d.month - 1))
    else Date(d.year - 1, 12, 31)
  }

  predicate SinceEpoch(d: Date) {
    Valid(d) && d.year >= 1970
  }

  /** Days since 1970-01-01, counted one by one. */
  function DayNumber(d: Date): nat
    requires SinceEpoch(d)
    decreases d.year, d.month, d.day
  {
    if d == EPOCH then 0 else DayNumber(DayBefore(d)) + 1
  }

  // ----- The arithmetic of the agent ----------------------------------------------

  /** Rust's integer division truncates toward zero. */
  function TruncDiv(a: int, b: int): int
    requires b > 0
  {
    if a >= 0 then a / b else -((-a) / b)
  }

  function ShiftedYear(year: int, month: int): int {
    if month <= 2 then year - 1 else year
  }

  function Era(y: int): int {
    if y >= 0 then TruncDiv(y, 400) else TruncDiv(y - 399, 400)
  }

  function YearOfEra(y: int): (yoe: int)
    ensures 0 <= yoe < 400
  {
    y - Era(y) * 400
  }

  function MonthFromMarch(month: int): int {
    if month > 2 then month - 3 else month + 9
  }

  function DaysFromCivil(year: int, month: int, day: int): int {
    var y := ShiftedYear(year, month);
    var yoe := YearOfEra(y);
    var doy := (153 * MonthFromMarch(month) + 2) / 5 + day - 1;
    var doe := yoe * 365 + yoe / 4 - yoe / 100 + doy;
    Era(y) * 146_097 + doe - 719_468
  }

  /**
   No step leaves its machine type: a build with overflow checks does not panic.  The steps are the
   `i32` year arithmetic and the `u32` day-of-year and day-of-era sums, left to right.
   */
  predicate NoOverflow(year: int, month: int, day: int) {
    var y := ShiftedYear(year, month);
    var yoe := YearOfEra(y);
    var mp := MonthFromMarch(month);
    && I32_MIN <= y
    && (y < 0 ==> I32_MIN <= y - 399)
    && 0 <= mp && 153 * mp + 2 <= U32_MAX
    && (153 * mp + 2) / 5 + day <= U32_MAX
    && 0 <= (153 * mp + 2) / 5 + day - 1
    && 0 <= yoe * 365 + yoe / 4 - yoe / 100
    && yoe * 365 + yoe / 4 - yoe / 100 + ((153 * mp + 2) / 5 + day - 1) <= U32_MAX
  }

  /** Days from the start of an era to the first of March of its year `yoe`. */
  function DaysBeforeYear(yoe: int): int {
    yoe * 365 + yoe / 4 - yoe / 100
  }

  /** The largest day for which the sums of a year and month fit. */
  function LastDayThatFits(year: int, month: int): int {
    var before := DaysBeforeYear(YearOfEra(ShiftedYear(year, month)));
    U32_MAX - (153 * MonthFromMarch(month) + 2) / 5 - if before > 0 then before - 1 else 0
  }

  /** Exactly which of the years, months and days that fit their types pass through without overflow. */
  lemma OverflowIff(year: int, month: int, day: int)
    requires I32_MIN <= year <= I32_MAX && 0 <= month <= U32_MAX && 0 <= day <= U32_MAX
    ensures NoOverflow(year, month, day) <==>
              && ShiftedYear(year, month) >= I32_MIN + 399
              && month <= 28_071_684
              && day <= LastDayThatFits(year, month)
              && !(month == 3 && day == 0)
  {
    var mp := MonthFromMarch(month);
    assert month <= 28_071_684 <==> 153 * mp + 2 <= U32_MAX;
    assert 0 <= mp;
    assert (153 * mp + 2) / 5 == 0 <==> mp == 0;
    BeforeYearIsSmall(YearOfEra(ShiftedYear(year, month)));
  }

  lemma BeforeYearIsSmall(yoe: int)
    requires 0 <= yoe < 400
    ensures 0 <= DaysBeforeYear(yoe) <= 145_731
  {
  }

  /** Among calendar months and days only "March 0" underflows. */
  lemma OverflowOnlyOnMarchZero(year: int, month: int, day: int)
    requires I32_MIN + 400 <= year <= I32_MAX && 1 <= month <= 12 && 0 <= day <= 31
    ensures NoOverflow(year, month, day) <==> !(month == 3 && day == 0)
  {
    OverflowIff(year, month, day);
    BeforeYearIsSmall(YearOfEra(ShiftedYear(year, month)));
  }

  /** The closed form steps by one from each date to the next, across months, years, centuries and eras. */
  lemma DaysFromCivilSteps(d: Date)
    requires Valid(d)
    ensures var p := DayBefore(d);
            DaysFromCivil(d.year, d.month, d.day) == DaysFromCivil(p.year, p.month, p.day) + 1
  {
    if d.day == 1 {
      if d.month == 3 {
        MarchFirst(d.year);
      } else {
        FirstOfMonth(d.year, d.month);
      }
    }
  }

  function DayOfYear(month: int, day: int): int {
    (153 * MonthFromMarch(month) + 2) / 5 + day - 1
  }

  /** From March to February a month begins where the one before ends. */
  lemma MonthEnds(year: int, month: int)
    requires 1 <= month <= 12 && month != 3
    ensures DayOfYear(month, 1) == 1 + if month == 1 then DayOfYear(12, 31)
                                       else DayOfYear(month - 1, DaysInMonth(year, month - 1))
  {
    assert 3 < month <= 7 ==> month == 4 || month == 5 || month == 6 || month == 7;
    assert 7 < month ==> month == 8 || month == 9 || month == 10 || month == 11 || month == 12;
  }

  lemma SameShiftedYear(a: int, m: int, d: int, b: int, n: int, e: int)
    requires ShiftedYear(a, m) == ShiftedYear(b, n) && DayOfYear(m, d) == DayOfYear(n, e) + 1
    ensures DaysFromCivil(a, m, d) == DaysFromCivil(b, n, e) + 1
  {
  }

  lemma FirstOfMonth(year: int, month: int)
    requires 1 <= month <= 12 && month != 3
    ensures DaysFromCivil(year, month, 1)
         == 1 + if month == 1 then DaysFromCivil(year - 1, 12, 31)
                else DaysFromCivil(year, month - 1, DaysInMonth(year, month - 1))
  {
    MonthEnds(year, month);
    if month == 1 {
      SameShiftedYear(year, 1, 1, year - 1, 12, 31);
    } else {
      SameShiftedYear(year, month, 1, year, month - 1, DaysInMonth(year, month - 1));
    }
  }

  lemma EraIsFloor(y: int)
    ensures Era(y) == y / 400 && YearOfEra(y) == y % 400
  {
  }

  /** Days up to the first of March of year `r` of era `e`. */
  function MarchDays(e: int, r: int): int {
    e * 146_097 + DaysBeforeYear(r)
  }

  lemma MarchIs(year: int)
    ensures DaysFromCivil(year, 3, 1) == MarchDays(year / 400, year % 400) - 719_468
  {
    EraIsFloor(year);
  }

  lemma FebruaryIs(year: int, day: int)
    ensures DaysFromCivil(year, 2, day) == MarchDays((year - 1) / 400, (year - 1) % 400) + 336 + day - 719_468
  {
    EraIsFloor(year - 1);
  }

  predicate IsLeapInEra(r: int) {
    r == 0 || (r % 4 == 0 && r % 100 != 0)
  }

  lemma LeapInEra(year: int)
    ensures IsLeap(year) <==> IsLeapInEra(year % 400)
  {
    var e, r := year / 400, year % 400;
    Remainder4(year, 100 * e + r / 4, r % 4);
    Remainder100(year, 4 * e + r / 100, r % 100);
    Remainder4(r, r / 4, r % 4);
    Remainder100(r, r / 100, r % 100);
  }

  lemma Remainder4(x: int, q: int, r: int)
    requires x == 4 * q + r && 0 <= r < 4
    ensures x % 4 == r
  {
  }

  lemma Remainder100(x: int, q: int, r: int)
    requires x == 100 * q + r && 0 <= r < 100
    ensures x % 100 == r
  {
  }

  /** One year within an era. */
  lemma NextYearInEra(e: int, r: int)
    requires 0 < r < 400
    ensures MarchDays(e, r) == MarchDays(e, r - 1) + if IsLeapInEra(r) then 366 else 365
  {
    assert r % 4 == 0 ==> (r - 1) / 4 == r / 4 - 1;
    assert r % 4 != 0 ==> (r - 1) / 4 == r / 4;
    assert r % 100 == 0 ==> (r - 1) / 100 == r / 100 - 1;
    assert r % 100 != 0 ==> (r - 1) / 100 == r / 100;
    assert r % 100 == 0 ==> r % 4 == 0;
  }

  /** And from the last year of an era to the next. */
  lemma NextEra(e: int)
    ensures MarchDays(e, 0) == MarchDays(e - 1, 399) + 366
  {
  }

  lemma YearBefore(year: int)
    ensures if year % 400 == 0 then (year - 1) / 400 == year / 400 - 1 && (year - 1) % 400 == 399
            else (year - 1) / 400 == year / 400 && (year - 1) % 400 == year % 400 - 1
  {
  }

  /** Between February and March the shifted year changes, and with it possibly the era. */
  lemma MarchFirst(year: int)
    ensures DaysFromCivil(year, 3, 1) == DaysFromCivil(year, 2, DaysInMonth(year, 2)) + 1
  {
    MarchIs(year);
    FebruaryIs(year, DaysInMonth(year, 2));
    LeapInEra(year);
    YearBefore(year);
    if year % 400 == 0 {
      NextEra(year / 400);
    } else {
      NextYearInEra(year / 400, year % 400);
    }
  }

  /** Hinnant's formula counts days. */
  lemma {:induction false} DaysFromCivilCounts(d: Date)
    requires SinceEpoch(d)
    ensures DaysFromCivil(d.year, d.month, d.day) == DayNumber(d)
    decreases d.year, d.month, d.day
  {
    if d != EPOCH {
      DaysFromCivilSteps(d);
      DaysFromCivilCounts(DayBefore(d));
    }
  }

  /** Later dates have larger numbers. */
  lemma {:induction false} DayNumberIncreases(a: Date, b: Date)
    requires SinceEpoch(a) && SinceEpoch(b) && Before(a, b)
    ensures DayNumber(a) < DayNumber(b)
    decreases b.year, b.month, b.day
  {
    var p := DayBefore(b);
    if a != p {
      DayNumberIncreases(a, p);
    }
  }

  // ----- The parser --------------------------------------------------------------------

  /** `str::parse::<u32>`: digits, possibly after a plus sign, without overflow. */
  function ParseU32(s: string): Option<nat> {
    var digits := if s != "" && s[0] == '+' then s[1..] else s;
    if digits == "" || !AllDigits(digits) || ReadDigits(digits) > U32_MAX then None
    else Some(ReadDigits(digits))
  }

  /** `str::parse::<i32>`: as for `u32`, with either sign. */
  function ParseI32(s: string): Option<int> {
    var negative := s != "" && s[0] == '-';
    var digits := if s != "" && (s[0] == '+' || s[0] == '-') then s[1..] else s;
    if digits == "" || !AllDigits(digits) then None else
    var value: int := if negative then 0 - ReadDigits(digits) else ReadDigits(digits);
    if I32_MIN <= value <= I32_MAX then Some(value) else None
  }

  predicate EndsTime(c: char) {
    c == '.' || c == 'Z' || c == '+' || c == '-'
  }

  /** `parse_iso8601_to_unix_secs`.  Whatever follows the seconds is ignored. */
  function Parse(s: string): Option<nat> {
    if "0001-" <= s || s == "" then None else
    var dateEnd := IndexOf(s, 'T');
    if dateEnd == -1 then None else
    var rest := s[dateEnd + 1..];
    var timeEnd := IndexWhere(rest, EndsTime);
    if timeEnd == -1 then None else
    ParseParts(s[..dateEnd], rest[..timeEnd])
  }

  function ParseParts(datePart: string, timePart: string): Option<nat> {
    Combine(ParseDate(datePart), ParseTime(timePart))
  }

  function Combine(days: Option<int>, seconds: Option<nat>): Option<nat> {
    if days == None || seconds == None then None else
    var secs := days.value * 86_400 + seconds.value;
    if secs < 0 then None else Some(secs)
  }

  function ParseDate(s: string): Option<int> {
    var parts := Split(s, '-');
    if |parts| < 3 then None else
    var year, month, day := ParseI32(parts[0]), ParseU32(parts[1]), ParseU32(parts[2]);
    if year == None || month == None || day == None then None
    else Some(DaysFromCivil(year.value, month.value, day.value))
  }

  function ParseTime(s: string): Option<nat> {
    var parts := Split(s, ':');
    if |parts| < 3 then None else
    var hour, min, sec := ParseU32(parts[0]), ParseU32(parts[1]), ParseU32(parts[2]);
    if hour == None || min == None || sec == None then None
    else Some(hour.value * 3_600 + min.value * 60 + sec.value)
  }

  /** The year stands before the first dash, so a negative one is never read. */
  lemma ParsedYearIsNotNegative(s: string)
    ensures var year := ParseI32(Split(s, '-')[0]); year.Some? ==> 0 <= year.value <= I32_MAX
  {
  }

  datatype DateTime = DateTime(date: Date, hour: nat, min: nat, sec: nat)

  /** The dates RFC 3339 can write, from the epoch on; leap seconds included. */
  predicate Writable(t: DateTime) {
    SinceEpoch(t.date) && t.date.year <= 9999 && t.hour <= 23 && t.min <= 59 && t.sec <= 60
  }

  /** `full-date "T" partial-time` of RFC 3339, section 5.6, without the fraction. */
  function Format(t: DateTime): string
    requires Writable(t)
  {
    FormatDate(t.date) + ['T'] + FormatTime(t)
  }

  function FormatDate(d: Date): string
    requires 0 <= d.year && 0 <= d.month && 0 <= d.day
  {
    Pad(d.year, 4) + ['-'] + Pad(d.month, 2) + ['-'] + Pad(d.day, 2)
  }

  function FormatTime(t: DateTime): string {
    Pad(t.hour, 2) + [':'] + Pad(t.min, 2) + [':'] + Pad(t.sec, 2)
  }

  lemma NoneInDigits(s: string)
    requires AllDigits(s)
    ensures '-' !in s && ':' !in s && 'T' !in s
    ensures forall c <- s :: !EndsTime(c)
  {
  }

  lemma ParsesPad(n: nat, w: nat)
    requires 1 <= w && n < Pow10(w) && n <= 9999
    ensures ParseU32(Pad(n, w)) == Some(n) && ParseI32(Pad(n, w)) == Some(n)
  {
    ReadPad(n, w);
    var s := Pad(n, w);
    assert IsDigit(s[0]);
  }

  lemma SplitThree(a: string, b: string, c: string, sep: char)
    requires sep !in a && sep !in b && sep !in c
    ensures Split(a + [sep] + b + [sep] + c, sep) == [a, b, c]
  {
    calc {
      Split(a + [sep] + b + [sep] + c, sep);
      { Regrouped(a, [sep], b, [sep], c); }
      Split(a + [sep] + (b + [sep] + c), sep);
      { SplitFirst(a, sep, b + [sep] + c); }
      [a] + Split(b + [sep] + c, sep);
      { SplitFirst(b, sep, c); }
      [a] + ([b] + Split(c, sep));
      { SplitLast(c, sep); }
      [a] + ([b] + [c]);
      [a, b, c];
    }
  }

  lemma Regrouped(a: string, x: string, b: string, y: string, c: string)
    ensures a + x + b + y + c == a + x + (b + y + c)
  {
  }

  /** The positions at which the parser cuts. */
  lemma Cuts(date: string, time: string, tail: string)
    requires 'T' !in date && (forall c <- time :: !EndsTime(c))
    requires tail != "" && EndsTime(tail[0])
    ensures var s := date + ['T'] + time + tail;
            IndexOf(s, 'T') == |date| && s[..|date|] == date &&
            var rest := s[|date| + 1..];
            IndexWhere(rest, EndsTime) == |time| && rest[..|time|] == time
  {
    var s := date + ['T'] + time + tail;
    assert s == date + ['T'] + (time + tail);
    IndexAfter(date, 'T', time + tail);
    assert s[|date| + 1..] == time + tail;
    assert (time + tail)[|time|] == tail[0];
    assert forall k | 0 <= k < |time| :: (time + tail)[k] == time[k];
  }

  function SecondsSinceEpoch(t: DateTime): nat
    requires SinceEpoch(t.date)
  {
    86_400 * DayNumber(t.date) + 3_600 * t.hour + 60 * t.min + t.sec
  }

  /**
   Parsing any RFC 3339 timestamp since the epoch gives the number of seconds counted day by
   day, whatever fraction or offset follows.
   */
  lemma ParseFormat(t: DateTime, tail: string)
    requires Writable(t) && tail != "" && EndsTime(tail[0])
    ensures Parse(Format(t) + tail) == Some(SecondsSinceEpoch(t))
  {
    FormatIsCut(t, tail);
    PartsOfFormat(t);
    Combined(t);
  }

  lemma Combined(t: DateTime)
    requires SinceEpoch(t.date)
    ensures Combine(Some(DaysFromCivil(t.date.year, t.date.month, t.date.day)),
                    Some(t.hour * 3_600 + t.min * 60 + t.sec)) == Some(SecondsSinceEpoch(t))
  {
    DaysFromCivilCounts(t.date);
  }

  lemma FormatIsCut(t: DateTime, tail: string)
    requires Writable(t) && tail != "" && EndsTime(tail[0])
    ensures Parse(Format(t) + tail) == ParseParts(FormatDate(t.date), FormatTime(t))
  {
    var date, time := FormatDate(t.date), FormatTime(t);
    assert Format(t) + tail == date + ['T'] + time + tail;
    NoneInDigits(Pad(t.date.year, 4) + Pad(t.date.month, 2) + Pad(t.date.day, 2));
    NoneInDigits(Pad(t.hour, 2) + Pad(t.min, 2) + Pad(t.sec, 2));
    NotYearOne(t.date.year, date, time, tail);
    ParseCut(date, time, tail);
  }

  lemma ParseCut(date: string, time: string, tail: string)
    requires 'T' !in date && (forall c <- time :: !EndsTime(c))
    requires tail != "" && EndsTime(tail[0])
    requires !("0001-" <= date + ['T'] + time + tail)
    ensures Parse(date + ['T'] + time + tail) == ParseParts(date, time)
  {
    Cuts(date, time, tail);
  }

  lemma PartsOfFormat(t: DateTime)
    requires Writable(t)
    ensures ParseParts(FormatDate(t.date), FormatTime(t)) ==
            Combine(Some(DaysFromCivil(t.date.year, t.date.month, t.date.day)),
                    Some(t.hour * 3_600 + t.min * 60 + t.sec))
  {
    DateOfFormat(t.date);
    TimeOfFormat(t);
  }

  lemma DateOfFormat(d: Date)
    requires 0 <= d.year <= 9999 && 0 <= d.month <= 99 && 0 <= d.day <= 99
    ensures ParseDate(FormatDate(d)) == Some(DaysFromCivil(d.year, d.month, d.day))
  {
    assert Pow10(2) == 100 && Pow10(4) == 10000;
    ParsesPad(d.year, 4);
    ParsesPad(d.month, 2);
    ParsesPad(d.day, 2);
    SplitThree(Pad(d.year, 4), Pad(d.month, 2), Pad(d.day, 2), '-');
  }

  lemma TimeOfFormat(t: DateTime)
    requires t.hour <= 99 && t.min <= 99 && t.sec <= 99
    ensures ParseTime(FormatTime(t)) == Some(t.hour * 3_600 + t.min * 60 + t.sec)
  {
    assert Pow10(2) == 100;
    ParsesPad(t.hour, 2);
    ParsesPad(t.min, 2);
    ParsesPad(t.sec, 2);
    SplitThree(Pad(t.hour, 2), Pad(t.min, 2), Pad(t.sec, 2), ':');
  }

  lemma NotYearOne(year: nat, date: string, time: string, tail: string)
    requires 1970 <= year <= 9999 && Pad(year, 4) <= date
    ensures !("0001-" <= date + ['T'] + time + tail)
  {
    var s := date + ['T'] + time + tail;
    assert Pow10(4) == 10000;
    ReadPad(year, 4);
    if s[..4] == "0001" {
      assert s[..4] == Pad(year, 4);
      assert Pad(year, 4) == Pad(1, 4);
      ReadPad(1, 4);
    }
  }

  predicate Spells(s: string, n: nat) {
    AllDigits(s) && ReadDigits(s) == n
  }

  lemma ThreePieces(x: string, y: string, z: string, sep: char)
    requires |y| == 2 && |z| == 2
    ensures var s, w := x + [sep] + y + [sep] + z, |x|;
            && |s| == w + 6 && s[w] == sep && s[w + 3] == sep
            && s[..w] == x && s[w + 1..w + 3] == y && s[w + 4..] == z
  {
  }

  lemma PadSpells(n: nat, w: nat)
    requires n < Pow10(w)
    ensures |Pad(n, w)| == w && Spells(Pad(n, w), n)
  {
    ReadPad(n, w);
  }

  /** What a formatted stamp looks like: the date, the letter T, the time, each number in its place. */
  lemma FormatSpells(t: DateTime)
    requires Writable(t)
    ensures Format(t) == FormatDate(t.date) + ['T'] + FormatTime(t)
    ensures var d := FormatDate(t.date);
            && |d| == 10 && d[4] == '-' && d[7] == '-'
            && Spells(d[..4], t.date.year) && Spells(d[5..7], t.date.month) && Spells(d[8..], t.date.day)
    ensures var h := FormatTime(t);
            && |h| == 8 && h[2] == ':' && h[5] == ':'
            && Spells(h[..2], t.hour) && Spells(h[3..5], t.min) && Spells(h[6..], t.sec)
  {
    assert Pow10(2) == 100 && Pow10(4) == 10000;
    PadSpells(t.date.year, 4);
    PadSpells(t.date.month, 2);
    PadSpells(t.date.day, 2);
    PadSpells(t.hour, 2);
    PadSpells(t.min, 2);
    PadSpells(t.sec, 2);
    ThreePieces(Pad(t.date.year, 4), Pad(t.date.month, 2), Pad(t.date.day, 2), '-');
    ThreePieces(Pad(t.hour, 2), Pad(t.min, 2), Pad(t.sec, 2), ':');
  }

  /** Numbers may have a plus sign, and are refused beyond 32 bits. */
  lemma ParseU32Is(digits: string)
    requires digits != "" && AllDigits(digits)
    ensures ParseU32(digits) == if ReadDigits(digits) < 0x1_0000_0000 then Some(ReadDigits(digits)) else None
  {
    DigitIsNoSpace(digits[0]);
  }

  lemma ParseU32Signed(sign: char, digits: string)
    requires digits != "" && AllDigits(digits) && !IsDigit(sign)
    ensures ParseU32([sign] + digits) == if sign == '+' then ParseU32(digits) else None
  {
    var s := [sign] + digits;
    DigitIsNoSpace(digits[0]);
    assert s[1..] == digits;
    assert sign == '+' || (s[0] == sign && s[0] in s);
  }

  /** What is refused: the zero date of the engine, no time part, and a time part that nothing ends. */
  lemma ParseRefuses(s: string)
    requires "0001-" <= s || 'T' !in s || exists date, rest ::
               s == date + ['T'] + rest && 'T' !in date && forall c <- rest :: !EndsTime(c)
    ensures Parse(s) == None
  {
    if !("0001-" <= s) && 'T' in s {
      var date, rest :| s == date + ['T'] + rest && 'T' !in date && forall c <- rest :: !EndsTime(c);
      IndexAfter(date, 'T', rest);
      assert s[|date| + 1..] == rest;
    }
  }

  // ----- Offsets ---------------------------------------------------------------------

  /** `time-numoffset` of RFC 3339: hours and minutes east or west of UTC. */
  datatype Offset = Offset(east: bool, hours: nat, minutes: nat)

  function Show(o: Offset): string {
    (if o.east then "+" else "-") + Pad(o.hours, 2) + ":" + Pad(o.minutes, 2)
  }

  /** The fraction of a second, if any: a dot and what follows it. */
  predicate IsFraction(s: string) {
    s == "" || s[0] == '.'
  }

  /** The instant that a local time with an offset denotes, in seconds since the epoch. */
  function Instant(t: DateTime, o: Offset): int
    requires SinceEpoch(t.date)
  {
    var shift := 3_600 * o.hours + 60 * o.minutes;
    SecondsSinceEpoch(t) - if o.east then shift else -shift
  }

  /**
   An offset is not applied: local times are read as if they were UTC, so a time stamp with an offset
   is read as the instant it denotes if and only if the offset is zero.
   */
  lemma OffsetRightIffZero(t: DateTime, fraction: string, o: Offset)
    requires Writable(t) && IsFraction(fraction)
    ensures var parsed := Parse(Format(t) + (fraction + Show(o)));
            && parsed == Parse(Format(t) + "Z")
            && parsed.Some?
            && (parsed.value == Instant(t, o) <==> o.hours == 0 && o.minutes == 0)
  {
    TailEndsTime(fraction, o);
    TailIsIgnored(t, fraction + Show(o), o);
  }

  lemma TailEndsTime(fraction: string, o: Offset)
    requires IsFraction(fraction)
    ensures fraction + Show(o) != "" && EndsTime((fraction + Show(o))[0])
  {
    assert Show(o)[0] == if o.east then '+' else '-';
  }

  lemma TailIsIgnored(t: DateTime, tail: string, o: Offset)
    requires Writable(t) && tail != "" && EndsTime(tail[0])
    ensures var parsed := Parse(Format(t) + tail);
            && parsed == Parse(Format(t) + "Z")
            && parsed.Some?
            && (parsed.value == Instant(t, o) <==> o.hours == 0 && o.minutes == 0)
  {
    ParseFormat(t, tail);
    ParseFormat(t, "Z");
  }

  predicate Earlier(a: DateTime, b: DateTime) {
    Before(a.date, b.date) ||
    (a.date == b.date && (a.hour < b.hour || (a.hour == b.hour &&
     (a.min < b.min || (a.min == b.min && a.sec < b.sec)))))
  }

  /** Parsing keeps the order of times without leap seconds, whatever fraction or zone stands behind each. */
  lemma ParseIncreases(a: DateTime, aTail: string, b: DateTime, bTail: string)
    requires Writable(a) && Writable(b) && a.sec < 60 && b.sec < 60 && Earlier(a, b)
    requires aTail != "" && EndsTime(aTail[0]) && bTail != "" && EndsTime(bTail[0])
    ensures Parse(Format(a) + aTail).Some? && Parse(Format(b) + bTail).Some?
    ensures Parse(Format(a) + aTail).value < Parse(Format(b) + bTail).value
  {
    ParseFormat(a, aTail);
    ParseFormat(b, bTail);
    if Before(a.date, b.date) {
      DayNumberIncreases(a.date, b.date);
    }
  }
}
