/**
 Python's aware datetimes and their isoformat(): a local time and the offset of the zone at that time.
 When the order of the strings, which the database compares, is the order of the times.
 */
module Timestamps {

  /** A local time in microseconds since the start of year 1, and the UTC offset in minutes. */
  datatype Stamp = Stamp(local: nat, offset: int)
  {
    /** Years 1 to 9999, and offsets of less than a day, as datetime allows them. */
    predicate Valid() {
      local / DAY < DaysToYear(MAX_YEAR) && -1440 < offset < 1440
    }

    /** The instant: microseconds of UTC. */
    function Utc(): int {
      local - offset * MINUTE
    }

    /** Aware datetimes add to the local time; here the offset stays. */
    function PlusSeconds(n: nat): Stamp {
      Stamp(local + n * SECOND, offset)
    }
  }

  /** The first year with five digits. */
  const MAX_YEAR: nat := 10000

  const SECOND: nat := 1_000_000
  const MINUTE: nat := 60 * SECOND
  const HOUR: nat := 60 * MINUTE
  const DAY: nat := 24 * HOUR

  // ---- the calendar ----

  predicate Leap(year: nat) {
    year % 4 == 0 && (year % 100 != 0 || year % 400 == 0)
  }

  function YearLength(year: nat): nat {
    if Leap(year) then 366 else 365
  }

  /** The days from year 1 to the first of January of a year. */
  function DaysToYear(year: nat): nat {
    if year <= 1 then 0 else DaysToYear(year - 1) + YearLength(year - 1)
  }

  function MonthLength(year: nat, month: nat): nat {
    if month == 2 then (if Leap(year) then 29 else 28)
    else if month == 4 || month == 6 || month == 9 || month == 11 then 30
    else 31
  }

  /** The days of a year before the first of a month. */
  function DaysToMonth(year: nat, month: nat): nat {
    if month <= 1 then 0 else DaysToMonth(year, month - 1) + MonthLength(year, month - 1)
  }

  /** The year in which a day lies, searched from a year that is not later. */
  function YearOf(day: nat, from: nat): (year: nat)
    requires from >= 1 && DaysToYear(from) <= day
    ensures year >= from && DaysToYear(year) <= day < DaysToYear(year + 1)
    decreases day - DaysToYear(from)
  {
    if day < DaysToYear(from + 1) then from else YearOf(day, from + 1)
  }

  /** The month in which the day of a year lies. */
  function MonthOf(year: nat, day: nat, from: nat): (month: nat)
    requires 1 <= from <= 12 && DaysToMonth(year, from) <= day < DaysToMonth(year, 13)
    ensures from <= month <= 12 && DaysToMonth(year, month) <= day < DaysToMonth(year, month + 1)
    decreases 12 - from
  {
    if day < DaysToMonth(year, from + 1) then from else MonthOf(year, day, from + 1)
  }

  lemma MonthsFillYear(year: nat)
    ensures DaysToMonth(year, 13) == YearLength(year)
  {
    var march := 31 + MonthLength(year, 2);
    assert DaysToMonth(year, 2) == 31;
    assert DaysToMonth(year, 3) == march;
    assert DaysToMonth(year, 5) == DaysToMonth(year, 4) + 30 == march + 61;
    assert DaysToMonth(year, 7) == DaysToMonth(year, 6) + 30 == march + 122;
    assert DaysToMonth(year, 9) == DaysToMonth(year, 8) + 31 == march + 184;
    assert DaysToMonth(year, 11) == DaysToMonth(year, 10) + 31 == march + 245;
    assert DaysToMonth(year, 13) == DaysToMonth(year, 12) + 31 == march + 306;
  }

  /** The month of a day of a year. */
  function MonthIn(year: nat, day: nat): (month: nat)
    requires day < YearLength(year)
    ensures 1 <= month <= 12 && DaysToMonth(year, month) <= day < DaysToMonth(year, month + 1)
  {
    MonthsFillYear(year);
    MonthOf(year, day, 1)
  }

  lemma {:induction false} LaterYear(year: nat, later: nat)
    requires year < later
    ensures DaysToYear(year + 1) <= DaysToYear(later)
    decreases later
  {
    if year + 1 < later {
      LaterYear(year, later - 1);
    }
  }

  lemma {:induction false} LaterMonth(year: nat, month: nat, later: nat)
    requires month < later
    ensures DaysToMonth(year, month + 1) <= DaysToMonth(year, later)
    decreases later
  {
    if month + 1 < later {
      LaterMonth(year, month, later - 1);
    }
  }

  /** The calendar in closed form: every fourth year is a leap year, but of the centuries only every fourth. */
  lemma {:induction false} DaysOfYears(years: nat)
    ensures DaysToYear(years + 1) == 365 * years + years / 4 - years / 100 + years / 400
  {
    if years > 0 {
      DaysOfYears(years - 1);
      LeapQuotients(years);
    }
  }

  lemma LeapQuotients(n: nat)
    requires n > 0
    ensures n / 4 - n / 100 + n / 400 == (n - 1) / 4 - (n - 1) / 100 + (n - 1) / 400 + if Leap(n) then 1 else 0
  {
    QuotientNext(n, 4);
    QuotientNext(n, 100);
    QuotientNext(n, 400);
    CenturiesDivide(n);
  }

  lemma CenturiesDivide(n: nat)
    ensures n % 400 == 0 ==> n % 100 == 0
    ensures n % 100 == 0 ==> n % 4 == 0
  {
    if n % 400 == 0 { assert n == 100 * (4 * (n / 400)); }
    if n % 100 == 0 { assert n == 4 * (25 * (n / 100)); }
  }

  lemma QuotientNext(n: nat, d: nat)
    requires n > 0 && d in {4, 100, 400}
    ensures n / d == (n - 1) / d + if n % d == 0 then 1 else 0
  {
  }

  /** The days before each month. */
  lemma DaysOfMonths(year: nat)
    ensures var leap := if Leap(year) then 1 else 0;
            && DaysToMonth(year, 1) == 0 && DaysToMonth(year, 2) == 31 && DaysToMonth(year, 3) == 59 + leap
            && DaysToMonth(year, 4) == 90 + leap && DaysToMonth(year, 5) == 120 + leap && DaysToMonth(year, 6) == 151 + leap
            && DaysToMonth(year, 7) == 181 + leap && DaysToMonth(year, 8) == 212 + leap && DaysToMonth(year, 9) == 243 + leap
            && DaysToMonth(year, 10) == 273 + leap && DaysToMonth(year, 11) == 304 + leap && DaysToMonth(year, 12) == 334 + leap
  {
    assert DaysToMonth(year, 2) == 31;
    assert DaysToMonth(year, 4) == DaysToMonth(year, 3) + 31;
    assert DaysToMonth(year, 6) == DaysToMonth(year, 5) + 31;
    assert DaysToMonth(year, 8) == DaysToMonth(year, 7) + 31;
    assert DaysToMonth(year, 10) == DaysToMonth(year, 9) + 30;
  }

  // ---- the fields that isoformat prints ----

  datatype Date = Date(year: nat, month: nat, day: nat)

  datatype Clock = Clock(hour: nat, minute: nat, second: nat, micro: nat)

  function DateOf(days: nat): (d: Date)
    ensures DaysToYear(d.year) <= days < DaysToYear(d.year + 1) && 1 <= d.month <= 12
    ensures var dayOfYear := days - DaysToYear(d.year);
            && DaysToMonth(d.year, d.month) <= dayOfYear < DaysToMonth(d.year, d.month + 1)
            && d.day == dayOfYear - DaysToMonth(d.year, d.month) + 1
  {
    var year := YearOf(days, 1);
    var dayOfYear := days - DaysToYear(year);
    var month := MonthIn(year, dayOfYear);
    Date(year, month, dayOfYear - DaysToMonth(year, month) + 1)
  }

  function ClockOf(rest: nat): Clock {
    var inHour := rest % HOUR;
    var inMinute := inHour % MINUTE;
    Clock(rest / HOUR, inHour / MINUTE, inMinute / SECOND, inMinute % SECOND)
  }

  predicate EarlierDate(a: Date, b: Date) {
    a.year < b.year || (a.year == b.year && (a.month < b.month || (a.month == b.month && a.day < b.day)))
  }

  predicate EarlierClock(a: Clock, b: Clock) {
    || a.hour < b.hour
    || (a.hour == b.hour &&
        (|| a.minute < b.minute
         || (a.minute == b.minute && (a.second < b.second || (a.second == b.second && a.micro < b.micro)))))
  }

  /** The year and the month of a day, by the days before them. */
  lemma DateFacts(days: nat) returns (year: nat, month: nat)
    ensures DaysToYear(year) <= days < DaysToYear(year + 1)
    ensures DaysToMonth(year, month) <= days - DaysToYear(year) < DaysToMonth(year, month + 1)
    ensures DateOf(days) == Date(year, month, days - DaysToYear(year) - DaysToMonth(year, month) + 1)
  {
    year, month := DateOf(days).year, DateOf(days).month;
  }

  lemma DateOrder(x: nat, y: nat)
    requires x < y
    ensures EarlierDate(DateOf(x), DateOf(y))
  {
    var p, m := DateFacts(x);
    var q, n := DateFacts(y);
    if p > q { LaterYear(q, p); }
    if p == q && m > n { LaterMonth(p, n, m); }
  }

  lemma DateIff(x: nat, y: nat)
    ensures EarlierDate(DateOf(x), DateOf(y)) <==> x < y
    ensures DateOf(x) == DateOf(y) <==> x == y
  {
    if x < y { DateOrder(x, y); }
    if y < x { DateOrder(y, x); }
  }

  /** The time of day, by its fields. */
  lemma TimeOfDay(rest: nat)
    requires rest < DAY
    ensures var c := ClockOf(rest);
            && rest == c.hour * HOUR + c.minute * MINUTE + c.second * SECOND + c.micro
            && c.hour < 24 && c.minute < 60 && c.second < 60 && c.micro < SECOND
  {
    var inHour := rest % HOUR;
    var inMinute := inHour % MINUTE;
    assert rest == rest / HOUR * HOUR + inHour;
    assert inHour == inHour / MINUTE * MINUTE + inMinute;
    assert inMinute == inMinute / SECOND * SECOND + inMinute % SECOND;
  }

  lemma ClockOrder(x: nat, y: nat)
    requires x < y < DAY
    ensures EarlierClock(ClockOf(x), ClockOf(y))
  {
    TimeOfDay(x);
    TimeOfDay(y);
    FieldsOrder(ClockOf(x), ClockOf(y));
  }

  lemma FieldsOrder(c: Clock, d: Clock)
    requires c.minute < 60 && c.second < 60 && c.micro < SECOND && d.minute < 60 && d.second < 60 && d.micro < SECOND
    requires c.hour * HOUR + c.minute * MINUTE + c.second * SECOND + c.micro
             < d.hour * HOUR + d.minute * MINUTE + d.second * SECOND + d.micro
    ensures EarlierClock(c, d)
  {
    if c.hour >= d.hour {
      assert c.hour == d.hour;
      if c.minute >= d.minute {
        assert c.minute == d.minute && c.second <= d.second;
      }
    }
  }

  lemma ClockIff(x: nat, y: nat)
    requires x < DAY && y < DAY
    ensures EarlierClock(ClockOf(x), ClockOf(y)) <==> x < y
    ensures ClockOf(x) == ClockOf(y) <==> x == y
  {
    if x < y { ClockOrder(x, y); }
    if y < x { ClockOrder(y, x); }
  }

  lemma YearBefore(year: nat, limit: nat)
    requires DaysToYear(year) < DaysToYear(limit)
    ensures year < limit
  {
    if year > limit { LaterYear(limit, year); }
    assert DaysToYear(limit + 1) >= DaysToYear(limit);
  }

  /** The fields fit the digits that isoformat gives them. */
  lemma FieldsFit(days: nat)
    requires days < DaysToYear(MAX_YEAR)
    ensures var d := DateOf(days); d.year < MAX_YEAR && d.month <= 12 && d.day <= 31
  {
    YearBefore(DateOf(days).year, MAX_YEAR);
  }

  // ---- strings ----

  /** The order of strings: the first character that differs decides, and a proper prefix comes first. */
  predicate Less(s: string, t: string) {
    t != "" && (s == "" || s[0] < t[0] || (s[0] == t[0] && Less(s[1..], t[1..])))
  }

  lemma {:induction false} LessAfterPrefix(a: string, b: string, x: string, y: string)
    requires |a| == |b|
    ensures Less(a + x, b + y) <==> Less(a, b) || (a == b && Less(x, y))
  {
    if a == "" {
      assert a + x == x && b + y == y;
    } else {
      LessAfterPrefix(a[1..], b[1..], x, y);
      assert (a + x)[1..] == a[1..] + x && (b + y)[1..] == b[1..] + y;
      assert a == [a[0]] + a[1..] && b == [b[0]] + b[1..];
    }
  }

  function Digit(n: nat): char
    requires n < 10
  {
    '0' + n as char
  }

  /** The last digits of a number, with leading zeros. */
  function Digits(n: nat, width: nat): (s: string)
    ensures |s| == width
  {
    if width == 0 then "" else Digits(n / 10, width - 1) + [Digit(n % 10)]
  }

  function Power10(width: nat): nat {
    if width == 0 then 1 else 10 * Power10(width - 1)
  }

  lemma {:induction false} DigitsOrder(a: nat, b: nat, width: nat)
    requires a < Power10(width) && b < Power10(width)
    ensures Less(Digits(a, width), Digits(b, width)) <==> a < b
    ensures Digits(a, width) == Digits(b, width) <==> a == b
  {
    if width > 0 {
      DigitsOrder(a / 10, b / 10, width - 1);
      LessAfterPrefix(Digits(a / 10, width - 1), Digits(b / 10, width - 1), [Digit(a % 10)], [Digit(b % 10)]);
      assert Digits(a, width)[..width - 1] == Digits(a / 10, width - 1);
      assert Digits(b, width)[..width - 1] == Digits(b / 10, width - 1);
      assert Digits(a, width)[width - 1] == Digit(a % 10) && Digits(b, width)[width - 1] == Digit(b % 10);
      assert Less([Digit(a % 10)], [Digit(b % 10)]) <==> a % 10 < b % 10;
    }
  }

  /** Two numbers of the same width, each followed by more. */
  lemma NumberOrder(a: nat, b: nat, width: nat, x: string, y: string)
    requires a < Power10(width) && b < Power10(width)
    ensures Less(Digits(a, width) + x, Digits(b, width) + y) <==> a < b || (a == b && Less(x, y))
  {
    DigitsOrder(a, b, width);
    LessAfterPrefix(Digits(a, width), Digits(b, width), x, y);
  }

  lemma SeparatorOrder(c: char, x: string, y: string)
    ensures Less([c] + x, [c] + y) <==> Less(x, y)
  {
    LessAfterPrefix([c], [c], x, y);
    assert !Less([c], [c]);
  }

  // ---- isoformat ----

  /** The offset, as in +02:00. */
  function Offset(offset: int): string
    requires -1440 < offset < 1440
  {
    var minutes: nat := if offset < 0 then -offset else offset;
    (if offset < 0 then "-" else "+") + (Digits(minutes / 60, 2) + (":" + Digits(minutes % 60, 2)))
  }

  /** Microseconds are only printed where there are any. */
  function Fraction(micro: nat, tail: string): string {
    if micro == 0 then tail else "." + (Digits(micro, 6) + tail)
  }

  function IsoClock(c: Clock, offset: int): string
    requires -1440 < offset < 1440
  {
    Digits(c.hour, 2) + (":" + (Digits(c.minute, 2) + (":" + (Digits(c.second, 2) + Fraction(c.micro, Offset(offset))))))
  }

  function IsoDate(d: Date, tail: string): string {
    Digits(d.year, 4) + ("-" + (Digits(d.month, 2) + ("-" + (Digits(d.day, 2) + tail))))
  }

  function Iso(s: Stamp): string
    requires s.Valid()
  {
    IsoDate(DateOf(s.local / DAY), "T" + IsoClock(ClockOf(s.local % DAY), s.offset))
  }

  lemma PowersOfTen()
    ensures Power10(2) == 100 && Power10(4) == 10000 && Power10(6) == 1000000
  {
    assert Power10(0) == 1 && Power10(1) == 10;
    assert Power10(3) == 1000 && Power10(5) == 100000;
  }

  /** No fraction comes before any fraction: a sign is a smaller character than the point. */
  lemma FractionOrder(m: nat, n: nat, o: int, p: int)
    requires m < SECOND && n < SECOND && -1440 < o < 1440 && -1440 < p < 1440
    ensures Less(Fraction(m, Offset(o)), Fraction(n, Offset(p))) <==> m < n || (m == n && Less(Offset(o), Offset(p)))
  {
    PowersOfTen();
    if m > 0 && n > 0 {
      NumberOrder(m, n, 6, Offset(o), Offset(p));
      SeparatorOrder('.', Digits(m, 6) + Offset(o), Digits(n, 6) + Offset(p));
    } else {
      assert Offset(o)[0] < '.' && Offset(p)[0] < '.';
    }
  }

  lemma IsoClockOrder(a: Clock, b: Clock, o: int, p: int)
    requires a.hour < 24 && a.minute < 60 && a.second < 60 && a.micro < SECOND
    requires b.hour < 24 && b.minute < 60 && b.second < 60 && b.micro < SECOND
    requires -1440 < o < 1440 && -1440 < p < 1440
    ensures Less(IsoClock(a, o), IsoClock(b, p)) <==> EarlierClock(a, b) || (a == b && Less(Offset(o), Offset(p)))
  {
    PowersOfTen();
    var x, y := Fraction(a.micro, Offset(o)), Fraction(b.micro, Offset(p));
    FractionOrder(a.micro, b.micro, o, p);
    NumberOrder(a.second, b.second, 2, x, y);
    var x', y' := Digits(a.second, 2) + x, Digits(b.second, 2) + y;
    SeparatorOrder(':', x', y');
    NumberOrder(a.minute, b.minute, 2, ":" + x', ":" + y');
    SeparatorOrder(':', Digits(a.minute, 2) + (":" + x'), Digits(b.minute, 2) + (":" + y'));
    NumberOrder(a.hour, b.hour, 2, ":" + (Digits(a.minute, 2) + (":" + x')), ":" + (Digits(b.minute, 2) + (":" + y')));
  }

  lemma IsoDateOrder(a: Date, b: Date, x: string, y: string)
    requires a.year < MAX_YEAR && a.month <= 12 && a.day <= 31
    requires b.year < MAX_YEAR && b.month <= 12 && b.day <= 31
    ensures Less(IsoDate(a, x), IsoDate(b, y)) <==> EarlierDate(a, b) || (a == b && Less(x, y))
  {
    PowersOfTen();
    NumberOrder(a.day, b.day, 2, x, y);
    var x', y' := Digits(a.day, 2) + x, Digits(b.day, 2) + y;
    SeparatorOrder('-', x', y');
    NumberOrder(a.month, b.month, 2, "-" + x', "-" + y');
    SeparatorOrder('-', Digits(a.month, 2) + ("-" + x'), Digits(b.month, 2) + ("-" + y'));
    NumberOrder(a.year, b.year, 4, "-" + (Digits(a.month, 2) + ("-" + x')), "-" + (Digits(b.month, 2) + ("-" + y')));
  }

  /** Local times are ordered as their days and then their times of day are. */
  lemma LocalOrder(x: nat, y: nat)
    ensures x < y <==> x / DAY < y / DAY || (x / DAY == y / DAY && x % DAY < y % DAY)
    ensures x == y <==> x / DAY == y / DAY && x % DAY == y % DAY
  {
    assert x == x / DAY * DAY + x % DAY && y == y / DAY * DAY + y % DAY;
  }

  lemma DayOrder(a: nat, b: nat, x: string, y: string)
    requires a < DaysToYear(MAX_YEAR) && b < DaysToYear(MAX_YEAR)
    ensures Less(IsoDate(DateOf(a), x), IsoDate(DateOf(b), y)) <==> a < b || (a == b && Less(x, y))
  {
    FieldsFit(a);
    FieldsFit(b);
    IsoDateOrder(DateOf(a), DateOf(b), x, y);
    DateIff(a, b);
  }

  lemma TimeOrder(a: nat, b: nat, o: int, p: int)
    requires a < DAY && b < DAY && -1440 < o < 1440 && -1440 < p < 1440
    ensures Less("T" + IsoClock(ClockOf(a), o), "T" + IsoClock(ClockOf(b), p)) <==> a < b || (a == b && Less(Offset(o), Offset(p)))
  {
    TimeOfDay(a);
    TimeOfDay(b);
    IsoClockOrder(ClockOf(a), ClockOf(b), o, p);
    SeparatorOrder('T', IsoClock(ClockOf(a), o), IsoClock(ClockOf(b), p));
    ClockIff(a, b);
  }

  /** The strings are ordered by local time, and where that is the same by the offset's text. */
  lemma IsoOrder(a: Stamp, b: Stamp)
    requires a.Valid() && b.Valid()
    ensures Less(Iso(a), Iso(b)) <==> a.local < b.local || (a.local == b.local && Less(Offset(a.offset), Offset(b.offset)))
  {
    DayOrder(a.local / DAY, b.local / DAY,
             "T" + IsoClock(ClockOf(a.local % DAY), a.offset), "T" + IsoClock(ClockOf(b.local % DAY), b.offset));
    TimeOrder(a.local % DAY, b.local % DAY, a.offset, b.offset);
    LocalOrder(a.local, b.local);
  }

  lemma {:induction false} NotLessThanItself(s: string)
    ensures !Less(s, s)
  {
    if s != "" {
      NotLessThanItself(s[1..]);
    }
  }

  /** Under one offset the order of the strings is the order of the times. */
  lemma SameOffsetOrder(a: Stamp, b: Stamp)
    requires a.Valid() && b.Valid() && a.offset == b.offset
    ensures Less(Iso(a), Iso(b)) <==> a.Utc() < b.Utc()
  {
    IsoOrder(a, b);
    NotLessThanItself(Offset(a.offset));
  }

  function Magnitude(offset: int): nat {
    if offset < 0 then -offset else offset
  }

  /** Offsets are printed with + before -, which comes first, and then by how far they are from UTC. */
  lemma OffsetOrder(o: int, p: int)
    requires -1440 < o < 1440 && -1440 < p < 1440
    ensures Less(Offset(o), Offset(p)) <==> if (o < 0) == (p < 0) then Magnitude(o) < Magnitude(p) else p < 0
  {
    var m, n := Magnitude(o), Magnitude(p);
    var x, y := Digits(m % 60, 2), Digits(n % 60, 2);
    var tail, tail' := Digits(m / 60, 2) + (":" + x), Digits(n / 60, 2) + (":" + y);
    PowersOfTen();
    DigitsOrder(m % 60, n % 60, 2);
    SeparatorOrder(':', x, y);
    NumberOrder(m / 60, n / 60, 2, ":" + x, ":" + y);
    if (o < 0) == (p < 0) {
      SeparatorOrder(if o < 0 then '-' else '+', tail, tail');
    }
  }

  /** By how much the clock of b shows more than the clock of a. */
  function Ahead(a: Stamp, b: Stamp): int {
    b.local - a.local
  }

  /** By how much clocks went forward between the offsets of a and b. */
  function Shift(a: Stamp, b: Stamp): int {
    (b.offset - a.offset) * MINUTE
  }

  /** a is the smaller string although it is not the earlier time: clocks went forward. */
  predicate OnlySmaller(a: Stamp, b: Stamp) {
    0 < Ahead(a, b) <= Shift(a, b) || (Ahead(a, b) == 0 < Shift(a, b) && a.offset >= 0)
  }

  /** a is the earlier time although it is not the smaller string: clocks went back. */
  predicate OnlyEarlier(a: Stamp, b: Stamp) {
    Shift(a, b) < Ahead(a, b) < 0 || (Shift(a, b) < 0 == Ahead(a, b) && b.offset >= 0)
  }

  lemma EarlierExactly(a: Stamp, b: Stamp)
    ensures a.Utc() < b.Utc() <==> Shift(a, b) < Ahead(a, b)
  {
  }

  /** When the order of the strings is not the order of the times, whatever the offsets. */
  lemma OrdersDifferExactly(a: Stamp, b: Stamp)
    requires a.Valid() && b.Valid()
    ensures Less(Iso(a), Iso(b)) && a.Utc() >= b.Utc() <==> OnlySmaller(a, b)
    ensures !Less(Iso(a), Iso(b)) && a.Utc() < b.Utc() <==> OnlyEarlier(a, b)
  {
    IsoOrder(a, b);
    OffsetOrder(a.offset, b.offset);
    EarlierExactly(a, b);
    DifferExactly(a, b, Less(Iso(a), Iso(b)));
  }

  lemma DifferExactly(a: Stamp, b: Stamp, less: bool)
    requires var x, y := a.offset, b.offset;
             var first := if (x < 0) == (y < 0) then Magnitude(x) < Magnitude(y) else y < 0;
             less <==> a.local < b.local || (a.local == b.local && first)
    ensures less && Ahead(a, b) <= Shift(a, b) <==> OnlySmaller(a, b)
    ensures !less && Shift(a, b) < Ahead(a, b) <==> OnlyEarlier(a, b)
  {
  }
}
