/**
 Calendar dates as the scope builder stores and reads them: `date().isoformat()` text and the
 proleptic Gregorian day number behind `(later.date() - earlier.date()).days`. Sorting the texts
 sorts the days.
 */
module IsoDates {
  import opened Common
  import opened Ordering

  datatype Date = Date(year: int, month: int, day: int)

  predicate Leap(year: int) {
    year % 4 == 0 && (year % 100 != 0 || year % 400 == 0)
  }

  function DaysInMonth(year: int, month: int): int {
    if month == 2 then if Leap(year) then 29 else 28
    else if month == 4 || month == 6 || month == 9 || month == 11 then 30
    else 31
  }

  predicate Valid(d: Date) {
    1 <= d.year <= 9999 && 1 <= d.month <= 12 && 1 <= d.day <= DaysInMonth(d.year, d.month)
  }

  // ----- day numbers

  function DaysBeforeYear(year: int): int {
    var y := year - 1;
    y * 365 + y / 4 - y / 100 + y / 400
  }

  function DaysBeforeMonth(year: int, month: int): int
    requires 1 <= month <= 13
    decreases month
  {
    if month == 1 then 0 else DaysBeforeMonth(year, month - 1) + DaysInMonth(year, month - 1)
  }

  /** `date.toordinal()` */
  function Ordinal(d: Date): int
    requires Valid(d)
  {
    DaysBeforeYear(d.year) + DaysBeforeMonth(d.year, d.month) + d.day
  }

  predicate Before(a: Date, b: Date) {
    a.year < b.year || (a.year == b.year && (a.month < b.month || (a.month == b.month && a.day < b.day)))
  }

  lemma MonthsOfYear(year: int)
    ensures DaysBeforeMonth(year, 13) == if Leap(year) then 366 else 365
  {
    assert DaysBeforeMonth(year, 3) == 31 + DaysInMonth(year, 2);
    assert DaysBeforeMonth(year, 5) == DaysBeforeMonth(year, 3) + 61;
    assert DaysBeforeMonth(year, 7) == DaysBeforeMonth(year, 5) + 61;
    assert DaysBeforeMonth(year, 9) == DaysBeforeMonth(year, 7) + 62;
    assert DaysBeforeMonth(year, 11) == DaysBeforeMonth(year, 9) + 61;
    assert DaysBeforeMonth(year, 13) == DaysBeforeMonth(year, 11) + 61;
  }

  lemma Quotients(year: int)
    ensures year / 4 == (year - 1) / 4 + if year % 4 == 0 then 1 else 0
    ensures year / 100 == (year - 1) / 100 + if year % 100 == 0 then 1 else 0
    ensures year / 400 == (year - 1) / 400 + if year % 400 == 0 then 1 else 0
  {
  }

  lemma Divisors(year: int)
    ensures year % 100 == 0 ==> year % 4 == 0
    ensures year % 400 == 0 ==> year % 100 == 0
  {
  }

  lemma YearLength(year: int)
    requires year >= 1
    ensures DaysBeforeYear(year + 1) == DaysBeforeYear(year) + DaysBeforeMonth(year, 13)
  {
    MonthsOfYear(year);
    Quotients(year);
    Divisors(year);
  }

  lemma {:induction false} LaterMonth(year: int, m: int, n: int)
    requires 1 <= m < n <= 13
    ensures DaysBeforeMonth(year, m) + DaysInMonth(year, m) <= DaysBeforeMonth(year, n)
    decreases n
  {
    if m < n - 1 { LaterMonth(year, m, n - 1); }
  }

  lemma {:induction false} MonthsCount(year: int, m: int)
    requires 1 <= m <= 13
    ensures DaysBeforeMonth(year, m) >= 0
    decreases m
  {
    if m > 1 { MonthsCount(year, m - 1); }
  }

  lemma {:induction false} LaterYear(a: int, b: int)
    requires 1 <= a < b
    ensures DaysBeforeYear(a) + DaysBeforeMonth(a, 13) <= DaysBeforeYear(b)
    decreases b
  {
    YearLength(b - 1);
    if a < b - 1 {
      LaterYear(a, b - 1);
      MonthsCount(b - 1, 13);
    }
  }

  /** An earlier date has a smaller day number. */
  lemma BeforeIsSmaller(a: Date, b: Date)
    requires Valid(a) && Valid(b) && Before(a, b)
    ensures Ordinal(a) < Ordinal(b)
  {
    if a.year < b.year {
      LaterMonth(a.year, a.month, 13);
      LaterYear(a.year, b.year);
      MonthsCount(b.year, b.month);
    } else if a.month < b.month {
      LaterMonth(a.year, a.month, b.month);
    }
  }

  /** The day after: the next of the month, or the first of the next month, or of the next year. */
  function NextDay(d: Date): Date {
    if Valid(Date(d.year, d.month, d.day + 1)) then Date(d.year, d.month, d.day + 1)
    else if d.month < 12 then Date(d.year, d.month + 1, 1)
    else Date(d.year + 1, 1, 1)
  }

  /** Day numbers count the days from the first on: every day but the last has a next one, with the next number. */
  lemma NextDayIsNextNumber(d: Date)
    requires Valid(d)
    ensures Valid(NextDay(d)) <==> d != Date(9999, 12, 31)
    ensures Valid(NextDay(d)) ==> Ordinal(NextDay(d)) == Ordinal(d) + 1
    ensures Valid(Date(1, 1, 1)) && Ordinal(Date(1, 1, 1)) == 1
  {
    if NextDay(d).year != d.year {
      YearLength(d.year);
      MonthsOfYear(d.year);
    }
  }

  lemma MonthLengths(year: int, month: int)
    requires 1 <= month <= 12
    ensures DaysInMonth(year, month) ==
      [31, if Leap(year) then 29 else 28, 31, 30, 31, 30, 31, 31, 30, 31, 30, 31][month - 1]
  {
  }

  /** Four centuries have 146097 days, whatever day they begin with. */
  lemma FourCenturies(d: Date)
    requires Valid(d) && d.year + 400 <= 9999
    ensures Valid(d.(year := d.year + 400)) && Ordinal(d.(year := d.year + 400)) == Ordinal(d) + 146097
  {
    LeapAgain(d.year);
    SameMonths(d.year, d.month);
    YearsAgain(d.year);
  }

  lemma YearsAgain(year: int)
    ensures DaysBeforeYear(year + 400) == DaysBeforeYear(year) + 146097
  {
    var y := year - 1;
    assert (y + 400) / 4 == y / 4 + 100 && (y + 400) / 100 == y / 100 + 4 && (y + 400) / 400 == y / 400 + 1;
  }

  lemma LeapAgain(year: int)
    ensures Leap(year + 400) == Leap(year)
  {
  }

  lemma {:induction false} SameMonths(year: int, month: int)
    requires 1 <= month <= 12 && Leap(year + 400) == Leap(year)
    ensures DaysBeforeMonth(year + 400, month) == DaysBeforeMonth(year, month)
    decreases month
  {
    if month > 1 { SameMonths(year, month - 1); }
  }

  // ----- texts

  function Digit(n: int): char
    requires 0 <= n <= 9
  {
    (48 + n) as char
  }

  function Two(n: int): string
    requires 0 <= n <= 99
  {
    [Digit(n / 10), Digit(n % 10)]
  }

  /** `isoformat()`: four digits, two, two. */
  function Iso(d: Date): string
    requires Valid(d)
  {
    Two(d.year / 100) + Two(d.year % 100) + "-" + Two(d.month) + "-" + Two(d.day)
  }

  predicate IsDigit(c: char) {
    '0' <= c <= '9'
  }

  function Value(c: char): int {
    c as int - 48
  }

  function TwoValue(s: string): int
    requires |s| == 2
  {
    10 * Value(s[0]) + Value(s[1])
  }

  /** The date a ten-character text spells, if it spells one. */
  function ReadIso(text: string): Option<Date> {
    if |text| == 10 && text[4] == '-' && text[7] == '-'
       && forall i :: 0 <= i < 10 && i != 4 && i != 7 ==> IsDigit(text[i]) then
      var d := Date(100 * TwoValue(text[0..2]) + TwoValue(text[2..4]), TwoValue(text[5..7]), TwoValue(text[8..10]));
      if Valid(d) then Some(d) else None
    else None
  }

  /** `_parse_date`, down to the day number. */
  function DayOf(text: string): Option<int> {
    match ReadIso(text)
    case None => None
    case Some(d) => Some(Ordinal(d))
  }

  lemma TwoRoundTrip(n: int)
    requires 0 <= n <= 99
    ensures TwoValue(Two(n)) == n && IsDigit(Two(n)[0]) && IsDigit(Two(n)[1])
  {
  }

  lemma TwoOfValue(s: string)
    requires |s| == 2 && IsDigit(s[0]) && IsDigit(s[1])
    ensures 0 <= TwoValue(s) <= 99 && Two(TwoValue(s)) == s
  {
    var n := TwoValue(s);
    assert n / 10 == Value(s[0]) && n % 10 == Value(s[1]);
  }

  /** Reading what was written gives the date back. */
  lemma ReadsWhatIsWritten(d: Date)
    requires Valid(d)
    ensures ReadIso(Iso(d)) == Some(d)
  {
    var text := Iso(d);
    var a, b, m, k := Two(d.year / 100), Two(d.year % 100), Two(d.month), Two(d.day);
    TwoRoundTrip(d.year / 100);
    TwoRoundTrip(d.year % 100);
    TwoRoundTrip(d.month);
    TwoRoundTrip(d.day);
    assert text[0..2] == a && text[2..4] == b && text[5..7] == m && text[8..10] == k;
  }

  /** Only such texts are read. */
  lemma ReadIsWritten(text: string)
    requires ReadIso(text).Some?
    ensures text == Iso(ReadIso(text).value)
  {
    var d := ReadIso(text).value;
    TwoOfValue(text[0..2]);
    TwoOfValue(text[2..4]);
    TwoOfValue(text[5..7]);
    TwoOfValue(text[8..10]);
    assert d.year / 100 == TwoValue(text[0..2]) && d.year % 100 == TwoValue(text[2..4]);
    assert text == text[0..2] + text[2..4] + "-" + text[5..7] + "-" + text[8..10];
  }

  // ----- text order is day order

  /** Texts that begin alike are ordered by the rest; texts whose beginnings differ, by the beginnings. */
  lemma {:induction false} LeByParts(a: string, b: string, s: string, t: string)
    requires |a| == |b|
    ensures Le(a + s, b + t) <==> if a == b then Le(s, t) else Le(a, b)
    decreases |a|
  {
    if a == [] {
      assert a + s == s && b + t == t;
    } else {
      LeByParts(a[1..], b[1..], s, t);
      HeadAndRest(a, s);
      HeadAndRest(b, t);
      assert a == [a[0]] + a[1..] && b == [b[0]] + b[1..];
    }
  }

  lemma HeadAndRest(a: string, s: string)
    requires a != []
    ensures a + s != [] && (a + s)[0] == a[0] && (a + s)[1..] == a[1..] + s
  {
  }

  lemma TwoOrder(x: int, y: int)
    requires 0 <= x <= 99 && 0 <= y <= 99
    ensures Le(Two(x), Two(y)) <==> x <= y
    ensures Two(x) == Two(y) <==> x == y
  {
    TwoRoundTrip(x);
    TwoRoundTrip(y);
    assert Two(x)[1..] == [Digit(x % 10)] && Two(y)[1..] == [Digit(y % 10)];
    assert Two(x)[1..][1..] == [] == Two(y)[1..][1..];
  }

  function MonthDay(d: Date): string
    requires Valid(d)
  {
    Two(d.month) + ("-" + Two(d.day))
  }

  lemma MonthDayOrder(a: Date, b: Date)
    requires Valid(a) && Valid(b)
    ensures Le(MonthDay(a), MonthDay(b)) <==> a.month < b.month || (a.month == b.month && a.day <= b.day)
  {
    LeByParts(Two(a.month), Two(b.month), "-" + Two(a.day), "-" + Two(b.day));
    LeByParts("-", "-", Two(a.day), Two(b.day));
    TwoOrder(a.month, b.month);
    TwoOrder(a.day, b.day);
  }

  lemma IsoParts(d: Date)
    requires Valid(d)
    ensures Iso(d) == Two(d.year / 100) + (Two(d.year % 100) + ("-" + MonthDay(d)))
  {
  }

  lemma TextOrderIsDateOrder(a: Date, b: Date)
    requires Valid(a) && Valid(b)
    ensures Le(Iso(a), Iso(b)) <==> !Before(b, a)
  {
    IsoParts(a);
    IsoParts(b);
    var s, t := "-" + MonthDay(a), "-" + MonthDay(b);
    LeByParts(Two(a.year / 100), Two(b.year / 100), Two(a.year % 100) + s, Two(b.year % 100) + t);
    LeByParts(Two(a.year % 100), Two(b.year % 100), s, t);
    LeByParts("-", "-", MonthDay(a), MonthDay(b));
    MonthDayOrder(a, b);
    TwoOrder(a.year / 100, b.year / 100);
    TwoOrder(a.year % 100, b.year % 100);
  }

  /** Date texts that parse are ordered as the days they stand for. */
  lemma TextOrderIsDayOrder(s: string, t: string)
    requires DayOf(s).Some? && DayOf(t).Some?
    ensures Le(s, t) <==> DayOf(s).value <= DayOf(t).value
  {
    var a, b := ReadIso(s).value, ReadIso(t).value;
    ReadIsWritten(s);
    ReadIsWritten(t);
    TextOrderIsDateOrder(a, b);
    if Before(a, b) { BeforeIsSmaller(a, b); }
    if Before(b, a) { BeforeIsSmaller(b, a); }
  }
}
