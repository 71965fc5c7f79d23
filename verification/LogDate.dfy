/** The dates of an operation-log query: how they are read and put in order. */
module LogDate {
  import opened Arithmetic
  import opened Outcomes
  import opened Text

  datatype Date = Date(year: nat, month: nat, day: nat)

  predicate IsLeap(year: nat) {
    year % 4 == 0 && (year % 100 != 0 || year % 400 == 0)
  }

  function DaysInMonth(year: nat, month: nat): nat {
    if month == 2 then if IsLeap(year) then 29 else 28
    else if month == 4 || month == 6 || month == 9 || month == 11 then 30
    else 31
  }

  /** `year_month_day::ok` for a year that is not zero. */
  predicate IsDate(date: Date) {
    && date.year >= 1
    && 1 <= date.month <= 12
    && 1 <= date.day <= DaysInMonth(date.year, date.month)
  }

  function LeapYearsUpTo(year: nat): nat {
    year / 4 - year / 100 + year / 400
  }

  /** Days of the proleptic Gregorian calendar before the first of January. */
  function DaysBeforeYear(year: nat): nat
    requires year >= 1
  {
    (year - 1) * 365 + LeapYearsUpTo(year - 1)
  }

  function DaysBeforeMonth(year: nat, month: nat): nat
    requires 1 <= month <= 12
  {
    if month == 1 then 0 else DaysBeforeMonth(year, month - 1) + DaysInMonth(year, month - 1)
  }

  const EPOCH: int := 719163

  /** `sys_days`: days since 1970-01-01. */
  function SysDays(date: Date): int
    requires IsDate(date)
  {
    DaysBeforeYear(date.year) + DaysBeforeMonth(date.year, date.month) + date.day - EPOCH
  }

  function DigitOf(s: string, k: nat): nat
    requires k < |s| && IsDigit(s[k])
  {
    DigitValue(s[k])
  }

  /** Ten characters, digits but for the two dashes. */
  predicate HasDateShape(value: string) {
    && |value| == 10 && value[4] == '-' && value[7] == '-'
    && AllDigits(value[..4]) && AllDigits(value[5..7]) && AllDigits(value[8..])
  }

  function DateOf(value: string): Date
    requires HasDateShape(value)
  {
    assert forall k :: 0 <= k < 4 ==> value[k] == value[..4][k];
    assert forall k :: 5 <= k < 7 ==> value[k] == value[5..7][k - 5];
    assert forall k :: 8 <= k < 10 ==> value[k] == value[8..][k - 8];
    Date(
      DigitOf(value, 0) * 1000 + DigitOf(value, 1) * 100 + DigitOf(value, 2) * 10 + DigitOf(value, 3),
      DigitOf(value, 5) * 10 + DigitOf(value, 6),
      DigitOf(value, 8) * 10 + DigitOf(value, 9))
  }

  predicate IsAccepted(value: string) {
    HasDateShape(value) && IsDate(DateOf(value))
  }

  function ParseLogDate(value: string): Option<int> {
    if IsAccepted(value) then Some(SysDays(DateOf(value))) else None
  }

  predicate Before(a: Date, b: Date) {
    a.year < b.year || (a.year == b.year && (a.month < b.month || (a.month == b.month && a.day < b.day)))
  }

  /** The day after a date, by the calendar's own rules. */
  function NextDay(date: Date): Date {
    if date.day < DaysInMonth(date.year, date.month) then date.(day := date.day + 1)
    else if date.month < 12 then Date(date.year, date.month + 1, 1)
    else Date(date.year + 1, 1, 1)
  }

  lemma QuotientStep(n: nat, d: nat)
    requires n >= 1 && d >= 2
    ensures n / d == (n - 1) / d + if n % d == 0 then 1 else 0
  {
    var q := n / d;
    assert n == q * d + n % d;
    if n % d == 0 {
      assert (q - 1) * d == q * d - d;
      QuotientUnique(n - 1, d, q - 1);
    } else {
      QuotientUnique(n - 1, d, q);
    }
  }

  lemma MultipleHasNoRest(q: nat, d: nat, n: nat)
    requires d > 0 && n == q * d
    ensures n % d == 0
  {
    QuotientUnique(n, d, q);
  }

  lemma LeapRule(year: nat)
    ensures year % 400 == 0 ==> year % 100 == 0
    ensures year % 100 == 0 ==> year % 4 == 0
  {
    if year % 400 == 0 {
      MultipleHasNoRest(year / 400 * 4, 100, year);
    }
    if year % 100 == 0 {
      MultipleHasNoRest(year / 100 * 25, 4, year);
    }
  }

  /** The count of leap years goes up at the leap years. */
  lemma LeapYearsStep(year: nat)
    requires year >= 1
    ensures LeapYearsUpTo(year) == LeapYearsUpTo(year - 1) + if IsLeap(year) then 1 else 0
  {
    QuotientStep(year, 4);
    QuotientStep(year, 100);
    QuotientStep(year, 400);
    LeapRule(year);
  }

  lemma YearLength(year: nat)
    requires year >= 1
    ensures DaysBeforeYear(year + 1) == DaysBeforeYear(year) + if IsLeap(year) then 366 else 365
  {
    LeapYearsStep(year);
  }

  lemma {:induction false} YearsIncrease(a: nat, b: nat)
    requires 1 <= a <= b
    ensures DaysBeforeYear(a) <= DaysBeforeYear(b)
    decreases b
  {
    if a < b {
      YearLength(b - 1);
      YearsIncrease(a, b - 1);
    }
  }

  lemma {:induction false} MonthsIncrease(year: nat, a: nat, b: nat)
    requires 1 <= a < b <= 12
    ensures DaysBeforeMonth(year, a) + DaysInMonth(year, a) <= DaysBeforeMonth(year, b)
    decreases b
  {
    if a < b - 1 {
      MonthsIncrease(year, a, b - 1);
    }
  }

  lemma DaysBeforeDecember(year: nat)
    ensures DaysBeforeMonth(year, 12) == if IsLeap(year) then 335 else 334
  {
    var extra := if IsLeap(year) then 1 else 0;
    assert DaysBeforeMonth(year, 2) == 31;
    assert DaysBeforeMonth(year, 3) == 59 + extra;
    assert DaysBeforeMonth(year, 5) == 120 + extra;
    assert DaysBeforeMonth(year, 7) == 181 + extra;
    assert DaysBeforeMonth(year, 9) == 243 + extra;
    assert DaysBeforeMonth(year, 11) == 304 + extra;
  }

  /** The day number goes up by one from each date to the next, across months, leap days and years. */
  lemma NextDayIsOneLater(date: Date)
    requires IsDate(date)
    ensures IsDate(NextDay(date)) && SysDays(NextDay(date)) == SysDays(date) + 1
  {
    YearLength(date.year);
    DaysBeforeDecember(date.year);
  }

  lemma EpochIsZero()
    ensures SysDays(Date(1970, 1, 1)) == 0
  {
  }

  /** The length of a month: thirty-one days, thirty, or February's. */
  predicate IsMonthLength(year: nat, month: nat, days: nat) {
    match month
    case 1 => days == 31
    case 2 => days == if (year % 4 == 0 && year % 100 != 0) || year % 400 == 0 then 29 else 28
    case 3 => days == 31
    case 4 => days == 30
    case 5 => days == 31
    case 6 => days == 30
    case 7 => days == 31
    case 8 => days == 31
    case 9 => days == 30
    case 10 => days == 31
    case 11 => days == 30
    case 12 => days == 31
    case _ => false
  }

  lemma MonthLengths(year: nat, month: nat)
    requires 1 <= month <= 12
    ensures IsMonthLength(year, month, DaysInMonth(year, month))
  {
    LeapRule(year);
  }

  /** Later dates have larger day numbers. */
  lemma SysDaysIncrease(a: Date, b: Date)
    requires IsDate(a) && IsDate(b) && Before(a, b)
    ensures SysDays(a) < SysDays(b)
  {
    if a.year < b.year {
      YearLength(a.year);
      YearsIncrease(a.year + 1, b.year);
      DaysBeforeDecember(a.year);
      if a.month < 12 {
        MonthsIncrease(a.year, a.month, 12);
      }
    } else if a.month < b.month {
      MonthsIncrease(a.year, a.month, b.month);
    }
  }

  /** Lexicographic order of strings by character code. */
  predicate LexLess(a: string, b: string) {
    if b == "" then false
    else if a == "" then true
    else a[0] < b[0] || (a[0] == b[0] && LexLess(a[1..], b[1..]))
  }

  lemma {:induction false} LexOfConcatenation(a: string, b: string, x: string, y: string)
    requires |a| == |b|
    ensures LexLess(a + x, b + y) <==> LexLess(a, b) || (a == b && LexLess(x, y))
  {
    if a == "" {
      assert a + x == x && b + y == y;
    } else {
      assert (a + x)[1..] == a[1..] + x && (b + y)[1..] == b[1..] + y;
      LexOfConcatenation(a[1..], b[1..], x, y);
      assert a == [a[0]] + a[1..] && b == [b[0]] + b[1..];
    }
  }

  /** Digit strings of one length are ordered as their numbers are. */
  lemma {:induction false} LexOfDigits(a: string, b: string)
    requires |a| == |b| && AllDigits(a) && AllDigits(b)
    ensures LexLess(a, b) <==> Value(a) < Value(b)
    ensures a == b <==> Value(a) == Value(b)
  {
    if a != "" {
      var n := |a| - 1;
      LexOfDigits(a[..n], b[..n]);
      LexOfConcatenation(a[..n], b[..n], a[n..], b[n..]);
      assert a == a[..n] + a[n..] && b == b[..n] + b[n..];
      assert a[n..] == [a[n]] && b[n..] == [b[n]];
    }
  }

  lemma TwoDigits(s: string)
    requires |s| == 2 && AllDigits(s)
    ensures Value(s) == DigitValue(s[0]) * 10 + DigitValue(s[1])
  {
    assert s[..1][..0] == "" && Value(s[..1]) == Value("") * 10 + DigitValue(s[0]);
  }

  lemma FourDigits(s: string)
    requires |s| == 4 && AllDigits(s)
    ensures Value(s) == DigitValue(s[0]) * 1000 + DigitValue(s[1]) * 100 + DigitValue(s[2]) * 10 + DigitValue(s[3])
  {
    TwoDigits(s[..2]);
    assert s[..3][..2] == s[..2];
  }

  lemma DateFields(value: string)
    requires HasDateShape(value)
    ensures value == value[..4] + "-" + value[5..7] + "-" + value[8..]
    ensures DateOf(value) == Date(Value(value[..4]), Value(value[5..7]), Value(value[8..]))
  {
    FourDigits(value[..4]);
    TwoDigits(value[5..7]);
    TwoDigits(value[8..]);
  }

  lemma DateTextOrder(a: string, b: string)
    requires HasDateShape(a) && HasDateShape(b)
    ensures LexLess(a, b) <==> Before(DateOf(a), DateOf(b))
    ensures a == b <==> DateOf(a) == DateOf(b)
  {
    DateFields(a);
    DateFields(b);
    LexOfDigits(a[..4], b[..4]);
    LexOfDigits(a[5..7], b[5..7]);
    LexOfDigits(a[8..], b[8..]);
    var (restA, restB) := ("-" + a[5..7] + "-" + a[8..], "-" + b[5..7] + "-" + b[8..]);
    assert a == a[..4] + restA && b == b[..4] + restB;
    LexOfConcatenation(a[..4], b[..4], restA, restB);
    LexOfConcatenation("-" + a[5..7] + "-", "-" + b[5..7] + "-", a[8..], b[8..]);
    LexOfConcatenation("-" + a[5..7], "-" + b[5..7], "-", "-");
    LexOfConcatenation("-", "-", a[5..7], b[5..7]);
    assert restA == "-" + a[5..7] + "-" + a[8..] && restB == "-" + b[5..7] + "-" + b[8..];
  }

  /** On accepted strings, day numbers are ordered as the strings are, and tell the strings apart. */
  lemma DaysOrderedAsText(a: string, b: string)
    requires ParseLogDate(a).Some? && ParseLogDate(b).Some?
    ensures ParseLogDate(a).value < ParseLogDate(b).value <==> LexLess(a, b)
    ensures ParseLogDate(a).value == ParseLogDate(b).value <==> a == b
  {
    DateTextOrder(a, b);
    DateTextOrder(b, a);
    var (x, y) := (DateOf(a), DateOf(b));
    if Before(x, y) {
      SysDaysIncrease(x, y);
    } else if Before(y, x) {
      SysDaysIncrease(y, x);
    }
  }

  /**
   * A text is accepted exactly when it is four digits, a dash, two digits, a dash and two digits that
   * name a year from 1 on, one of its twelve months, and a day of that month.
   */
  lemma AcceptedDatesAre(value: string)
    ensures ParseLogDate(value).Some? <==>
      && |value| == 10 && value[4] == '-' && value[7] == '-'
      && AllDigits(value[..4]) && AllDigits(value[5..7]) && AllDigits(value[8..])
      && Value(value[..4]) >= 1
      && exists days: nat :: IsMonthLength(Value(value[..4]), Value(value[5..7]), days)
           && 1 <= Value(value[8..]) <= days
  {
    if HasDateShape(value) {
      DateFields(value);
      var date := DateOf(value);
      if 1 <= date.month <= 12 {
        MonthLengths(date.year, date.month);
      }
    }
  }

  datatype DateError = InvalidStart | InvalidEnd | Reversed

  /** The part of `FromRequest` that reads the two optional dates; an empty parameter is absent. */
  method ReadDateRange(start: string, end: string) returns (r: Result<(Option<string>, Option<string>), DateError>)
    ensures r.Ok? <==>
      && (start == "" || IsAccepted(start))
      && (end == "" || IsAccepted(end))
      && !(start != "" && end != "" && LexLess(end, start))
    ensures r.Ok? ==>
      r.value == (if start == "" then None else Some(start), if end == "" then None else Some(end))
    ensures r == Fail(Reversed) <==>
      start != "" && end != "" && IsAccepted(start) && IsAccepted(end) && LexLess(end, start)
  {
    var startDate: Option<string>, parsedStart: Option<int> := None, None;
    if start != "" {
      parsedStart := ParseLogDate(start);
      if parsedStart.None? {
        return Fail(InvalidStart);
      }
      startDate := Some(start);
    }
    var endDate: Option<string>, parsedEnd: Option<int> := None, None;
    if end != "" {
      parsedEnd := ParseLogDate(end);
      if parsedEnd.None? {
        return Fail(InvalidEnd);
      }
      endDate := Some(end);
    }
    if parsedStart.Some? && parsedEnd.Some? {
      DaysOrderedAsText(end, start);
      if parsedStart.value > parsedEnd.value {
        return Fail(Reversed);
      }
    }
    return Ok((startDate, endDate));
  }
}
