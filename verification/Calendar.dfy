/** Decimal numerals, clock times and the civil calendar: the ground both cron and schtasks schedules stand on. */
module Calendar {
  import opened Wrappers

  // ---- Decimal numerals ----

  predicate Digit(c: char) {
    '0' <= c <= '9'
  }

  predicate Digits(s: string) {
    s != "" && forall i | 0 <= i < |s| :: Digit(s[i])
  }

  function Value(s: string): nat
    requires forall i | 0 <= i < |s| :: Digit(s[i])
  {
    if s == "" then 0
    else
      assert Digit(s[|s| - 1]);
      Value(s[..|s| - 1]) * 10 + (s[|s| - 1] as int - '0' as int)
  }

  function DigitChar(d: nat): (c: char)
    requires d < 10
    ensures Digit(c) && c as int - '0' as int == d
  {
    ('0' as int + d) as char
  }

  /** `std::to_string` of a non-negative number. */
  function ToDecimal(n: nat): string {
    if n < 10 then [DigitChar(n)] else ToDecimal(n / 10) + [DigitChar(n % 10)]
  }

  lemma {:induction false} DecimalRoundTrip(n: nat)
    ensures Digits(ToDecimal(n)) && Value(ToDecimal(n)) == n
  {
    if n >= 10 {
      DecimalRoundTrip(n / 10);
      assert ToDecimal(n)[..|ToDecimal(n)| - 1] == ToDecimal(n / 10);
    } else {
      assert ToDecimal(n)[..0] == "";
    }
  }

  // ---- Times of day ----

  function TwoDigits(n: nat): string
    requires n < 100
  {
    [DigitChar(n / 10), DigitChar(n % 10)]
  }

  /** `%02d:%02d`. */
  function FmtTime(hh: nat, mm: nat): string
    requires hh < 100 && mm < 100
  {
    TwoDigits(hh) + ":" + TwoDigits(mm)
  }

  datatype Time = Time(hour: nat, minute: nat)

  /** How `HH:MM` is read. */
  function ParseTime(s: string): Option<Time> {
    if |s| == 5 && s[2] == ':' && Digits(s[..2]) && Digits(s[3..])
    then Some(Time(Value(s[..2]), Value(s[3..])))
    else None
  }

  lemma TimeRoundTrip(hh: nat, mm: nat)
    requires hh < 100 && mm < 100
    ensures ParseTime(FmtTime(hh, mm)) == Some(Time(hh, mm))
  {
    var s := FmtTime(hh, mm);
    assert s[..2] == TwoDigits(hh) && s[3..] == TwoDigits(mm);
    TwoDigitsValue(hh);
    TwoDigitsValue(mm);
  }

  lemma TwoDigitsValue(n: nat)
    requires n < 100
    ensures Digits(TwoDigits(n)) && Value(TwoDigits(n)) == n
  {
    var s := TwoDigits(n);
    assert s[..1] == [s[0]] && s[..1][..0] == "";
    assert Value(s[..1]) == n / 10;
  }

  // ---- Minutes since 1970-01-01 00:00, local time ----

  function Minute(t: nat): nat {
    t % 60
  }

  function Hour(t: nat): nat {
    t / 60 % 24
  }

  /** 0 is Sunday; the first day was a Thursday. */
  function Weekday(t: nat): nat {
    (t / 1440 + 4) % 7
  }

  datatype Date = Date(year: nat, month: nat, day: nat)

  predicate LeapYear(y: nat) {
    y % 4 == 0 && (y % 100 != 0 || y % 400 == 0)
  }

  function DaysInMonth(y: nat, m: nat): nat {
    if m == 2 then (if LeapYear(y) then 29 else 28)
    else if m == 4 || m == 6 || m == 9 || m == 11 then 30
    else 31
  }

  function NextDay(d: Date): Date {
    if d.day < DaysInMonth(d.year, d.month) then d.(day := d.day + 1)
    else if d.month < 12 then Date(d.year, d.month + 1, 1)
    else Date(d.year + 1, 1, 1)
  }

  function DateOfDay(days: nat): Date {
    if days == 0 then Date(1970, 1, 1) else NextDay(DateOfDay(days - 1))
  }

  function DateOf(t: nat): Date {
    DateOfDay(t / 1440)
  }

  // ---- The calendar is the civil one ----

  /** An instant is its day, hour and minute. */
  lemma TimeOfDay(t: nat)
    ensures t == 1440 * (t / 1440) + 60 * Hour(t) + Minute(t) && Hour(t) < 24 && Minute(t) < 60
  {
    assert t / 1440 == t / 60 / 24;
  }

  /** The first day was a Thursday, and the days of the week follow each other. */
  lemma WeekdaysFollow(t: nat)
    ensures t < 1440 ==> Weekday(t) == 4
    ensures Weekday(t + 1440) == if Weekday(t) == 6 then 0 else Weekday(t) + 1
  {
    var d := t / 1440;
    assert (t + 1440) / 1440 == d + 1;
    NextWeekday(d);
  }

  lemma NextWeekday(d: nat)
    ensures (d + 1 + 4) % 7 == if (d + 4) % 7 == 6 then 0 else (d + 4) % 7 + 1
  {
  }

  /** 1 January 2000 was a Saturday. */
  lemma MillenniumIsASaturday()
    ensures DayNumber(Date(2000, 1, 1)) == 10957 && Weekday(10957 * 1440) == 6
  {
  }

  /** Leap days before the year `y`. */
  function LeapDays(y: nat): int {
    (y - 1) / 4 - (y - 1) / 100 + (y - 1) / 400
  }

  function DaysBefore(month: nat): nat {
    if month <= 1 then 0 else if month == 2 then 31 else if month == 3 then 59 else if month == 4 then 90
    else if month == 5 then 120 else if month == 6 then 151 else if month == 7 then 181 else if month == 8 then 212
    else if month == 9 then 243 else if month == 10 then 273 else if month == 11 then 304 else 334
  }

  /** The days from 1 January 1970 to a date, by the usual formula. */
  function DayNumber(d: Date): int {
    365 * (d.year - 1970) + LeapDays(d.year) - 477 + DaysBefore(d.month)
    + (if d.month > 2 && LeapYear(d.year) then 1 else 0) + d.day - 1
  }

  lemma {:induction false} DatesAreNumbered(days: nat)
    ensures var d := DateOfDay(days);
            && d.year >= 1970 && 1 <= d.month <= 12 && 1 <= d.day <= DaysInMonth(d.year, d.month)
            && DayNumber(d) == days
  {
    if days == 0 {
    } else {
      DatesAreNumbered(days - 1);
      NextDayIsNext(DateOfDay(days - 1));
    }
  }

  lemma NextDayIsNext(d: Date)
    requires d.year >= 1 && 1 <= d.month <= 12 && 1 <= d.day <= DaysInMonth(d.year, d.month)
    ensures var e := NextDay(d);
            && d.year <= e.year && 1 <= e.month <= 12 && 1 <= e.day <= DaysInMonth(e.year, e.month)
            && DayNumber(e) == DayNumber(d) + 1
  {
    OneMoreYear(d.year);
  }

  function Quotient(y: int, n: nat): int
    requires n > 0
  {
    y / n
  }

  predicate Divides(n: nat, y: nat)
    requires n > 0
  {
    y % n == 0
  }

  lemma OneMoreYear(y: nat)
    requires y >= 1
    ensures LeapDays(y + 1) == LeapDays(y) + if LeapYear(y) then 1 else 0
  {
    LeapDaysByQuotients(y);
    OneMore(y, 4);
    OneMore(y, 100);
    OneMore(y, 400);
    Multiples(y);
    hide LeapDays, LeapYear, Quotient, Divides;
  }

  lemma LeapDaysByQuotients(y: nat)
    ensures LeapDays(y) == Quotient(y - 1, 4) - Quotient(y - 1, 100) + Quotient(y - 1, 400)
    ensures LeapDays(y + 1) == Quotient(y, 4) - Quotient(y, 100) + Quotient(y, 400)
    ensures LeapYear(y) <==> Divides(4, y) && (!Divides(100, y) || Divides(400, y))
  {
  }

  lemma OneMore(y: nat, n: nat)
    requires y >= 1 && (n == 4 || n == 100 || n == 400)
    ensures Quotient(y, n) == Quotient(y - 1, n) + if Divides(n, y) then 1 else 0
  {
  }

  lemma Multiples(y: nat)
    ensures (Divides(400, y) ==> Divides(100, y)) && (Divides(100, y) ==> Divides(4, y))
  {
    if Divides(400, y) {
      MultiplesOf(4 * (y / 400));
    }
    if Divides(100, y) {
      MultiplesOf(25 * (y / 100));
    }
  }

  lemma MultiplesOf(k: nat)
    ensures (100 * k) % 100 == 0 && (4 * k) % 4 == 0
  {
  }
}
