/**
  The compiler from five-field cron expressions to schtasks flags. Both languages get a meaning, a
  predicate on minute timestamps, and translation is proved to preserve it.
 */
module CronToSchtasks {
  import opened Wrappers
  import opened FieldScanner
  import opened Calendar

  const DAYS: seq<string> := ["SUN", "MON", "TUE", "WED", "THU", "FRI", "SAT"]

  // ---- The translator ----

  datatype TranslateError =
    | MissingFields
    | ExtraFields
    | MonthRestricted
    | BadMinuteStep
    | BadMinute(field: string)
    | BadHour(field: string)
    | BadDayOfWeek(field: string)
    | BadDayOfMonth(field: string)
    | UnsupportedShape

  function Upper(s: string): string {
    seq(|s|, i requires 0 <= i < |s| => if 'a' <= s[i] <= 'z' then (s[i] as int - 32) as char else s[i])
  }

  predicate IsInt(s: string, lo: int, hi: int) {
    Digits(s) && lo <= Value(s) <= hi
  }

  function ParseInt(s: string, lo: int, hi: int): int {
    if IsInt(s, lo, hi) && Value(s) <= 100000 then Value(s) else -1
  }

  /** `parse_int_in_range`, with its guard against overflow. */
  method ParseIntInRange(s: string, lo: int, hi: int) returns (v: int)
    ensures v == ParseInt(s, lo, hi)
    ensures v == -1 || lo <= v <= hi
  {
    if s == "" {
      return -1;
    }
    v := 0;
    for i := 0 to |s|
      invariant forall k | 0 <= k < i :: Digit(s[k])
      invariant v == Value(s[..i]) <= 100000
    {
      if !Digit(s[i]) {
        return -1;
      }
      assert s[..i + 1][..i] == s[..i];
      v := v * 10 + (s[i] as int - '0' as int);
      if v > 100000 {
        if Digits(s) {
          PrefixIsSmaller(s, i + 1);
        }
        return -1;
      }
    }
    assert s[..|s|] == s;
    if v < lo || v > hi {
      return -1;
    }
  }

  lemma {:induction false} PrefixIsSmaller(s: string, n: nat)
    requires n <= |s| && forall i | 0 <= i < |s| :: Digit(s[i])
    ensures Value(s[..n]) <= Value(s)
  {
    if n == |s| {
      assert s[..n] == s;
    } else {
      PrefixIsSmaller(s[..|s| - 1], n);
      assert s[..|s| - 1][..n] == s[..n];
    }
  }

  /** The day a day-of-week field names: one digit 0-6, or a three-letter name in any case. */
  function DayNamed(s: string): (r: Option<nat>)
    ensures r.Some? ==> r.value < 7
  {
    if |s| == 1 && '0' <= s[0] <= '6' then Some(s[0] as int - '0' as int) else FirstDay(Upper(s), 0)
  }

  function FirstDay(up: string, i: nat): (r: Option<nat>)
    requires i <= 7
    ensures r.Some? ==> r.value < 7 && DAYS[r.value] == up
    ensures r.None? ==> forall k | i <= k < 7 :: DAYS[k] != up
    decreases 7 - i
  {
    if i == 7 then None else if up == DAYS[i] then Some(i) else FirstDay(up, i + 1)
  }

  /** `parse_dow`; the empty string is failure. */
  method ParseDow(s: string) returns (day: string)
    ensures day == if DayNamed(s).Some? then DAYS[DayNamed(s).value] else ""
    ensures forall v: nat | v < 7 :: SchtasksDay(day) == Some(v) <==> s == [DigitChar(v)] || IgnoringCase(s, CronDay(v))
  {
    hide SchtasksDay, IgnoringCase, CronDay;
    DayMeansItsNumber(s);
    if |s| == 1 && '0' <= s[0] <= '6' {
      return DAYS[s[0] as int - '0' as int];
    }
    if |s| == 3 {
      var up := "";
      for i := 0 to |s|
        invariant up == Upper(s)[..i]
      {
        up := up + [if 'a' <= s[i] <= 'z' then (s[i] as int - 32) as char else s[i]];
      }
      assert up == Upper(s);
      for i := 0 to 7
        invariant FirstDay(up, 0) == FirstDay(up, i)
      {
        if up == DAYS[i] {
          return DAYS[i];
        }
      }
    }
    return "";
  }

  function TranslateFields(min: string, hr: string, dom: string, mon: string, dow: string)
    : Result<seq<string>, TranslateError>
  {
    if mon != "*" then Failure(MonthRestricted)
    else if min == "*" && hr == "*" && dom == "*" && dow == "*" then
      Success(["/SC", "MINUTE", "/MO", "1"])
    else if |min| > 2 && min[..2] == "*/" && hr == "*" && dom == "*" && dow == "*" then
      var n := ParseInt(min[2..], 1, 1439);
      if n < 0 then Failure(BadMinuteStep)
      else Success(["/SC", "MINUTE", "/MO", ToDecimal(n)])
    else
      var mm := ParseInt(min, 0, 59);
      if mm < 0 then Failure(BadMinute(min))
      else if hr == "*" && dom == "*" && dow == "*" then
        Success(["/SC", "HOURLY", "/MO", "1", "/ST", FmtTime(0, mm)])
      else if hr != "*" && dom == "*" && dow != "*" then
        var hh := ParseInt(hr, 0, 23);
        if hh < 0 then Failure(BadHour(hr))
        else
          match DayNamed(dow)
          case None => Failure(BadDayOfWeek(dow))
          case Some(d) =>
            Success(["/SC", "WEEKLY", "/D", DAYS[d], "/ST", FmtTime(hh, mm)])
      else if hr != "*" && dom == "*" && dow == "*" then
        var hh := ParseInt(hr, 0, 23);
        if hh < 0 then Failure(BadHour(hr))
        else Success(["/SC", "DAILY", "/MO", "1", "/ST", FmtTime(hh, mm)])
      else if hr != "*" && dom != "*" && dow == "*" then
        var hh := ParseInt(hr, 0, 23);
        if hh < 0 then Failure(BadHour(hr))
        else
          var d := ParseInt(dom, 1, 31);
          if d < 0 then Failure(BadDayOfMonth(dom))
          else Success(["/SC", "MONTHLY", "/D", ToDecimal(d), "/ST", FmtTime(hh, mm)])
      else Failure(UnsupportedShape)
  }

  function Translate(s: string): Result<seq<string>, TranslateError> {
    var f := Fields(s);
    if |f| < 5 then Failure(MissingFields)
    else if |f| > 5 then Failure(ExtraFields)
    else TranslateFields(f[0], f[1], f[2], f[3], f[4])
  }

  /** `translate`. */
  method TranslateSchedule(s: string) returns (r: Result<seq<string>, TranslateError>)
    ensures r == Translate(s)
  {
    hide ParseInt, DayNamed, FmtTime, ToDecimal;
    var f := SplitFields(s);
    if |f| < 5 {
      return Failure(MissingFields);
    }
    if |f| > 5 {
      return Failure(ExtraFields);
    }
    var min, hr, dom, dow := f[0], f[1], f[2], f[4];
    if f[3] != "*" {
      return Failure(MonthRestricted);
    }
    if min == "*" && hr == "*" && dom == "*" && dow == "*" {
      return Success(["/SC", "MINUTE", "/MO", "1"]);
    }
    if |min| > 2 && min[..2] == "*/" && hr == "*" && dom == "*" && dow == "*" {
      var n := ParseIntInRange(min[2..], 1, 1439);
      if n < 0 {
        return Failure(BadMinuteStep);
      }
      return Success(["/SC", "MINUTE", "/MO", ToDecimal(n)]);
    }
    var mm := ParseIntInRange(min, 0, 59);
    if mm < 0 {
      return Failure(BadMinute(min));
    }
    if hr == "*" && dom == "*" && dow == "*" {
      return Success(["/SC", "HOURLY", "/MO", "1", "/ST", FmtTime(0, mm)]);
    }
    if hr != "*" && dom == "*" && dow != "*" {
      var hh := ParseIntInRange(hr, 0, 23);
      if hh < 0 {
        return Failure(BadHour(hr));
      }
      var day := ParseDow(dow);
      if day == "" {
        return Failure(BadDayOfWeek(dow));
      }
      return Success(["/SC", "WEEKLY", "/D", day, "/ST", FmtTime(hh, mm)]);
    }
    if hr != "*" && dom == "*" && dow == "*" {
      var hh := ParseIntInRange(hr, 0, 23);
      if hh < 0 {
        return Failure(BadHour(hr));
      }
      return Success(["/SC", "DAILY", "/MO", "1", "/ST", FmtTime(hh, mm)]);
    }
    if hr != "*" && dom != "*" && dow == "*" {
      var hh := ParseIntInRange(hr, 0, 23);
      if hh < 0 {
        return Failure(BadHour(hr));
      }
      var d := ParseIntInRange(dom, 1, 31);
      if d < 0 {
        return Failure(BadDayOfMonth(dom));
      }
      return Success(["/SC", "MONTHLY", "/D", ToDecimal(d), "/ST", FmtTime(hh, mm)]);
    }
    return Failure(UnsupportedShape);
  }

  // ---- What a cron expression means ----

  predicate IsStep(f: string) {
    |f| > 2 && f[..2] == "*/" && Digits(f[2..]) && Value(f[2..]) > 0
  }

  predicate FieldMatches(f: string, v: nat) {
    || f == "*"
    || (IsStep(f) && v % Value(f[2..]) == 0)
    || (Digits(f) && v == Value(f))
  }

  /** `s` is `name`, which is in upper case, but for the case of its letters. */
  predicate IgnoringCase(s: string, name: string) {
    && |s| == |name|
    && forall i | 0 <= i < |s| :: s[i] == name[i] || s[i] as int == name[i] as int + 32
  }

  /** Cron's name for day of the week `v`. */
  function CronDay(v: nat): string
    requires v < 7
  {
    if v == 0 then "SUN" else if v == 1 then "MON" else if v == 2 then "TUE" else if v == 3 then "WED"
    else if v == 4 then "THU" else if v == 5 then "FRI" else "SAT"
  }

  predicate WeekdayMatches(f: string, v: nat)
    requires v < 7
  {
    || FieldMatches(f, v)
    || (Digits(f) && Value(f) == 7 && v == 0)
    || IgnoringCase(f, CronDay(v))
  }

  /** Standard cron: day of month and day of week must both match when either is `*`, else either may. */
  predicate CronFires(min: string, hr: string, dom: string, mon: string, dow: string, t: nat) {
    var onDom, onDow := FieldMatches(dom, DateOf(t).day), WeekdayMatches(dow, Weekday(t));
    && FieldMatches(min, Minute(t)) && FieldMatches(hr, Hour(t)) && FieldMatches(mon, DateOf(t).month)
    && if dom == "*" || dow == "*" then onDom && onDow else onDom || onDow
  }

  predicate ScheduleFires(s: string, t: nat) {
    var f := Fields(s);
    |f| == 5 && CronFires(f[0], f[1], f[2], f[3], f[4], t)
  }

  // ---- What schtasks flags mean ----

  /** The value given with a flag; flags and values alternate. */
  function Flag(args: seq<string>, name: string): Option<string> {
    if |args| < 2 then None
    else if args[0] == name then Some(args[1])
    else Flag(args[2..], name)
  }

  /** The day of the week that follows `/D`. */
  function SchtasksDay(name: string): Option<nat> {
    if name == "MON" then Some(1) else if name == "TUE" then Some(2) else if name == "WED" then Some(3)
    else if name == "THU" then Some(4) else if name == "FRI" then Some(5) else if name == "SAT" then Some(6)
    else if name == "SUN" then Some(0) else None
  }

  predicate RunsOn(sc: string, mo: Option<string>, d: Option<string>, start: Time, t: nat) {
    if sc == "HOURLY" then mo == Some("1")
    else
      && Hour(t) == start.hour
      && if sc == "DAILY" then mo == Some("1")
         else if sc == "WEEKLY" then d.Some? && SchtasksDay(d.value) == Some(Weekday(t))
         else sc == "MONTHLY" && d.Some? && Digits(d.value) && Value(d.value) == DateOf(t).day
  }

  /** A minute task repeats from the instant it was registered, `anchor`; the others name a time of day. */
  predicate SchtasksFires(args: seq<string>, anchor: nat, t: nat) {
    var sc, mo, d, st := Flag(args, "/SC"), Flag(args, "/MO"), Flag(args, "/D"), Flag(args, "/ST");
    if sc == Some("MINUTE") then
      mo.Some? && Digits(mo.value) && Value(mo.value) > 0 && (t - anchor) % Value(mo.value) == 0
    else
      && sc.Some? && st.Some? && ParseTime(st.value).Some?
      && Minute(t) == ParseTime(st.value).value.minute
      && RunsOn(sc.value, mo, d, ParseTime(st.value).value, t)
  }

  // ---- Translation preserves meaning ----

  lemma FlagOfTwo(a: string, b: string, c: string, d: string, name: string)
    ensures Flag([a, b, c, d], name) == if name == a then Some(b) else if name == c then Some(d) else None
  {
    assert [a, b, c, d][2..] == [c, d] && [c, d][2..] == [];
    assert Flag([c, d], name) == if name == c then Some(d) else None;
  }

  lemma FlagOfThree(a: string, b: string, c: string, d: string, e: string, f: string, name: string)
    ensures Flag([a, b, c, d, e, f], name)
         == if name == a then Some(b) else if name == c then Some(d) else if name == e then Some(f) else None
  {
    assert [a, b, c, d, e, f][2..] == [c, d, e, f];
    FlagOfTwo(c, d, e, f, name);
  }

  /** What six flags naming a time of day mean. */
  lemma TimedFires(sc: string, flag: string, v: string, hh: nat, mm: nat, anchor: nat, t: nat)
    requires hh < 24 && mm < 60 && sc != "MINUTE" && (flag == "/MO" || flag == "/D")
    ensures SchtasksFires(["/SC", sc, flag, v, "/ST", FmtTime(hh, mm)], anchor, t) <==>
              && Minute(t) == mm
              && RunsOn(sc, if flag == "/MO" then Some(v) else None, if flag == "/D" then Some(v) else None,
                        Time(hh, mm), t)
  {
    var st := FmtTime(hh, mm);
    FlagOfThree("/SC", sc, flag, v, "/ST", st, "/SC");
    FlagOfThree("/SC", sc, flag, v, "/ST", st, "/MO");
    FlagOfThree("/SC", sc, flag, v, "/ST", st, "/D");
    FlagOfThree("/SC", sc, flag, v, "/ST", st, "/ST");
    TimeRoundTrip(hh, mm);
  }

  lemma MinuteFires(n: nat, anchor: nat, t: nat)
    requires n > 0
    ensures SchtasksFires(["/SC", "MINUTE", "/MO", ToDecimal(n)], anchor, t) <==> (t - anchor) % n == 0
  {
    FlagOfTwo("/SC", "MINUTE", "/MO", ToDecimal(n), "/SC");
    FlagOfTwo("/SC", "MINUTE", "/MO", ToDecimal(n), "/MO");
    DecimalRoundTrip(n);
  }

  /** A literal field that was parsed in range matches exactly its value. */
  lemma LiteralMatches(f: string, lo: int, hi: int, v: nat)
    requires ParseInt(f, lo, hi) >= 0
    ensures IsInt(f, lo, hi) && f != "*" && !IsStep(f)
    ensures FieldMatches(f, v) <==> v == ParseInt(f, lo, hi)
  {
    assert Digits(f) && Digit(f[0]);
    assert |f| >= 2 ==> f[..2][0] == f[0];
  }

  /** The table holds schtasks' names, in order. */
  lemma DaysAreSchtasksDays(v: nat)
    requires v < 7
    ensures SchtasksDay(DAYS[v]) == Some(v) && DAYS[v] == CronDay(v) && |DAYS[v]| == 3
    ensures forall i | 0 <= i < 3 :: 'A' <= DAYS[v][i] <= 'Z'
  {
  }

  lemma UpperIgnoresCase(s: string, name: string)
    requires forall i | 0 <= i < |name| :: 'A' <= name[i] <= 'Z'
    ensures Upper(s) == name <==> IgnoringCase(s, name)
  {
    if Upper(s) == name {
      assert forall i | 0 <= i < |s| :: Upper(s)[i] == name[i];
    }
    if IgnoringCase(s, name) {
      assert Upper(s) == name;
    }
  }

  /** Exactly the digits 0 to 6, and the seven names in any case, name a day, each its own. */
  lemma DayNamedMeaning(f: string, v: nat)
    requires v < 7
    ensures DayNamed(f) == Some(v) <==> f == [DigitChar(v)] || IgnoringCase(f, CronDay(v))
  {
    DaysAreSchtasksDays(v);
    UpperIgnoresCase(f, DAYS[v]);
    if DayNamed(f).Some? && |f| != 1 {
      DaysAreSchtasksDays(DayNamed(f).value);
    }
  }

  lemma DayMeansItsNumber(s: string)
    ensures var day := if DayNamed(s).Some? then DAYS[DayNamed(s).value] else "";
            forall v: nat | v < 7 :: SchtasksDay(day) == Some(v) <==> s == [DigitChar(v)] || IgnoringCase(s, CronDay(v))
  {
    if DayNamed(s).Some? {
      DaysAreSchtasksDays(DayNamed(s).value);
    }
    hide DayNamed, IgnoringCase, CronDay;
    forall v: nat | v < 7
      ensures DayNamed(s) == Some(v) <==> s == [DigitChar(v)] || IgnoringCase(s, CronDay(v))
    {
      DayNamedMeaning(s, v);
    }
  }

  lemma DayMatches(f: string, v: nat)
    requires v < 7 && f != "*" && DayNamed(f).Some?
    ensures DayNamed(f).value < 7
    ensures WeekdayMatches(f, v) <==> SchtasksDay(DAYS[DayNamed(f).value]) == Some(v)
  {
    var d := DayNamed(f).value;
    DaysAreSchtasksDays(d);
    DayNamedMeaning(f, v);
    DayNamedMeaning(f, d);
    hide DayNamed, SchtasksDay, CronDay;
    if f == [DigitChar(d)] {
      assert f[..0] == "" && Value(f) == d && !IsStep(f);
      assert |f| == 1;
    } else {
      NamesAreNoNumbers(f, CronDay(d));
    }
  }

  lemma NamesAreNoNumbers(f: string, name: string)
    requires IgnoringCase(f, name) && |name| == 3 && forall i | 0 <= i < 3 :: 'A' <= name[i] <= 'Z'
    ensures !Digits(f) && !IsStep(f) && |f| == 3
  {
    assert 'A' <= f[0];
    assert f[..2][0] == f[0];
  }

  predicate IsMinuteStep(s: string) {
    var f := Fields(s);
    |f| == 5 && f[0] != "*" && |f[0]| > 2 && f[0][..2] == "*/" && f[1] == "*" && f[2] == "*" && f[4] == "*"
  }

  lemma StarMatches(v: nat)
    ensures FieldMatches("*", v) && (v < 7 ==> WeekdayMatches("*", v))
  {
  }

  /** Cron with the month, and whichever of the day fields, unrestricted. */
  lemma StarsFire(min: string, hr: string, dom: string, dow: string, t: nat)
    requires dom == "*" || dow == "*"
    ensures CronFires(min, hr, dom, "*", dow, t) <==>
              && FieldMatches(min, Minute(t)) && (hr == "*" || FieldMatches(hr, Hour(t)))
              && (dom == "*" || FieldMatches(dom, DateOf(t).day)) && (dow == "*" || WeekdayMatches(dow, Weekday(t)))
  {
    hide FieldMatches, WeekdayMatches, DateOf, Minute, Hour;
    StarMatches(Hour(t));
    StarMatches(DateOf(t).day);
    StarMatches(DateOf(t).month);
    StarMatches(Weekday(t));
  }

  lemma EveryMinuteMeaning(anchor: nat, t: nat)
    ensures CronFires("*", "*", "*", "*", "*", t) <==> SchtasksFires(["/SC", "MINUTE", "/MO", "1"], anchor, t)
  {
    StarsFire("*", "*", "*", "*", t);
    StarMatches(Minute(t));
    assert ToDecimal(1) == "1";
    MinuteFires(1, anchor, t);
  }

  lemma HourlyMeaning(min: string, anchor: nat, t: nat)
    requires ParseInt(min, 0, 59) >= 0
    ensures CronFires(min, "*", "*", "*", "*", t) <==>
            SchtasksFires(["/SC", "HOURLY", "/MO", "1", "/ST", FmtTime(0, ParseInt(min, 0, 59))], anchor, t)
  {
    hide CronFires, SchtasksFires, FieldMatches, WeekdayMatches, FmtTime, DateOf;
    StarsFire(min, "*", "*", "*", t);
    LiteralMatches(min, 0, 59, Minute(t));
    TimedFires("HOURLY", "/MO", "1", 0, ParseInt(min, 0, 59), anchor, t);
  }

  lemma DailyMeaning(min: string, hr: string, anchor: nat, t: nat)
    requires ParseInt(min, 0, 59) >= 0 && ParseInt(hr, 0, 23) >= 0
    ensures CronFires(min, hr, "*", "*", "*", t) <==>
            SchtasksFires(["/SC", "DAILY", "/MO", "1", "/ST", FmtTime(ParseInt(hr, 0, 23), ParseInt(min, 0, 59))],
                          anchor, t)
  {
    hide CronFires, SchtasksFires, FieldMatches, WeekdayMatches, FmtTime, DateOf;
    StarsFire(min, hr, "*", "*", t);
    LiteralMatches(min, 0, 59, Minute(t));
    LiteralMatches(hr, 0, 23, Hour(t));
    TimedFires("DAILY", "/MO", "1", ParseInt(hr, 0, 23), ParseInt(min, 0, 59), anchor, t);
  }

  lemma WeeklyMeaning(min: string, hr: string, dow: string, anchor: nat, t: nat)
    requires ParseInt(min, 0, 59) >= 0 && ParseInt(hr, 0, 23) >= 0 && dow != "*" && DayNamed(dow).Some?
    ensures var st := FmtTime(ParseInt(hr, 0, 23), ParseInt(min, 0, 59));
            CronFires(min, hr, "*", "*", dow, t) <==>
            SchtasksFires(["/SC", "WEEKLY", "/D", DAYS[DayNamed(dow).value], "/ST", st], anchor, t)
  {
    hide CronFires, SchtasksFires, FieldMatches, WeekdayMatches, FmtTime, DateOf, DayNamed, SchtasksDay;
    StarsFire(min, hr, "*", dow, t);
    LiteralMatches(min, 0, 59, Minute(t));
    LiteralMatches(hr, 0, 23, Hour(t));
    DayMatches(dow, Weekday(t));
    TimedFires("WEEKLY", "/D", DAYS[DayNamed(dow).value], ParseInt(hr, 0, 23), ParseInt(min, 0, 59), anchor, t);
  }

  lemma MonthlyMeaning(min: string, hr: string, dom: string, anchor: nat, t: nat)
    requires ParseInt(min, 0, 59) >= 0 && ParseInt(hr, 0, 23) >= 0 && dom != "*" && ParseInt(dom, 1, 31) >= 0
    ensures var st := FmtTime(ParseInt(hr, 0, 23), ParseInt(min, 0, 59));
            CronFires(min, hr, dom, "*", "*", t) <==>
            SchtasksFires(["/SC", "MONTHLY", "/D", ToDecimal(ParseInt(dom, 1, 31)), "/ST", st], anchor, t)
  {
    hide CronFires, SchtasksFires, FieldMatches, WeekdayMatches, FmtTime, DateOf;
    StarsFire(min, hr, dom, "*", t);
    LiteralMatches(min, 0, 59, Minute(t));
    LiteralMatches(hr, 0, 23, Hour(t));
    LiteralMatches(dom, 1, 31, DateOf(t).day);
    DecimalRoundTrip(ParseInt(dom, 1, 31));
    TimedFires("MONTHLY", "/D", ToDecimal(ParseInt(dom, 1, 31)), ParseInt(hr, 0, 23), ParseInt(min, 0, 59), anchor, t);
  }

  /** Every accepted schedule other than a minute step fires at the same minutes in both languages. */
  lemma TranslatePreservesMeaning(s: string, anchor: nat, t: nat)
    requires Translate(s).Success? && !IsMinuteStep(s)
    ensures ScheduleFires(s, t) <==> SchtasksFires(Translate(s).value, anchor, t)
  {
    hide CronFires, SchtasksFires, ParseInt, DayNamed, FmtTime, Fields, ToDecimal;
    var f := Fields(s);
    var min, hr, dom, dow := f[0], f[1], f[2], f[4];
    if min == "*" && hr == "*" && dom == "*" && dow == "*" {
      EveryMinuteMeaning(anchor, t);
    } else if hr == "*" {
      HourlyMeaning(min, anchor, t);
    } else if dom != "*" {
      MonthlyMeaning(min, hr, dom, anchor, t);
    } else if dow != "*" {
      WeeklyMeaning(min, hr, dow, anchor, t);
    } else {
      DailyMeaning(min, hr, anchor, t);
    }
  }

  /** N, or -1 when it is not a number in range. */
  function StepOf(s: string): int
    requires IsMinuteStep(s)
  {
    ParseInt(Fields(s)[0][2..], 1, 1439)
  }

  /** The step of a minute-step schedule divides the hour and the minute of registration. */
  ghost predicate Aligned(s: string, anchor: nat)
    requires IsMinuteStep(s)
  {
    StepOf(s) > 0 && 60 % StepOf(s) == 0 && anchor % StepOf(s) == 0
  }

  /** From its registration on, the task fires at the minutes the schedule names. */
  ghost predicate FiresAsScheduled(s: string, args: seq<string>, anchor: nat) {
    forall t: nat | t >= anchor :: ScheduleFires(s, t) <==> SchtasksFires(args, anchor, t)
  }

  /**
    A minute step restarts at every hour in cron but runs straight on from the minute of registration in
    schtasks: the two fire at the same minutes exactly when N divides both 60 and that minute.
   */
  lemma StepPreservesMeaningIff(s: string, anchor: nat)
    requires Translate(s).Success? && IsMinuteStep(s)
    ensures FiresAsScheduled(s, Translate(s).value, anchor) <==> Aligned(s, anchor)
  {
    hide Fields, SchtasksFires, ScheduleFires, StepOf, IsMinuteStep;
    StepFires(s, 0);
    var n, args := StepOf(s), Translate(s).value;
    hide Translate;
    forall t: nat | t >= anchor
      ensures (ScheduleFires(s, t) <==> SchtasksFires(args, anchor, t))
         <==> (Minute(t) % n == 0 <==> (t - anchor) % n == 0)
    {
      StepFires(s, t);
      MinuteFires(n, anchor, t);
    }
    StepSetsAgreeIff(n, anchor);
    if FiresAsScheduled(s, args, anchor) {
      assert forall t: nat | t >= anchor :: ScheduleFires(s, t) <==> SchtasksFires(args, anchor, t);
    } else {
      var t: nat :| t >= anchor && !(ScheduleFires(s, t) <==> SchtasksFires(args, anchor, t));
      assert !(Minute(t) % n == 0 <==> (t - anchor) % n == 0);
    }
  }

  /** For every accepted schedule: only minute steps that are not aligned go wrong. */
  lemma TranslationIsFaithfulIff(s: string, anchor: nat)
    requires Translate(s).Success?
    ensures FiresAsScheduled(s, Translate(s).value, anchor) <==> (IsMinuteStep(s) ==> Aligned(s, anchor))
  {
    hide Translate, SchtasksFires, ScheduleFires, IsMinuteStep, Aligned;
    if IsMinuteStep(s) {
      StepPreservesMeaningIff(s, anchor);
    } else {
      forall t: nat | t >= anchor
        ensures ScheduleFires(s, t) <==> SchtasksFires(Translate(s).value, anchor, t)
      {
        TranslatePreservesMeaning(s, anchor, t);
      }
    }
  }

  /** Registered on an hour boundary, a minute step keeps its meaning exactly when N divides 60. */
  lemma StepOnTheHourIff(s: string, anchor: nat)
    requires Translate(s).Success? && IsMinuteStep(s) && anchor % 60 == 0
    ensures StepOf(s) > 0 && (FiresAsScheduled(s, Translate(s).value, anchor) <==> 60 % StepOf(s) == 0)
  {
    hide Translate, StepOf, IsMinuteStep, FiresAsScheduled;
    StepPreservesMeaningIff(s, anchor);
    StepFires(s, 0);
    if 60 % StepOf(s) == 0 {
      MultiplesOfMultiples(StepOf(s), anchor);
    }
  }

  lemma MultiplesOfMultiples(n: nat, m: nat)
    requires n > 0 && 60 % n == 0 && m % 60 == 0
    ensures m % n == 0
  {
    var q, k := 60 / n, m / 60;
    assert m == 60 * k && 60 == n * q;
    assert 60 * k == n * (q * k);
    ModOfSum(n, q * k, 0);
  }

  /** For instance: every seven minutes. Cron fires again at the full hour, the task does not. */
  lemma SevenMinuteStepDiffers(s: string, anchor: nat)
    requires Fields(s) == ["*/7", "*", "*", "*", "*"] && anchor % 60 == 0
    ensures Translate(s) == Success(["/SC", "MINUTE", "/MO", "7"])
    ensures ScheduleFires(s, anchor + 60) && !SchtasksFires(Translate(s).value, anchor, anchor + 60)
  {
    hide Fields, TranslateFields, SchtasksFires, CronFires, ParseInt;
    assert ToDecimal(7) == "7" && "*/" + "7" == "*/7";
    StepTranslates(7);
    assert IsMinuteStep(s);
    StepFires(s, anchor + 60);
    MinuteFires(7, anchor, anchor + 60);
  }

  /** Dividing 60 is not enough: every five minutes, registered at three past, runs at three past for ever. */
  lemma FiveMinuteStepDiffers(s: string, anchor: nat)
    requires Fields(s) == ["*/5", "*", "*", "*", "*"] && anchor % 60 == 3
    ensures Translate(s) == Success(["/SC", "MINUTE", "/MO", "5"])
    ensures !ScheduleFires(s, anchor) && SchtasksFires(Translate(s).value, anchor, anchor)
    ensures ScheduleFires(s, anchor + 2) && !SchtasksFires(Translate(s).value, anchor, anchor + 2)
  {
    hide Fields, TranslateFields, SchtasksFires, CronFires, ParseInt;
    assert ToDecimal(5) == "5" && "*/" + "5" == "*/5";
    StepTranslates(5);
    assert IsMinuteStep(s);
    StepFires(s, anchor);
    StepFires(s, anchor + 2);
    MinuteFires(5, anchor, anchor);
    MinuteFires(5, anchor, anchor + 2);
  }

  lemma StepTranslates(n: nat)
    requires 1 <= n <= 1439
    ensures var f := "*/" + ToDecimal(n);
            && TranslateFields(f, "*", "*", "*", "*") == Success(["/SC", "MINUTE", "/MO", ToDecimal(n)])
            && |f| > 2 && f[..2] == "*/" && ParseInt(f[2..], 1, 1439) == n
  {
    DecimalRoundTrip(n);
    var f := "*/" + ToDecimal(n);
    assert f[..2] == "*/" && f[2..] == ToDecimal(n);
  }

  lemma StepSetsAgreeIff(n: nat, anchor: nat)
    requires n > 0
    ensures 60 % n == 0 && anchor % n == 0 <==>
            forall t: nat | t >= anchor :: Minute(t) % n == 0 <==> (t - anchor) % n == 0
  {
    if 60 % n == 0 && anchor % n == 0 {
      AlignedSetsAgree(n, anchor);
    }
    if forall t: nat | t >= anchor :: Minute(t) % n == 0 <==> (t - anchor) % n == 0 {
      AgreeingSetsAreAligned(n, anchor);
    }
  }

  lemma AlignedSetsAgree(n: nat, anchor: nat)
    requires n > 0 && 60 % n == 0 && anchor % n == 0
    ensures forall t: nat | t >= anchor :: Minute(t) % n == (t - anchor) % n
  {
    forall t: nat | t >= anchor
      ensures Minute(t) % n == (t - anchor) % n
    {
      MinuteModulo(n, t);
      assert t == n * (anchor / n) + (t - anchor);
      ModOfSum(n, anchor / n, t - anchor);
    }
  }

  /** The registration itself and the next two full hours decide it. */
  lemma AgreeingSetsAreAligned(n: nat, anchor: nat)
    requires n > 0 && forall t: nat | t >= anchor :: Minute(t) % n == 0 <==> (t - anchor) % n == 0
    ensures 60 % n == 0 && anchor % n == 0
  {
    var hour := NextHour(anchor);
    hide Minute;
    ZeroModulo(n);
    assert Minute(anchor) % n == 0 <==> (anchor - anchor) % n == 0;
    assert Minute(hour) % n == 0 && Minute(hour + 60) % n == 0;
    SixtyIsMultiple(n, hour - anchor);
    MinuteModulo(n, anchor);
  }

  lemma NextHour(anchor: nat) returns (hour: nat)
    ensures hour >= anchor && Minute(hour) == 0 && Minute(hour + 60) == 0
  {
    hour := 60 * (anchor / 60) + 60;
  }

  lemma ZeroModulo(n: nat)
    requires n > 0
    ensures 0 % n == 0
  {
  }

  lemma SixtyIsMultiple(n: nat, a: nat)
    requires n > 0 && a % n == 0 && (a + 60) % n == 0
    ensures 60 % n == 0
  {
    assert a + 60 == n * (a / n) + 60;
    ModOfSum(n, a / n, 60);
  }

  /** When N divides 60, the minute of the hour tells whether N divides the time. */
  lemma MinuteModulo(n: nat, t: nat)
    requires n > 0 && 60 % n == 0
    ensures Minute(t) % n == t % n
  {
    var q, k := 60 / n, t / 60;
    assert t == 60 * k + Minute(t) && 60 == n * q;
    assert 60 * k == n * (q * k);
    ModOfSum(n, q * k, Minute(t));
  }

  lemma StepFires(s: string, t: nat)
    requires Translate(s).Success? && IsMinuteStep(s)
    ensures 1 <= StepOf(s) <= 1439 && (ScheduleFires(s, t) <==> Minute(t) % StepOf(s) == 0)
    ensures Translate(s).value == ["/SC", "MINUTE", "/MO", ToDecimal(StepOf(s))]
  {
    var min := Fields(s)[0];
    assert min[0] == min[..2][0] == '*';
    assert !Digits(min);
    StarMatches(Minute(t));
    StarMatches(Weekday(t));
  }

  lemma ModOfSum(n: nat, k: nat, r: nat)
    requires n > 0
    ensures (n * k + r) % n == r % n
  {
    assert n * k + r == n * (k + r / n) + r % n;
    ModIsUnique(n * k + r, n, k + r / n, r % n);
  }

  lemma ModIsUnique(a: nat, n: nat, q: int, r: nat)
    requires r < n && a == n * q + r
    ensures a % n == r
  {
    var d := a / n - q;
    assert n * d == r - a % n;
    assert d > 0 ==> n * d >= n;
    assert d < 0 ==> n * d <= -(n as int);
  }

  /** One digit from 0 to 6, or one of the seven names in any case. */
  predicate NamesDay(f: string) {
    || (|f| == 1 && '0' <= f[0] <= '6')
    || IgnoringCase(f, "SUN") || IgnoringCase(f, "MON") || IgnoringCase(f, "TUE") || IgnoringCase(f, "WED")
    || IgnoringCase(f, "THU") || IgnoringCase(f, "FRI") || IgnoringCase(f, "SAT")
  }

  lemma NamesDayIffNamed(f: string)
    ensures NamesDay(f) <==> DayNamed(f).Some?
  {
    forall v: nat | v < 7
      ensures DayNamed(f) == Some(v) <==> f == [DigitChar(v)] || IgnoringCase(f, CronDay(v))
    {
      DayNamedMeaning(f, v);
    }
    hide DayNamed, IgnoringCase;
    if || IgnoringCase(f, CronDay(0)) || IgnoringCase(f, CronDay(1)) || IgnoringCase(f, CronDay(2))
       || IgnoringCase(f, CronDay(3)) || IgnoringCase(f, CronDay(4)) || IgnoringCase(f, CronDay(5))
       || IgnoringCase(f, CronDay(6)) {
      assert DayNamed(f).Some?;
    }
    if |f| == 1 && '0' <= f[0] <= '6' {
      assert f == [DigitChar(f[0] as int - '0' as int)];
    }
  }

  /** Acceptance is exactly the shapes and ranges handled. */
  lemma AcceptsExactly(s: string)
    ensures Translate(s).Success? <==>
              var f := Fields(s);
              && |f| == 5 && f[3] == "*"
              && (|| (f[0] == "*" && f[1] == "*" && f[2] == "*" && f[4] == "*")
                  || (|f[0]| > 2 && f[0][..2] == "*/" && IsInt(f[0][2..], 1, 1439)
                      && f[1] == "*" && f[2] == "*" && f[4] == "*")
                  || (IsInt(f[0], 0, 59) && f[1] == "*" && f[2] == "*" && f[4] == "*")
                  || (IsInt(f[0], 0, 59) && IsInt(f[1], 0, 23) && f[2] == "*" && (f[4] == "*" || NamesDay(f[4])))
                  || (IsInt(f[0], 0, 59) && IsInt(f[1], 0, 23) && IsInt(f[2], 1, 31) && f[4] == "*"))
  {
    var f := Fields(s);
    if |f| == 5 {
      NamesDayIffNamed(f[4]);
      hide NamesDay, DayNamed;
      assert forall i | 0 <= i < 5 && Digits(f[i]) :: Digit(f[i][0]);
      assert |f[0]| > 2 && f[0][..2] == "*/" ==> f[0][0] == '*' by {
        if |f[0]| > 2 && f[0][..2] == "*/" {
          assert f[0][..2][0] == '*';
        }
      }
    }
  }

  /** For instance: Mondays at eight, and Fridays by name. */
  lemma KnownWeeklyTranslations()
    ensures TranslateFields("0", "8", "*", "*", "1") == Success(["/SC", "WEEKLY", "/D", "MON", "/ST", "08:00"])
    ensures TranslateFields("0", "8", "*", "*", "fri") == Success(["/SC", "WEEKLY", "/D", "FRI", "/ST", "08:00"])
  {
    OneDigit("0");
    OneDigit("8");
    hide Value;
    assert ParseInt("0", 0, 59) == 0 && ParseInt("8", 0, 23) == 8 && FmtTime(8, 0) == "08:00";
    DayNamedMeaning("1", 1);
    DayNamedMeaning("fri", 5);
    assert IgnoringCase("fri", "FRI") && DAYS[1] == "MON" && DAYS[5] == "FRI";
    hide DayNamed, FmtTime, ParseInt, IgnoringCase;
  }

  /** Half past nine every day, and seventeen past every hour. */
  lemma KnownDailyTranslations()
    ensures TranslateFields("30", "9", "*", "*", "*") == Success(["/SC", "DAILY", "/MO", "1", "/ST", "09:30"])
    ensures TranslateFields("17", "*", "*", "*", "*") == Success(["/SC", "HOURLY", "/MO", "1", "/ST", "00:17"])
  {
    OneDigit("9");
    TwoDigitsRead("30");
    TwoDigitsRead("17");
    hide Value;
    assert ParseInt("30", 0, 59) == 30 && ParseInt("9", 0, 23) == 9 && ParseInt("17", 0, 59) == 17;
    assert FmtTime(9, 30) == "09:30" && FmtTime(0, 17) == "00:17";
    hide FmtTime, ParseInt;
  }

  /** Midnight on the fifteenth. */
  lemma KnownMonthlyTranslations()
    ensures TranslateFields("0", "0", "15", "*", "*") == Success(["/SC", "MONTHLY", "/D", "15", "/ST", "00:00"])
  {
    OneDigit("0");
    TwoDigitsRead("15");
    hide Value;
    assert ParseInt("0", 0, 59) == 0 && ParseInt("0", 0, 23) == 0 && ParseInt("15", 1, 31) == 15;
    assert ToDecimal(15) == "15" && FmtTime(0, 0) == "00:00";
    hide FmtTime, ParseInt, ToDecimal;
  }

  lemma OneDigit(s: string)
    requires |s| == 1 && Digit(s[0])
    ensures Value(s) == s[0] as int - '0' as int
  {
    assert s[..0] == "";
  }

  lemma TwoDigitsRead(s: string)
    requires |s| == 2 && Digit(s[0]) && Digit(s[1])
    ensures Value(s) == 10 * (s[0] as int - '0' as int) + (s[1] as int - '0' as int)
  {
    OneDigit(s[..1]);
  }
}
