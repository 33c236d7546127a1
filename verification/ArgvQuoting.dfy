/**
  The privileged service's command lines: every argument is put in double quotes and its own double quotes
  are escaped. Parsing by the `CommandLineToArgvW` rules gives the arguments back exactly when no argument
  has a backslash before a double quote or at its end, because backslashes are not doubled there.
 */
module ArgvQuoting {
  import opened Text

  // ---- Building ----

  function Escaped(c: char): string {
    if c == '"' then "\\\"" else [c]
  }

  function Body(a: string): string {
    if a == "" then "" else Body(a[..|a| - 1]) + Escaped(a[|a| - 1])
  }

  function ArgText(a: string): string {
    " \"" + Body(a) + "\""
  }

  function ArgsText(args: seq<string>): string {
    if args == [] then "" else ArgsText(args[..|args| - 1]) + ArgText(args[|args| - 1])
  }

  function CommandLine(exe: string, args: seq<string>): string {
    "\"" + exe + "\"" + ArgsText(args)
  }

  /** The quoting loop of `run_system_tool`. */
  method BuildCommandLine(exe: string, args: seq<string>) returns (cmd: string)
    ensures cmd == CommandLine(exe, args)
  {
    hide ArgText, Body, Escaped;
    cmd := "\"" + exe + "\"";
    for i := 0 to |args|
      invariant cmd == "\"" + exe + "\"" + ArgsText(args[..i])
    {
      cmd := AppendArg(cmd, args[i]);
      assert args[..i + 1][..i] == args[..i];
    }
    assert args[..|args|] == args;
  }

  method AppendArg(before: string, a: string) returns (cmd: string)
    ensures cmd == before + ArgText(a)
  {
    cmd := before + " \"";
    for i := 0 to |a|
      invariant cmd == before + " \"" + Body(a[..i])
    {
      assert a[..i + 1][..i] == a[..i];
      if a[i] == '"' {
        cmd := cmd + "\\\"";
      } else {
        cmd := cmd + [a[i]];
      }
    }
    assert a[..|a|] == a;
    cmd := cmd + "\"";
  }

  // ---- Parsing by the CommandLineToArgvW rules ----

  function Slashes(n: nat): (s: string)
    ensures |s| == n
  {
    seq(n, _ => '\\')
  }

  /** Finished arguments, the one being read (none between arguments), backslashes not yet decided on, and
      whether blanks are literal. */
  datatype Parse = Parse(done: seq<string>, reading: bool, cur: string, slashes: nat, quoted: bool) {
    /** 2n backslashes and a quote are n backslashes and toggle quoting; 2n + 1 and a quote are n backslashes
        and a literal quote; backslashes before anything else are themselves. */
    function Feed(c: char): Parse {
      if c == '\\' then this.(reading := true, slashes := slashes + 1)
      else if c == '"' then
        var text := cur + Slashes(slashes / 2);
        if slashes % 2 == 1 then Parse(done, true, text + "\"", 0, quoted)
        else Parse(done, true, text, 0, !quoted)
      else if Blank(c) && !quoted then
        if reading then Parse(done + [cur + Slashes(slashes)], false, "", 0, false) else this
      else Parse(done, true, cur + Slashes(slashes) + [c], 0, quoted)
    }

    function Close(): seq<string> {
      if reading then done + [cur + Slashes(slashes)] else done
    }
  }

  const START := Parse([], false, "", 0, false)

  function Run(p: Parse, s: string): Parse {
    if s == "" then p else Run(p, s[..|s| - 1]).Feed(s[|s| - 1])
  }

  function ParseArgs(s: string): seq<string> {
    Run(START, s).Close()
  }

  /** The first argument, when quoted, runs to the next quote with no escapes. */
  function ParseCommandLine(s: string): seq<string> {
    if s == "" || s[0] != '"' then ParseArgs(s)
    else
      var end := FindQuote(s, 1);
      [s[1..end]] + ParseArgs(if end == |s| then "" else s[end + 1..])
  }

  // ---- Running over concatenations ----

  lemma {:induction false} RunConcat(p: Parse, a: string, b: string)
    ensures Run(p, a + b) == Run(Run(p, a), b)
  {
    if b == "" {
      assert a + b == a;
    } else {
      var n := |b| - 1;
      RunConcat(p, a, b[..n]);
      assert (a + b)[..|a + b| - 1] == a + b[..n];
    }
  }

  lemma RunOne(p: Parse, c: char)
    ensures Run(p, [c]) == p.Feed(c)
  {
    assert [c][..0] == "";
  }

  /** Feeding one character of an argument as it is written. */
  function FeedEscaped(p: Parse, c: char): Parse {
    if c == '"' then p.Feed('\\').Feed('"') else p.Feed(c)
  }

  function RunBody(p: Parse, a: string): Parse {
    if a == "" then p else FeedEscaped(RunBody(p, a[..|a| - 1]), a[|a| - 1])
  }

  lemma {:induction false} RunOverBody(p: Parse, a: string)
    ensures Run(p, Body(a)) == RunBody(p, a)
  {
    if a == "" {
    } else {
      var n := |a| - 1;
      RunOverBody(p, a[..n]);
      RunConcat(p, Body(a[..n]), Escaped(a[n]));
      var q := RunBody(p, a[..n]);
      if a[n] == '"' {
        assert "\\\"" == ['\\'] + ['"'];
        RunConcat(q, ['\\'], ['"']);
        RunOne(q, '\\');
        RunOne(q.Feed('\\'), '"');
      } else {
        RunOne(q, a[n]);
      }
    }
  }

  /** From the end of one argument, or the start, to the inside of the next one's quotes. */
  function Opened(p: Parse): Parse {
    p.Feed(' ').Feed('"')
  }

  lemma RunOverArg(p: Parse, a: string)
    ensures Run(p, ArgText(a)) == RunBody(Opened(p), a).Feed('"')
  {
    RunConcat(p, " \"" + Body(a), "\"");
    RunConcat(p, " \"", Body(a));
    assert " \"" == [' '] + ['"'];
    RunConcat(p, [' '], ['"']);
    RunOne(p, ' ');
    RunOne(p.Feed(' '), '"');
    RunOverBody(Opened(p), a);
    RunOne(RunBody(Opened(p), a), '"');
  }

  lemma TextAssociates(a: string, b: string, c: string)
    ensures a + b + c == a + (b + c)
  {
  }

  lemma {:induction false} ArgsTextConcat(a: seq<string>, b: seq<string>)
    ensures ArgsText(a + b) == ArgsText(a) + ArgsText(b)
  {
    hide ArgText;
    if b == [] {
      assert a + b == a;
    } else {
      var n := |b| - 1;
      ArgsTextConcat(a, b[..n]);
      assert (a + b)[..|a + b| - 1] == a + b[..n];
      TextAssociates(ArgsText(a), ArgsText(b[..n]), ArgText(b[n]));
    }
  }

  // ---- What parsing never undoes ----

  /** Finished arguments stay, and the one being read only grows. */
  ghost predicate Extends(p: Parse, result: seq<string>) {
    && p.done <= result
    && (p.reading ==> |result| > |p.done| && p.cur <= result[|p.done|])
  }

  lemma {:induction false} RunExtends(p: Parse, s: string)
    ensures Extends(p, Run(p, s).Close())
    ensures p.done <= Run(p, s).done
    ensures |Run(p, s).done| == |p.done| && p.reading ==> Run(p, s).reading && p.cur <= Run(p, s).cur
    ensures |Run(p, s).done| > |p.done| && p.reading ==> p.cur <= Run(p, s).done[|p.done|]
  {
    hide Slashes;
    if s == "" {
    } else {
      RunExtends(p, s[..|s| - 1]);
    }
  }

  // ---- The condition ----

  predicate EndsInSlash(a: string) {
    a != "" && a[|a| - 1] == '\\'
  }

  /** Some double quote comes right after a backslash. */
  predicate SlashBeforeQuote(a: string) {
    a != "" && (SlashBeforeQuote(a[..|a| - 1]) || (a[|a| - 1] == '"' && EndsInSlash(a[..|a| - 1])))
  }

  predicate Safe(a: string) {
    !EndsInSlash(a) && !SlashBeforeQuote(a)
  }

  predicate SlashQuoteAt(a: string, i: nat) {
    i + 1 < |a| && a[i] == '\\' && a[i + 1] == '"'
  }

  /** The condition in terms of positions. */
  lemma {:induction false} SlashBeforeQuoteMeaning(a: string)
    ensures SlashBeforeQuote(a) <==> exists i: nat :: SlashQuoteAt(a, i)
  {
    if a == "" {
    } else {
      var n := |a| - 1;
      SlashBeforeQuoteMeaning(a[..n]);
      forall i: nat
        ensures SlashQuoteAt(a, i) <==> SlashQuoteAt(a[..n], i) || (i + 1 == n && SlashQuoteAt(a, i))
      {
      }
      assert n > 0 ==> (SlashQuoteAt(a, n - 1) <==> a[n] == '"' && EndsInSlash(a[..n]));
    }
  }

  // ---- Reading one argument, good or bad ----

  function Spaces(s: string): nat {
    if s == "" then 0 else Spaces(s[..|s| - 1]) + if s[|s| - 1] == ' ' then 1 else 0
  }

  lemma {:induction false} SpacesConcat(a: string, b: string)
    ensures Spaces(a + b) == Spaces(a) + Spaces(b)
  {
    if b == "" {
      assert a + b == a;
    } else {
      SpacesConcat(a, b[..|b| - 1]);
      assert (a + b)[..|a + b| - 1] == a + b[..|b| - 1];
    }
  }

  lemma {:induction false} SlashesHaveNoSpaces(n: nat)
    ensures Spaces(Slashes(n)) == 0
  {
    if n == 0 {
    } else {
      SlashesHaveNoSpaces(n - 1);
      assert Slashes(n)[..n - 1] == Slashes(n - 1);
    }
  }

  /** The argument that was being read when `done` was finished came out shorter than `a`. */
  ghost predicate CutShort(p: Parse, done: seq<string>, a: string) {
    done <= p.done && |p.done| > |done| && |p.done[|done|]| < |a|
  }

  /** Still reading: nothing too long, no space lost, and an exact copy as long as nothing went wrong. */
  ghost predicate Reading(p: Parse, done: seq<string>, a: string) {
    && p.done == done && p.reading
    && |p.cur| + p.slashes <= |a|
    && Spaces(p.cur) == Spaces(a)
    && (p.slashes > 0 <==> EndsInSlash(a))
    && (if SlashBeforeQuote(a) then |p.cur| + p.slashes < |a|
        else p.quoted && p.cur + Slashes(p.slashes) == a)
  }

  lemma {:induction false} ReadBody(done: seq<string>, a: string)
    ensures var p := RunBody(Parse(done, true, "", 0, true), a);
            CutShort(p, done, a) || Reading(p, done, a)
  {
    if a == "" {
    } else {
      var n := |a| - 1;
      ReadBody(done, a[..n]);
      var p := RunBody(Parse(done, true, "", 0, true), a[..n]);
      if CutShort(p, done, a[..n]) {
        StaysCutShort(p, done, a[..n], a[n]);
      } else {
        ReadOne(p, done, a[..n], a[n]);
      }
      assert a == a[..n] + [a[n]];
    }
  }

  lemma StaysCutShort(p: Parse, done: seq<string>, a: string, c: char)
    requires CutShort(p, done, a)
    ensures CutShort(FeedEscaped(p, c), done, a + [c])
  {
    assert p.done <= p.Feed(c).done && p.done <= p.Feed('\\').Feed('"').done;
  }

  lemma ReadOne(p: Parse, done: seq<string>, a: string, c: char)
    requires Reading(p, done, a)
    ensures var q := FeedEscaped(p, c);
            (!p.quoted && CutShort(q, done, a + [c])) || Reading(q, done, a + [c])
  {
    assert (a + [c])[..|a|] == a;
    if c == '"' {
      ReadQuote(p, done, a);
    } else if c == '\\' {
      ReadSlash(p, done, a);
    } else {
      ReadOther(p, done, a, c);
    }
  }

  lemma ReadQuote(p: Parse, done: seq<string>, a: string)
    requires Reading(p, done, a)
    ensures Reading(p.Feed('\\').Feed('"'), done, a + "\"")
  {
    hide Spaces, Slashes;
    var k := (p.slashes + 1) / 2;
    assert (a + "\"")[..|a|] == a;
    QuoteSpaces(p.cur, a, k);
    if !SlashBeforeQuote(a) && p.slashes == 0 {
      assert p.cur + Slashes(0) == p.cur;
    }
  }

  /** A quote and the backslashes kept before it bring no spaces. */
  lemma QuoteSpaces(cur: string, a: string, k: nat)
    ensures Spaces(cur + Slashes(k)) == Spaces(cur) == Spaces(cur + Slashes(k) + "\"")
    ensures Spaces(a + "\"") == Spaces(a)
  {
    SpacesConcat(a, "\"");
    SpacesConcat(cur, Slashes(k));
    SpacesConcat(cur + Slashes(k), "\"");
    SlashesHaveNoSpaces(k);
    assert Spaces("\"") == 0 by {
      assert "\""[..0] == "";
    }
  }

  lemma ReadSlash(p: Parse, done: seq<string>, a: string)
    requires Reading(p, done, a)
    ensures Reading(p.Feed('\\'), done, a + "\\")
  {
    assert (a + "\\")[..|a|] == a;
    assert Slashes(p.slashes + 1) == Slashes(p.slashes) + "\\";
    if !SlashBeforeQuote(a) {
      assert p.cur + Slashes(p.slashes + 1) == p.cur + Slashes(p.slashes) + "\\";
    }
  }

  lemma ReadOther(p: Parse, done: seq<string>, a: string, c: char)
    requires Reading(p, done, a) && c != '"' && c != '\\'
    ensures var q := p.Feed(c); (!p.quoted && CutShort(q, done, a + [c])) || Reading(q, done, a + [c])
  {
    assert (a + [c])[..|a|] == a;
    var text := p.cur + Slashes(p.slashes);
    SpacesConcat(p.cur, Slashes(p.slashes));
    SlashesHaveNoSpaces(p.slashes);
    assert (text + [c])[..|text|] == text;
    if Blank(c) && !p.quoted {
      assert CutShort(p.Feed(c), done, a + [c]);
    } else {
      assert text + [c] + Slashes(0) == text + [c];
    }
  }

  // ---- The closing quote and what follows ----

  /** After an argument that is not safe: its reading was cut short, or it came out different, or the quotes are
      still open and one more space makes it different. */
  lemma UnsafeGoesWrong(done: seq<string>, a: string)
    requires !Safe(a)
    ensures var q := RunBody(Parse(done, true, "", 0, true), a).Feed('"');
            || CutShort(q, done, a)
            || (q.done == done && q.reading && q.slashes == 0 && q.cur != a
                && (q.quoted ==> Spaces(q.cur) == Spaces(a)))
  {
    var p := RunBody(Parse(done, true, "", 0, true), a);
    ReadBody(done, a);
    if CutShort(p, done, a) {
      assert p.done <= p.Feed('"').done;
    } else {
      var k := p.slashes / 2;
      SpacesConcat(p.cur, Slashes(k));
      SpacesConcat(p.cur + Slashes(k), "\"");
      SlashesHaveNoSpaces(k);
      var text := p.cur + Slashes(k);
      assert (text + "\"")[..|text|] == text;
      if p.slashes == 1 {
        assert p.Feed('"').cur[|text|] == '"';
      }
    }
  }

  lemma SafeGoesRight(done: seq<string>, a: string)
    requires Safe(a)
    ensures RunBody(Parse(done, true, "", 0, true), a).Feed('"') == Parse(done, true, a, 0, false)
  {
    var p := RunBody(Parse(done, true, "", 0, true), a);
    ReadBody(done, a);
    SafeIsNeverCutShort(done, a);
    assert p.cur + Slashes(0) == p.cur;
  }

  lemma {:induction false} SafeIsNeverCutShort(done: seq<string>, a: string)
    requires !SlashBeforeQuote(a)
    ensures var p := RunBody(Parse(done, true, "", 0, true), a);
            Reading(p, done, a)
  {
    hide FeedEscaped, Reading;
    if a == "" {
      StartsReading(done);
    } else {
      var n := |a| - 1;
      SafeIsNeverCutShort(done, a[..n]);
      var p := RunBody(Parse(done, true, "", 0, true), a[..n]);
      StaysQuoted(p, done, a[..n]);
      ReadOne(p, done, a[..n], a[n]);
      assert a == a[..n] + [a[n]];
    }
  }

  lemma StartsReading(done: seq<string>)
    ensures Reading(Parse(done, true, "", 0, true), done, "")
  {
  }

  lemma StaysQuoted(p: Parse, done: seq<string>, a: string)
    requires Reading(p, done, a) && !SlashBeforeQuote(a)
    ensures p.quoted
  {
  }

  /** The parser's state after safe arguments. */
  function After(args: seq<string>): Parse {
    if args == [] then START else Parse(args[..|args| - 1], true, args[|args| - 1], 0, false)
  }

  lemma OpenedAfter(args: seq<string>)
    ensures Opened(After(args)) == Parse(args, true, "", 0, true)
  {
    if args != [] {
      var last := args[|args| - 1];
      assert last + Slashes(0) == last;
      assert args == args[..|args| - 1] + [last];
    }
    assert "" + Slashes(0) == "";
  }

  lemma {:induction false} RunOverSafeArgs(args: seq<string>)
    requires forall i | 0 <= i < |args| :: Safe(args[i])
    ensures Run(START, ArgsText(args)) == After(args)
  {
    if args == [] {
    } else {
      var n := |args| - 1;
      RunOverSafeArgs(args[..n]);
      RunConcat(START, ArgsText(args[..n]), ArgText(args[n]));
      RunOverArg(After(args[..n]), args[n]);
      OpenedAfter(args[..n]);
      SafeGoesRight(args[..n], args[n]);
    }
  }

  lemma RunNothing(p: Parse)
    ensures Run(p, ArgsText([])) == p && p.cur + Slashes(0) == p.cur
  {
  }

  lemma OneMoreSpace(s: string)
    ensures Spaces(s + [' ']) == Spaces(s) + 1
  {
    assert (s + [' '])[..|s|] == s;
  }

  /** Whatever follows an argument that is not safe, it is not read back. */
  lemma UnsafeIsNotReadBack(done: seq<string>, a: string, rest: seq<string>)
    requires !Safe(a)
    ensures var q := RunBody(Parse(done, true, "", 0, true), a).Feed('"');
            var result := Run(q, ArgsText(rest)).Close();
            |result| > |done| ==> result[|done|] != a
  {
    hide RunBody, Run, ArgsText, Safe, Spaces, Slashes;
    var q := RunBody(Parse(done, true, "", 0, true), a).Feed('"');
    UnsafeGoesWrong(done, a);
    RunNothing(q);
    RunExtends(q, ArgsText(rest));
    if !CutShort(q, done, a) {
      if rest == [] {
        assert q.cur + Slashes(0) == q.cur;
      } else {
        ArgsTextBegins(rest);
        var more := ArgsText(rest)[1..];
        RunConcat(q, [' '], more);
        RunOne(q, ' ');
        var r := q.Feed(' ');
        RunExtends(r, more);
        assert q.cur + Slashes(0) == q.cur;
        if q.quoted {
          OneMoreSpace(q.cur);
          var result := Run(q, ArgsText(rest)).Close();
          assert r.cur == q.cur + [' '] && r.cur <= result[|done|];
          PrefixHasFewerSpaces(r.cur, result[|done|]);
        }
      }
    }
  }

  lemma {:induction false} ArgsTextBegins(args: seq<string>)
    requires args != []
    ensures ArgsText(args) != "" && ArgsText(args) == [' '] + ArgsText(args)[1..]
  {
    hide ArgText;
    if |args| > 1 {
      ArgsTextBegins(args[..|args| - 1]);
    } else {
      assert args[..0] == [];
      ArgTextBegins(args[0]);
    }
    assert ArgsText(args)[0] == ' ';
  }

  lemma ArgTextBegins(a: string)
    ensures ArgText(a) != "" && ArgText(a)[0] == ' '
  {
  }

  lemma PrefixHasFewerSpaces(s: string, t: string)
    requires s <= t
    ensures Spaces(s) <= Spaces(t)
  {
    SpacesConcat(s, t[|s|..]);
    assert t == s + t[|s|..];
  }

  // ---- The round trip, exactly ----

  /** Quoting is undone exactly for argument vectors in which no argument has a backslash right before a
      double quote or at its end. */
  lemma ArgsRoundTripIff(args: seq<string>)
    ensures ParseArgs(ArgsText(args)) == args <==> forall i | 0 <= i < |args| :: Safe(args[i])
  {
    if forall i | 0 <= i < |args| :: Safe(args[i]) {
      SafeArgsRoundTrip(args);
    } else {
      UnsafeArgsDoNot(args, FirstUnsafe(args));
    }
  }

  lemma SafeArgsRoundTrip(args: seq<string>)
    requires forall i | 0 <= i < |args| :: Safe(args[i])
    ensures ParseArgs(ArgsText(args)) == args
  {
    hide ArgsText, Run, Safe;
    RunOverSafeArgs(args);
    if args != [] {
      var last := args[|args| - 1];
      assert last + Slashes(0) == last;
      assert args == args[..|args| - 1] + [last];
    }
  }

  lemma UnsafeArgsDoNot(args: seq<string>, i: nat)
    requires i < |args| && !Safe(args[i]) && forall k | 0 <= k < i :: Safe(args[k])
    ensures ParseArgs(ArgsText(args)) != args
  {
    hide Run, Safe, ArgText, RunBody, Opened, After;
    var before, a, rest := args[..i], args[i], args[i + 1..];
    RunOverSafeArgs(before);
    assert args == before + [a] + rest;
    ArgsTextConcat(before + [a], rest);
    RunConcat(START, ArgsText(before + [a]), ArgsText(rest));
    assert (before + [a])[..i] == before;
    RunConcat(START, ArgsText(before), ArgText(a));
    RunOverArg(After(before), a);
    OpenedAfter(before);
    UnsafeIsNotReadBack(before, a, rest);
  }

  ghost function FirstUnsafe(args: seq<string>): (i: nat)
    requires exists i | 0 <= i < |args| :: !Safe(args[i])
    ensures i < |args| && !Safe(args[i]) && forall k | 0 <= k < i :: Safe(args[k])
  {
    if !Safe(args[0]) then 0
    else
      assert exists i | 0 <= i < |args[1..]| :: !Safe(args[1..][i]) by {
        var i :| 0 <= i < |args| && !Safe(args[i]);
        assert args[1..][i - 1] == args[i];
      }
      var i := FirstUnsafe(args[1..]);
      assert forall k | 0 < k < i + 1 :: args[k] == args[1..][k - 1];
      i + 1
  }

  /** The same with the program name in front, as the whole command line is built and parsed. */
  lemma CommandLineRoundTripIff(exe: string, args: seq<string>)
    requires forall i | 0 <= i < |exe| :: exe[i] != '"'
    ensures ParseCommandLine(CommandLine(exe, args)) == [exe] + args <==> forall i | 0 <= i < |args| :: Safe(args[i])
  {
    var cmd := CommandLine(exe, args);
    var end := FindQuote(cmd, 1);
    assert end == |exe| + 1 by {
      assert cmd[|exe| + 1] == '"';
      assert forall k | 1 <= k <= |exe| :: cmd[k] == exe[k - 1];
    }
    assert cmd[1..end] == exe && cmd[end + 1..] == ArgsText(args);
    ArgsRoundTripIff(args);
    var parsed := ParseArgs(ArgsText(args));
    assert ([exe] + parsed)[1..] == parsed && ([exe] + args)[1..] == args;
  }

  // ---- The undocumented rule for two quotes in a row ----

  /** Some parsers read a quote right after the one that closed the quoting as a literal quote; the older ones
      then leave the quoting closed, the newer ones `resume` it. */
  datatype Lenient = Lenient(p: Parse, closed: bool) {
    function Feed(c: char, resume: bool): Lenient {
      if closed && c == '"' then Lenient(Parse(p.done, true, p.cur + "\"", 0, resume), false)
      else Lenient(p.Feed(c), c == '"' && p.quoted && p.slashes % 2 == 0)
    }
  }

  function RunLenient(q: Lenient, s: string, resume: bool): Lenient {
    if s == "" then q else RunLenient(q, s[..|s| - 1], resume).Feed(s[|s| - 1], resume)
  }

  function ParseArgsLeniently(s: string, resume: bool): seq<string> {
    RunLenient(Lenient(START, false), s, resume).p.Close()
  }

  lemma {:induction false} LenientConcat(q: Lenient, a: string, b: string, resume: bool)
    ensures RunLenient(q, a + b, resume) == RunLenient(RunLenient(q, a, resume), b, resume)
  {
    if b == "" {
      assert a + b == a;
    } else {
      var n := |b| - 1;
      LenientConcat(q, a, b[..n], resume);
      assert (a + b)[..|a + b| - 1] == a + b[..n];
    }
  }

  lemma LenientOne(q: Lenient, c: char, resume: bool)
    ensures RunLenient(q, [c], resume) == q.Feed(c, resume)
  {
    assert [c][..0] == "";
  }

  lemma LenientTwo(q: Lenient, c: char, d: char, resume: bool)
    ensures RunLenient(q, [c, d], resume) == q.Feed(c, resume).Feed(d, resume)
  {
    assert [c, d] == [c] + [d];
    LenientConcat(q, [c], [d], resume);
    LenientOne(q, c, resume);
    LenientOne(q.Feed(c, resume), d, resume);
  }

  /** The last quote of `a` closes the quoting that `a` was read in. */
  predicate ClosesAtEnd(p: Parse, a: string) {
    a != "" && a[|a| - 1] == '"' && RunBody(p, a[..|a| - 1]).quoted && RunBody(p, a[..|a| - 1]).slashes % 2 == 1
  }

  /** Inside an argument no quote follows another, so the rule never applies there. */
  lemma {:induction false} LenientOverBody(p: Parse, a: string, resume: bool)
    ensures RunLenient(Lenient(p, false), Body(a), resume) == Lenient(RunBody(p, a), ClosesAtEnd(p, a))
  {
    if a == "" {
    } else {
      var n := |a| - 1;
      LenientOverBody(p, a[..n], resume);
      LenientConcat(Lenient(p, false), Body(a[..n]), Escaped(a[n]), resume);
      EscapedLeniently(Lenient(RunBody(p, a[..n]), ClosesAtEnd(p, a[..n])), a[n], resume);
      hide FeedEscaped, Escaped, RunLenient;
    }
  }

  lemma EscapedLeniently(q: Lenient, c: char, resume: bool)
    ensures RunLenient(q, Escaped(c), resume)
         == Lenient(FeedEscaped(q.p, c), c == '"' && q.p.quoted && q.p.slashes % 2 == 1)
  {
    if c == '"' {
      assert Escaped(c) == ['\\', '"'];
      LenientTwo(q, '\\', '"', resume);
    } else {
      LenientOne(q, c, resume);
    }
  }

  /** The state after one more argument, from the inside of its quotes. */
  function LenientAfter(done: seq<string>, a: string, resume: bool): Lenient {
    var p := Parse(done, true, "", 0, true);
    Lenient(RunBody(p, a), ClosesAtEnd(p, a)).Feed('"', resume)
  }

  lemma LenientOverArg(args: seq<string>, closed: bool, a: string, resume: bool)
    ensures RunLenient(Lenient(After(args), closed), ArgText(a), resume) == LenientAfter(args, a, resume)
  {
    hide Run, RunBody, ClosesAtEnd;
    var q := Lenient(After(args), closed);
    LenientConcat(q, " \"" + Body(a), "\"", resume);
    LenientConcat(q, " \"", Body(a), resume);
    LenientTwo(q, ' ', '"', resume);
    OpenedAfter(args);
    var inside := Lenient(Parse(args, true, "", 0, true), false);
    assert q.Feed(' ', resume).Feed('"', resume) == inside;
    LenientOverBody(inside.p, a, resume);
    LenientOne(Lenient(RunBody(inside.p, a), ClosesAtEnd(inside.p, a)), '"', resume);
  }

  /** A safe text and then a backslash and a quote: the closing quote that follows is the second of two in a row. */
  predicate EndsInSlashQuote(a: string) {
    |a| >= 2 && a[|a| - 2] == '\\' && a[|a| - 1] == '"' && Safe(a[..|a| - 2])
  }

  lemma SafeLeniently(done: seq<string>, a: string, resume: bool)
    requires Safe(a)
    ensures LenientAfter(done, a, resume).p == Parse(done, true, a, 0, false)
  {
    hide Reading, FeedEscaped;
    SafeGoesRight(done, a);
    if a != "" && a[|a| - 1] == '"' {
      var b := a[..|a| - 1];
      SafeIsNeverCutShort(done, b);
      SlashesAtEnd(RunBody(Parse(done, true, "", 0, true), b), done, b);
    }
  }

  lemma SlashesAtEnd(p: Parse, done: seq<string>, a: string)
    requires Reading(p, done, a)
    ensures p.slashes > 0 <==> EndsInSlash(a)
  {
  }

  lemma SlashQuoteLeniently(done: seq<string>, a: string, resume: bool)
    requires EndsInSlashQuote(a)
    ensures LenientAfter(done, a, resume).p == Parse(done, true, a, 0, resume)
  {
    var c := a[..|a| - 2];
    assert a == c + "\\" + "\"" && a[..|a| - 1] == c + "\\";
    var p := Parse(done, true, "", 0, true);
    SafeBody(done, c);
    RunBodyOneMore(p, c, '\\');
    RunBodyOneMore(p, c + "\\", '"');
    hide RunBody, Safe;
    assert RunBody(p, c + "\\") == Parse(done, true, c, 1, true);
    SlashThenQuote(done, c);
    assert RunBody(p, a) == Parse(done, true, c + "\\", 0, false) && ClosesAtEnd(p, a);
  }

  lemma SlashThenQuote(done: seq<string>, c: string)
    ensures FeedEscaped(Parse(done, true, c, 1, true), '"') == Parse(done, true, c + "\\", 0, false)
  {
    assert Slashes(1) == "\\";
  }

  lemma RunBodyOneMore(p: Parse, a: string, c: char)
    ensures RunBody(p, a + [c]) == FeedEscaped(RunBody(p, a), c)
  {
    assert (a + [c])[..|a|] == a;
  }

  lemma SafeBody(done: seq<string>, a: string)
    requires Safe(a)
    ensures RunBody(Parse(done, true, "", 0, true), a) == Parse(done, true, a, 0, true)
  {
    SafeIsNeverCutShort(done, a);
    var p := RunBody(Parse(done, true, "", 0, true), a);
    assert p.cur + Slashes(0) == p.cur;
  }

  // ---- What goes wrong for these parsers ----

  lemma {:induction false} LenientExtends(q: Lenient, s: string, resume: bool)
    ensures var r := RunLenient(q, s, resume).p;
            && Extends(q.p, r.Close())
            && q.p.done <= r.done
            && (|r.done| == |q.p.done| && q.p.reading ==> r.reading && q.p.cur <= r.cur)
            && (|r.done| > |q.p.done| && q.p.reading ==> q.p.cur <= r.done[|q.p.done|])
  {
    hide Slashes;
    if s == "" {
    } else {
      LenientExtends(q, s[..|s| - 1], resume);
    }
  }

  /** The argument is already wrong, or will be when `more` arguments follow. */
  ghost predicate Wrong(p: Parse, done: seq<string>, a: string, more: bool) {
    || CutShort(p, done, a)
    || (&& p.done == done && p.reading && p.slashes == 0
        && (p.quoted ==> Spaces(p.cur) == Spaces(a))
        && (p.cur != a || (more && p.quoted)))
  }

  /** While backslashes are pending none has been taken into the text. */
  lemma {:induction false} NoSlashTaken(done: seq<string>, a: string)
    requires !SlashBeforeQuote(a)
    ensures !EndsInSlash(RunBody(Parse(done, true, "", 0, true), a).cur)
  {
    hide Reading;
    if a == "" {
    } else {
      var n := |a| - 1;
      NoSlashTaken(done, a[..n]);
      SafeIsNeverCutShort(done, a[..n]);
      StaysQuoted(RunBody(Parse(done, true, "", 0, true), a[..n]), done, a[..n]);
    }
  }

  lemma UnsafeGoesWrongLeniently(done: seq<string>, a: string, resume: bool, more: bool)
    requires !Safe(a) && !(EndsInSlashQuote(a) && (!resume || !more))
    ensures Wrong(LenientAfter(done, a, resume).p, done, a, more)
  {
    var p := Parse(done, true, "", 0, true);
    if ClosesAtEnd(p, a) {
      var b := a[..|a| - 1];
      ReadBody(done, b);
      var q := RunBody(p, b);
      if CutShort(q, done, b) {
        assert q.done <= RunBody(p, a).done;
      } else {
        assert a == b + "\"";
        DoubledQuoteGoesWrong(q, done, b, resume, more);
      }
    } else {
      UnsafeGoesWrong(done, a);
    }
  }

  lemma DoubledQuoteGoesWrong(q: Parse, done: seq<string>, b: string, resume: bool, more: bool)
    requires Reading(q, done, b) && q.quoted && q.slashes % 2 == 1
    requires q == RunBody(Parse(done, true, "", 0, true), b)
    requires !(EndsInSlashQuote(b + "\"") && (!resume || !more))
    ensures var p := FeedEscaped(q, '"');
            Wrong(Parse(p.done, true, p.cur + "\"", 0, resume), done, b + "\"", more)
  {
    hide Spaces, RunBody, SlashBeforeQuote, EndsInSlashQuote;
    QuoteSpaces(q.cur, b, (q.slashes + 1) / 2);
    if !SlashBeforeQuote(b) && q.slashes == 1 {
      OneSlashEndsInSlashQuote(q, done, b);
    }
    hide Slashes;
  }

  lemma OneSlashEndsInSlashQuote(q: Parse, done: seq<string>, b: string)
    requires Reading(q, done, b) && !SlashBeforeQuote(b) && q.slashes == 1
    requires q == RunBody(Parse(done, true, "", 0, true), b)
    ensures EndsInSlashQuote(b + "\"")
  {
    hide Spaces, RunBody;
    NoSlashTaken(done, b);
    assert Slashes(1) == "\\" && b == q.cur + "\\";
    PrefixHasNoSlashQuote(q.cur);
    assert (b + "\"")[..|b| - 1] == q.cur;
  }

  lemma PrefixHasNoSlashQuote(c: string)
    requires !SlashBeforeQuote(c + "\\")
    ensures !SlashBeforeQuote(c)
  {
    assert (c + "\\")[..|c|] == c;
  }

  /** Whatever follows, an argument that has gone wrong is not read back. */
  lemma WrongIsNotReadBack(q: Lenient, done: seq<string>, a: string, rest: seq<string>, resume: bool)
    requires Wrong(q.p, done, a, rest != [])
    ensures var result := RunLenient(q, ArgsText(rest), resume).p.Close();
            |result| > |done| ==> result[|done|] != a
  {
    hide RunLenient, ArgsText, Spaces, Slashes;
    LenientExtends(q, ArgsText(rest), resume);
    if !CutShort(q.p, done, a) {
      assert q.p.cur + Slashes(0) == q.p.cur by {
        assert Slashes(0) == "";
      }
      if rest == [] {
        LenientNothing(q, resume);
      } else {
        ArgsTextBegins(rest);
        var more := ArgsText(rest)[1..];
        LenientConcat(q, [' '], more, resume);
        LenientOne(q, ' ', resume);
        var r := q.Feed(' ', resume);
        LenientExtends(r, more, resume);
        if q.p.quoted {
          OneMoreSpace(q.p.cur);
          var result := RunLenient(q, ArgsText(rest), resume).p.Close();
          assert r.p.cur == q.p.cur + [' '] && r.p.cur <= result[|done|];
          PrefixHasFewerSpaces(r.p.cur, result[|done|]);
        }
      }
    }
  }

  lemma LenientNothing(q: Lenient, resume: bool)
    ensures RunLenient(q, ArgsText([]), resume) == q
  {
  }

  // ---- The round trip for these parsers, exactly ----

  /** What they read back as the argument it is: a safe one, or one that ends in a safe text's backslash and quote,
      unless quoting is then resumed and another argument follows. */
  predicate LenientlySafe(a: string, more: bool, resume: bool) {
    Safe(a) || (EndsInSlashQuote(a) && (!resume || !more))
  }

  lemma {:induction false} LenientOverArgs(args: seq<string>, resume: bool)
    requires forall i | 0 <= i < |args| :: LenientlySafe(args[i], true, resume)
    ensures RunLenient(Lenient(START, false), ArgsText(args), resume).p == After(args)
  {
    hide Safe, EndsInSlashQuote, LenientAfter, ArgText;
    if args == [] {
    } else {
      var n := |args| - 1;
      LenientOverArgs(args[..n], resume);
      LenientConcat(Lenient(START, false), ArgsText(args[..n]), ArgText(args[n]), resume);
      var q := RunLenient(Lenient(START, false), ArgsText(args[..n]), resume);
      LenientOverArg(args[..n], q.closed, args[n], resume);
      if Safe(args[n]) {
        SafeLeniently(args[..n], args[n], resume);
      } else {
        SlashQuoteLeniently(args[..n], args[n], resume);
      }
    }
  }

  /** For the parsers that close the quoting, and for those that resume it. */
  lemma LenientRoundTripIff(args: seq<string>, resume: bool)
    ensures ParseArgsLeniently(ArgsText(args), resume) == args <==>
            forall i | 0 <= i < |args| :: LenientlySafe(args[i], i < |args| - 1, resume)
  {
    hide LenientlySafe;
    if forall i | 0 <= i < |args| :: LenientlySafe(args[i], i < |args| - 1, resume) {
      LenientlySafeRoundTrip(args, resume);
    } else {
      LenientlyUnsafeDoNot(args, resume);
    }
  }

  /** All but the last argument, and the last. */
  lemma LenientSplit(args: seq<string>, i: nat, resume: bool)
    requires i < |args| && forall k | 0 <= k < i :: LenientlySafe(args[k], true, resume)
    ensures RunLenient(Lenient(START, false), ArgsText(args), resume)
         == RunLenient(LenientAfter(args[..i], args[i], resume), ArgsText(args[i + 1..]), resume)
  {
    hide LenientlySafe, RunLenient, LenientAfter, ArgText;
    var start, before, a, rest := Lenient(START, false), args[..i], args[i], args[i + 1..];
    LenientOverArgs(before, resume);
    assert args == before + [a] + rest;
    ArgsTextConcat(before + [a], rest);
    LenientConcat(start, ArgsText(before + [a]), ArgsText(rest), resume);
    assert (before + [a])[..i] == before;
    assert ArgsText(before + [a]) == ArgsText(before) + ArgText(a);
    LenientConcat(start, ArgsText(before), ArgText(a), resume);
    LenientOverArg(before, RunLenient(start, ArgsText(before), resume).closed, a, resume);
  }

  lemma LenientlySafeRoundTrip(args: seq<string>, resume: bool)
    requires forall i | 0 <= i < |args| :: LenientlySafe(args[i], i < |args| - 1, resume)
    ensures ParseArgsLeniently(ArgsText(args), resume) == args
  {
    hide ArgsText, RunLenient, Safe, EndsInSlashQuote, LenientAfter;
    var start := Lenient(START, false);
    if args == [] {
      LenientNothing(start, resume);
    } else {
      var n := |args| - 1;
      LenientSplit(args, n, resume);
      assert args[n + 1..] == [];
      LenientNothing(LenientAfter(args[..n], args[n], resume), resume);
      if Safe(args[n]) {
        SafeLeniently(args[..n], args[n], resume);
      } else {
        SlashQuoteLeniently(args[..n], args[n], resume);
      }
      assert args[n] + Slashes(0) == args[n];
      assert args == args[..n] + [args[n]];
    }
  }

  lemma LenientlyUnsafeDoNot(args: seq<string>, resume: bool)
    requires exists i | 0 <= i < |args| :: !LenientlySafe(args[i], i < |args| - 1, resume)
    ensures ParseArgsLeniently(ArgsText(args), resume) != args
  {
    hide ArgsText, RunLenient, Safe, EndsInSlashQuote, LenientAfter, Wrong;
    var i := FirstLenientlyUnsafe(args, resume, 0);
    var a, rest := args[i], args[i + 1..];
    LenientSplit(args, i, resume);
    UnsafeGoesWrongLeniently(args[..i], a, resume, rest != []);
    WrongIsNotReadBack(LenientAfter(args[..i], a, resume), args[..i], a, rest, resume);
  }

  lemma FirstLenientlyUnsafe(args: seq<string>, resume: bool, from: nat) returns (i: nat)
    requires exists k | from <= k < |args| :: !LenientlySafe(args[k], k < |args| - 1, resume)
    ensures from <= i < |args| && !LenientlySafe(args[i], i < |args| - 1, resume)
    ensures forall k | from <= k < i :: LenientlySafe(args[k], true, resume)
    decreases |args| - from
  {
    hide LenientlySafe;
    i := from;
    if LenientlySafe(args[from], from < |args| - 1, resume) {
      i := FirstLenientlyUnsafe(args, resume, from + 1);
    }
  }

  /** What the documented rules read back, these parsers do. */
  lemma SafeArgsRoundTripLeniently(args: seq<string>, resume: bool)
    requires ParseArgs(ArgsText(args)) == args
    ensures ParseArgsLeniently(ArgsText(args), resume) == args
  {
    hide Safe, EndsInSlashQuote, ArgsText, ParseArgs, ParseArgsLeniently;
    ArgsRoundTripIff(args);
    LenientRoundTripIff(args, resume);
  }

  /** They read back more than that: a backslash and a quote on their own, which the documented rules lose. */
  lemma LenientReadsMore(resume: bool)
    ensures ParseArgs(ArgsText(["\\\""])) != ["\\\""]
    ensures ParseArgsLeniently(ArgsText(["\\\""]), resume) == ["\\\""]
  {
    hide ArgsText, ParseArgs, ParseArgsLeniently;
    var args := ["\\\""];
    assert args[0][..1] == "\\" && args[0][..0] == "";
    assert !Safe(args[0]) && EndsInSlashQuote(args[0]);
    ArgsRoundTripIff(args);
    LenientRoundTripIff(args, resume);
  }

  /** For instance a directory name with its trailing backslash does not survive. */
  lemma TrailingBackslashIsLost(exe: string)
    requires forall i | 0 <= i < |exe| :: exe[i] != '"'
    ensures ParseCommandLine(CommandLine(exe, ["dir\\"])) != [exe] + ["dir\\"]
  {
    assert EndsInSlash("dir\\");
    CommandLineRoundTripIff(exe, ["dir\\"]);
  }
}
