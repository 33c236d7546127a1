/**
  The three hand-written scanners that split a schedule into blank-separated fields:
  the store's validator, the schtasks translator's splitter and the Linux backend's counter.
  All three are proved against one recursive definition, `Fields`.
 */
module FieldScanner {
  import opened Wrappers
  import opened Text

  predicate ScheduleChar(c: char) {
    '0' <= c <= '9' || c == '*' || c == '/' || c == ',' || c == '-'
  }

  /** A scanner part-way through a text: the finished fields and the one being read. */
  datatype Scan = Scan(done: seq<string>, cur: string) {
    function Feed(c: char): Scan {
      if !Blank(c) then Scan(done, cur + [c])
      else if cur == "" then this
      else Scan(done + [cur], "")
    }

    function Close(): seq<string> {
      if cur == "" then done else done + [cur]
    }
  }

  function ScanAll(s: string): Scan {
    if s == "" then Scan([], "") else ScanAll(s[..|s| - 1]).Feed(s[|s| - 1])
  }

  function Fields(s: string): seq<string> {
    ScanAll(s).Close()
  }

  // ---- What `Fields` means ----

  predicate IsField(f: string) {
    f != "" && forall c | c in f :: c != ' ' && c != '\t'
  }

  function NonBlanks(s: string): string {
    if s == "" then "" else NonBlanks(s[..|s| - 1]) + if s[|s| - 1] in " \t" then "" else [s[|s| - 1]]
  }

  function Flatten(fs: seq<string>): string {
    if fs == [] then "" else Flatten(fs[..|fs| - 1]) + fs[|fs| - 1]
  }

  /** Number of positions at which a maximal run of non-blank characters begins. */
  function Starts(s: string): nat {
    if s == "" then 0
    else
      var n := |s| - 1;
      Starts(s[..n]) + if s[n] !in " \t" && (n == 0 || s[n - 1] in " \t") then 1 else 0
  }

  lemma {:induction false} FlattenSnoc(fs: seq<string>, f: string)
    ensures Flatten(fs + [f]) == Flatten(fs) + f
  {
    assert (fs + [f])[..|fs|] == fs;
  }

  /** Every field is a non-empty blank-free run, nothing but blanks is lost, and there are as many fields as runs. */
  lemma FieldsMeaning(s: string)
    ensures forall f | f in Fields(s) :: IsField(f)
    ensures Flatten(Fields(s)) == NonBlanks(s)
    ensures |Fields(s)| == Starts(s)
  {
    hide NonBlanks, Starts, IsField;
    ScanIsBlankFree(s);
    ScanLosesOnlyBlanks(s);
    ScanCountsStarts(s);
    var p := ScanAll(s);
    if p.cur != "" {
      CurIsField(p.cur);
      FlattenSnoc(p.done, p.cur);
    }
  }

  lemma CurIsField(cur: string)
    requires cur != "" && forall c | c in cur :: !Blank(c)
    ensures IsField(cur)
  {
  }

  lemma {:induction false} ScanIsBlankFree(s: string)
    ensures forall f | f in ScanAll(s).done :: IsField(f)
    ensures forall c | c in ScanAll(s).cur :: !Blank(c)
  {
    if s == "" {
    } else {
      ScanIsBlankFree(s[..|s| - 1]);
    }
  }

  lemma {:induction false} ScanLosesOnlyBlanks(s: string)
    ensures Flatten(ScanAll(s).done) + ScanAll(s).cur == NonBlanks(s)
  {
    if s == "" {
    } else {
      var n := |s| - 1;
      var p := ScanAll(s[..n]);
      ScanLosesOnlyBlanks(s[..n]);
      if Blank(s[n]) && p.cur != "" {
        FlattenSnoc(p.done, p.cur);
      }
    }
  }

  lemma {:induction false} ScanCountsStarts(s: string)
    ensures |ScanAll(s).Close()| == Starts(s)
    ensures ScanAll(s).cur == "" <==> s == "" || Blank(s[|s| - 1])
  {
    if s == "" {
    } else {
      ScanCountsStarts(s[..|s| - 1]);
    }
  }

  function Join(fs: seq<string>): string {
    if fs == [] then "" else Join(fs[..|fs| - 1]) + " " + fs[|fs| - 1]
  }

  lemma ScanOneMore(s: string, c: char)
    ensures ScanAll(s + [c]) == ScanAll(s).Feed(c)
  {
    assert (s + [c])[..|s|] == s;
  }

  lemma {:induction false} ScanAppendField(s: string, f: string)
    requires forall c | c in f :: !Blank(c)
    ensures ScanAll(s + f) == ScanAll(s).(cur := ScanAll(s).cur + f)
  {
    hide ScanAll, Blank;
    if f == "" {
      assert s + f == s;
    } else {
      var m := |f| - 1;
      ScanAppendField(s, f[..m]);
      ScanOneMore(s + f[..m], f[m]);
      assert f == f[..m] + [f[m]];
      assert s + f == s + f[..m] + [f[m]];
      assert ScanAll(s).cur + f == ScanAll(s).cur + f[..m] + [f[m]];
    }
  }

  /** Fields each preceded by one space are read back exactly. */
  lemma {:induction false} JoinRoundTrip(fs: seq<string>)
    requires forall i | 0 <= i < |fs| :: IsField(fs[i])
    ensures Fields(Join(fs)) == fs
    ensures ScanAll(Join(fs)) == if fs == [] then Scan([], "") else Scan(fs[..|fs| - 1], fs[|fs| - 1])
  {
    if fs == [] {
    } else {
      var n := |fs| - 1;
      var before, f := fs[..n], fs[n];
      JoinRoundTrip(before);
      assert fs == before + [f] && IsField(f);
      ScanJoined(before, f);
    }
  }

  lemma ScanJoined(before: seq<string>, f: string)
    requires IsField(f) && Fields(Join(before)) == before
    ensures ScanAll(Join(before) + " " + f) == Scan(before, f)
  {
    var spaced := Join(before) + " ";
    assert spaced[..|spaced| - 1] == Join(before);
    assert ScanAll(spaced) == Scan(before, "");
    ScanAppendField(spaced, f);
    assert "" + f == f;
  }

  // ---- The three scanners ----

  /** `split_fields` of the schtasks translator. */
  method SplitFields(s: string) returns (out: seq<string>)
    ensures out == Fields(s)
  {
    out := [];
    var cur := "";
    for i := 0 to |s|
      invariant Scan(out, cur) == ScanAll(s[..i])
    {
      assert s[..i + 1][..i] == s[..i];
      if Blank(s[i]) {
        if cur != "" {
          out := out + [cur];
          cur := "";
        }
      } else {
        cur := cur + [s[i]];
      }
    }
    assert s[..|s|] == s;
    if cur != "" {
      out := out + [cur];
    }
  }

  /** Up to 200 digits, stars, slashes, commas, hyphens and blanks, making five fields, with no blank at the end. */
  ghost predicate IsSchedule(s: string) {
    && 1 <= |s| <= 200
    && (forall i | 0 <= i < |s| :: s[i] in "0123456789*/,- \t")
    && s[|s| - 1] !in " \t"
    && |Fields(s)| == 5
  }

  lemma ScheduleCharsAre(c: char)
    ensures c in "0123456789*/,- \t" <==> Blank(c) || ScheduleChar(c)
    ensures c in " \t" <==> Blank(c)
  {
  }

  lemma ScheduleInClasses(s: string)
    ensures IsSchedule(s) <==>
              && 1 <= |s| <= 200 && (forall i | 0 <= i < |s| :: Blank(s[i]) || ScheduleChar(s[i]))
              && !Blank(s[|s| - 1]) && |Fields(s)| == 5
  {
    forall c
      ensures c in "0123456789*/,- \t" <==> Blank(c) || ScheduleChar(c)
      ensures c in " \t" <==> Blank(c)
    {
      ScheduleCharsAre(c);
    }
    hide Blank, ScheduleChar, Fields;
  }

  lemma FieldsOfScan(s: string)
    ensures |Fields(s)| == |ScanAll(s).done| + if ScanAll(s).cur != "" then 1 else 0
  {
  }

  /** `CronStore::valid_schedule`: it counts a field when the blank after it is met, starting at one. */
  method ValidSchedule(s: string) returns (ok: bool)
    ensures ok <==> IsSchedule(s)
  {
    hide Blank, ScheduleChar, Fields, IsSchedule;
    ScheduleInClasses(s);
    if s == "" || |s| > 200 {
      return false;
    }
    var fieldCount, inField := 1, false;
    for i := 0 to |s|
      invariant forall k | 0 <= k < i :: Blank(s[k]) || ScheduleChar(s[k])
      invariant fieldCount == |ScanAll(s[..i]).done| + 1
      invariant inField <==> ScanAll(s[..i]).cur != ""
      invariant inField <==> 0 < i && !Blank(s[i - 1])
    {
      assert s[..i + 1][..i] == s[..i];
      if Blank(s[i]) {
        if inField {
          fieldCount, inField := fieldCount + 1, false;
        }
      } else {
        inField := true;
        if !ScheduleChar(s[i]) {
          return false;
        }
      }
    }
    assert s[..|s|] == s;
    FieldsOfScan(s);
    return fieldCount == 5 && inField;
  }

  datatype ScheduleError = Empty | HasNewline | TooFewFields

  ghost predicate LinuxAccepts(s: string) {
    s != "" && '\n' !in s && |Fields(s)| >= 5
  }

  /** The Linux `validate_schedule`: it counts a field when its first character is met, starting at zero. */
  method ValidateScheduleLinux(s: string) returns (fields: nat, error: Option<ScheduleError>)
    ensures error == None <==> LinuxAccepts(s)
    ensures error == Some(TooFewFields) ==> |Fields(s)| < 5
    ensures s != "" && '\n' !in s ==> fields == |Fields(s)|
  {
    fields := 0;
    if s == "" {
      return 0, Some(Empty);
    }
    if '\n' in s {
      return 0, Some(HasNewline);
    }
    var inField := false;
    for i := 0 to |s|
      invariant inField <==> ScanAll(s[..i]).cur != ""
      invariant fields == |ScanAll(s[..i]).Close()|
    {
      assert s[..i + 1][..i] == s[..i];
      var space := Blank(s[i]);
      if !space && !inField {
        fields, inField := fields + 1, true;
      }
      if space {
        inField := false;
      }
    }
    assert s[..|s|] == s;
    error := if fields < 5 then Some(TooFewFields) else None;
  }

  /** Whatever the store accepts, the Linux backend accepts too. */
  lemma LinuxAcceptsWhatStoreAccepts(s: string)
    requires IsSchedule(s)
    ensures LinuxAccepts(s)
  {
    assert !Blank('\n') && !ScheduleChar('\n');
    assert forall i | 0 <= i < |s| :: s[i] != '\n';
  }

  /** Not the other way: of six stars Linux accepts what the store refuses. */
  lemma SixFieldsDiffer()
    ensures LinuxAccepts(" * * * * * *") && !IsSchedule(" * * * * * *")
  {
    hide Fields;
    SixStars();
    var s := " * * * * * *";
    assert '\n' !in s;
  }

  lemma SixStars()
    ensures Fields(" * * * * * *") == ["*", "*", "*", "*", "*", "*"]
  {
    hide Fields, Join, Spaced;
    var stars := seq(6, _ => "*");
    JoinRoundTrip(stars);
    JoinOfStars(6);
    SixSpaced();
    assert stars == ["*", "*", "*", "*", "*", "*"];
  }

  lemma SixSpaced()
    ensures Spaced(6) == " * * * * * *"
  {
    assert Spaced(2) == " * *";
    assert Spaced(4) == " * * * *";
  }

  function Spaced(n: nat): string {
    if n == 0 then "" else Spaced(n - 1) + " *"
  }

  lemma {:induction false} JoinOfStars(n: nat)
    ensures Join(seq(n, _ => "*")) == Spaced(n)
  {
    if n == 0 {
    } else {
      JoinOfStars(n - 1);
      var stars := seq(n, _ => "*");
      assert stars[..n - 1] == seq(n - 1, _ => "*");
      assert Spaced(n - 1) + " *" == Spaced(n - 1) + " " + "*";
    }
  }
}
