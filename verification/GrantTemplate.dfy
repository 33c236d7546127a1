/**
  Rendering a sudo grant into a sudoers line, and the two independently written checks of that
  line: the daemon's before it hands the line over and the helper's before it installs it.
 */
module GrantTemplate {
  import opened Wrappers
  import opened FieldScanner

  // ---- Captured arguments and templates ----

  datatype Json = JString(s: string) | JOther

  datatype Captured = Object(fields: map<string, Json>) | NotObject

  datatype Template = Template(name: string, binary: string, argv: seq<string>, params: map<string, string>)

  /** `std::regex_match`: `None` is a malformed pattern. */
  type RegexMatch = (string, string) -> Option<bool>

  datatype ArgError =
    | NotAnObject
    | MissingRegex(name: string)
    | MissingArg(name: string)
    | NotAString(name: string)
    | DisallowedChars(name: string)
    | NoMatch(name: string)
    | MalformedRegex(name: string)

  datatype RenderError = BadArgs(error: ArgError) | BadLiteral(piece: string) | BadShortid

  /** The name in a piece that is exactly `{name}`, else the empty string. */
  function PlaceholderOf(piece: string): string {
    if |piece| < 3 || piece[0] != '{' || piece[|piece| - 1] != '}' then "" else piece[1..|piece| - 1]
  }

  /** `piece` is exactly `{name}`. */
  predicate IsPlaceholder(piece: string, name: string) {
    name != "" && piece == "{" + name + "}"
  }

  lemma PlaceholderMeaning(piece: string)
    ensures forall name | name != "" :: PlaceholderOf(piece) == name <==> IsPlaceholder(piece, name)
    ensures PlaceholderOf(piece) == "" <==> forall name :: !IsPlaceholder(piece, name)
  {
    forall name | name != ""
      ensures PlaceholderOf(piece) == name <==> IsPlaceholder(piece, name)
    {
      if IsPlaceholder(piece, name) {
        assert piece[1..|piece| - 1] == name;
      }
      if PlaceholderOf(piece) == name {
        assert piece == [piece[0]] + piece[1..|piece| - 1] + [piece[|piece| - 1]];
      }
    }
    if PlaceholderOf(piece) != "" {
      assert IsPlaceholder(piece, PlaceholderOf(piece));
    }
  }

  predicate ArgChar(c: char) {
    || '0' <= c <= '9' || 'A' <= c <= 'Z' || 'a' <= c <= 'z'
    || c in "_.+/=:@,-"
  }

  ghost predicate ArgValue(v: string) {
    v != "" && forall i | 0 <= i < |v| :: ArgChar(v[i])
  }

  /** The characters an argument may have, one by one. */
  predicate Whitelisted(c: char) {
    || c in "0123456789" || c in "ABCDEFGHIJKLM" || c in "NOPQRSTUVWXYZ" || c in "abcdefghijklm" || c in "nopqrstuvwxyz"
    || c in "_.+/=:@,-"
  }

  lemma ArgCharsAreWhitelisted(c: char)
    ensures ArgChar(c) <==> Whitelisted(c)
  {
  }

  /** No accepted value has a wildcard or an escape of sudoers, or anything else that could end its word. */
  lemma ArgValuesAreInert(v: string, c: char)
    requires ArgValue(v) && c in v
    ensures c != '*' && c != '?' && c != '[' && c != ']' && c != '!' && c != '\\'
    ensures c != ' ' && c != '\t' && c != '\n' && c != '#' && c != '\"' && c != '('
  {
    var i :| 0 <= i < |v| && v[i] == c;
    assert ArgChar(v[i]);
  }

  method ArgValueCharsetOk(v: string) returns (ok: bool)
    ensures ok <==> ArgValue(v)
  {
    if v == "" {
      return false;
    }
    for i := 0 to |v|
      invariant forall k | 0 <= k < i :: ArgChar(v[k])
    {
      if !ArgChar(v[i]) {
        return false;
      }
    }
    return true;
  }

  /** A placeholder piece is good when its captured value is a string in the charset that its own regex matches. */
  ghost predicate PieceGood(t: Template, args: map<string, Json>, matches: RegexMatch, piece: string) {
    var ph := PlaceholderOf(piece);
    ph == "" || (
      && ph in t.params && ph in args && args[ph].JString?
      && ArgValue(args[ph].s)
      && matches(args[ph].s, t.params[ph]) == Some(true))
  }

  ghost predicate FirstBadPiece(t: Template, args: map<string, Json>, matches: RegexMatch, i: int) {
    && 0 <= i < |t.argv|
    && !PieceGood(t, args, matches, t.argv[i])
    && forall k | 0 <= k < i :: PieceGood(t, args, matches, t.argv[k])
  }

  method ValidateCapturedArgs(t: Template, captured: Captured, matches: RegexMatch)
    returns (error: Option<ArgError>)
    ensures captured.NotObject? <==> error == Some(NotAnObject)
    ensures captured.Object? ==>
              (error == None <==> forall i | 0 <= i < |t.argv| :: PieceGood(t, captured.fields, matches, t.argv[i]))
    ensures captured.Object? && error.Some? ==>
              exists i :: FirstBadPiece(t, captured.fields, matches, i) && IsPlaceholder(t.argv[i], error.value.name)
  {
    if captured.NotObject? {
      return Some(NotAnObject);
    }
    var args := captured.fields;
    for i := 0 to |t.argv|
      invariant forall k | 0 <= k < i :: PieceGood(t, args, matches, t.argv[k])
    {
      var ph := PlaceholderOf(t.argv[i]);
      PlaceholderMeaning(t.argv[i]);
      assert !PieceGood(t, args, matches, t.argv[i]) ==> FirstBadPiece(t, args, matches, i);
      if ph != "" {
        if ph !in t.params {
          return Some(MissingRegex(ph));
        }
        if ph !in args {
          return Some(MissingArg(ph));
        }
        if !args[ph].JString? {
          return Some(NotAString(ph));
        }
        var charsetOk := ArgValueCharsetOk(args[ph].s);
        if !charsetOk {
          return Some(DisallowedChars(ph));
        }
        match matches(args[ph].s, t.params[ph])
        case None => return Some(MalformedRegex(ph));
        case Some(false) => return Some(NoMatch(ph));
        case Some(true) =>
      }
    }
    return None;
  }

  // ---- Rendering ----

  /** The text one argv piece contributes: the captured value of a placeholder, or the literal itself. */
  function PieceText(args: map<string, Json>, piece: string): string {
    var ph := PlaceholderOf(piece);
    if ph == "" then piece
    else if ph in args && args[ph].JString? then args[ph].s
    else ""
  }

  function PieceTexts(args: map<string, Json>, argv: seq<string>): (texts: seq<string>)
    ensures |texts| == |argv|
    ensures forall i | 0 <= i < |argv| :: texts[i] == PieceText(args, argv[i])
  {
    seq(|argv|, i requires 0 <= i < |argv| => PieceText(args, argv[i]))
  }

  ghost predicate LiteralGood(piece: string) {
    PlaceholderOf(piece) == "" ==> ArgValue(piece)
  }

  ghost predicate Renders(t: Template, captured: Captured, matches: RegexMatch) {
    && captured.Object?
    && forall i | 0 <= i < |t.argv| ::
         && PieceGood(t, captured.fields, matches, t.argv[i])
         && LiteralGood(t.argv[i])
  }

  lemma RenderedPiecesAreFields(t: Template, captured: Captured, matches: RegexMatch)
    requires Renders(t, captured, matches)
    ensures forall i | 0 <= i < |t.argv| :: IsField(PieceTexts(captured.fields, t.argv)[i])
  {
    forall i | 0 <= i < |t.argv|
      ensures IsField(PieceTexts(captured.fields, t.argv)[i])
    {
      var text := PieceText(captured.fields, t.argv[i]);
      assert PieceGood(t, captured.fields, matches, t.argv[i]);
      assert ArgValue(text);
      assert !ArgChar(' ') && !ArgChar('\t');
    }
  }

  /** The binary followed by the first `n` pieces, each preceded by one space. */
  function CommandUpTo(t: Template, args: map<string, Json>, n: nat): (cmd: string)
    requires n <= |t.argv|
    ensures t.binary <= cmd
  {
    if n == 0 then t.binary else CommandUpTo(t, args, n - 1) + " " + PieceText(args, t.argv[n - 1])
  }

  function CommandText(t: Template, args: map<string, Json>): (cmd: string)
    ensures t.binary <= cmd
  {
    CommandUpTo(t, args, |t.argv|)
  }

  /** What follows the binary, word by word. */
  function Words(t: Template, args: map<string, Json>): seq<string> {
    Fields(CommandText(t, args)[|t.binary|..])
  }

  lemma {:induction false} CommandIsJoin(t: Template, args: map<string, Json>, n: nat)
    requires n <= |t.argv|
    ensures CommandUpTo(t, args, n) == t.binary + Join(PieceTexts(args, t.argv)[..n])
  {
    hide PieceText, PieceTexts;
    var texts := PieceTexts(args, t.argv);
    if n == 0 {
      assert texts[..0] == [];
    } else {
      CommandIsJoin(t, args, n - 1);
      var before, last := texts[..n - 1], texts[n - 1];
      assert texts[..n] == before + [last];
      JoinSnoc(before, last);
      ConcatAssociates(t.binary, Join(before), last);
    }
  }

  lemma JoinSnoc(fs: seq<string>, f: string)
    ensures Join(fs + [f]) == Join(fs) + " " + f
  {
    assert (fs + [f])[..|fs|] == fs;
  }

  lemma ConcatAssociates(a: string, b: string, c: string)
    ensures a + b + " " + c == a + (b + " " + c)
  {
  }

  /** The text after the binary splits into exactly one non-empty field per argv piece. */
  lemma CommandParsesBack(t: Template, captured: Captured, matches: RegexMatch)
    requires Renders(t, captured, matches)
    ensures var cmd := CommandText(t, captured.fields);
            && t.binary <= cmd
            && Words(t, captured.fields) == Fields(cmd[|t.binary|..]) == PieceTexts(captured.fields, t.argv)
  {
    var texts := PieceTexts(captured.fields, t.argv);
    RenderedPiecesAreFields(t, captured, matches);
    JoinRoundTrip(texts);
    CommandIsJoin(t, captured.fields, |t.argv|);
    assert texts[..|t.argv|] == texts;
    assert CommandText(t, captured.fields)[|t.binary|..] == Join(texts);
  }

  /** Written out: each placeholder has a pattern and a string value of whitelisted characters that matches it,
      and every other piece consists of whitelisted characters. */
  ghost predicate PieceRenders(t: Template, args: map<string, Json>, matches: RegexMatch, piece: string) {
    && (forall name | IsPlaceholder(piece, name) ::
          && name in t.params && name in args && args[name].JString? && AllWhitelisted(args[name].s)
          && matches(args[name].s, t.params[name]) == Some(true))
    && ((forall name :: !IsPlaceholder(piece, name)) ==> AllWhitelisted(piece))
  }

  ghost predicate AllWhitelisted(v: string) {
    v != "" && forall i | 0 <= i < |v| :: Whitelisted(v[i])
  }

  lemma ArgValueIsAllWhitelisted(v: string)
    ensures ArgValue(v) <==> AllWhitelisted(v)
  {
    forall i | 0 <= i < |v|
      ensures ArgChar(v[i]) <==> Whitelisted(v[i])
    {
      ArgCharsAreWhitelisted(v[i]);
    }
    hide ArgChar, Whitelisted;
  }

  lemma PieceRendersMeaning(t: Template, args: map<string, Json>, matches: RegexMatch, piece: string)
    ensures PieceGood(t, args, matches, piece) && LiteralGood(piece) <==> PieceRenders(t, args, matches, piece)
  {
    var ph := PlaceholderOf(piece);
    PlaceholderMeaning(piece);
    hide PlaceholderOf, ArgValue, AllWhitelisted;
    ArgValueIsAllWhitelisted(piece);
    if ph != "" && ph in args && args[ph].JString? {
      ArgValueIsAllWhitelisted(args[ph].s);
    }
    hide IsPlaceholder;
  }

  lemma RendersMeaning(t: Template, captured: Captured, matches: RegexMatch)
    ensures Renders(t, captured, matches) <==>
              && captured.Object?
              && forall i | 0 <= i < |t.argv| :: PieceRenders(t, captured.fields, matches, t.argv[i])
  {
    hide PieceGood, LiteralGood, PieceRenders;
    if captured.Object? {
      forall i | 0 <= i < |t.argv|
        ensures PieceGood(t, captured.fields, matches, t.argv[i]) && LiteralGood(t.argv[i])
           <==> PieceRenders(t, captured.fields, matches, t.argv[i])
      {
        PieceRendersMeaning(t, captured.fields, matches, t.argv[i]);
      }
    }
  }

  /** In a rendered command the word of a placeholder is the value captured under its name. */
  lemma PlaceholderWord(t: Template, captured: Captured, matches: RegexMatch, i: nat, name: string)
    requires Renders(t, captured, matches) && i < |t.argv| && name != "" && t.argv[i] == "{" + name + "}"
    ensures var words := Words(t, captured.fields);
            && |words| == |t.argv| && name in captured.fields
            && captured.fields[name] == JString(words[i])
  {
    CommandParsesBack(t, captured, matches);
    hide PlaceholderOf, Words, ArgValue;
    PlaceholderMeaning(t.argv[i]);
    assert IsPlaceholder(t.argv[i], name);
    assert PieceGood(t, captured.fields, matches, t.argv[i]);
  }

  /** The word of any other piece is the piece. */
  lemma LiteralWord(t: Template, captured: Captured, matches: RegexMatch, i: nat)
    requires Renders(t, captured, matches) && i < |t.argv| && forall name | name != "" :: t.argv[i] != "{" + name + "}"
    ensures var words := Words(t, captured.fields);
            |words| == |t.argv| && words[i] == t.argv[i]
  {
    CommandParsesBack(t, captured, matches);
    PlaceholderMeaning(t.argv[i]);
    hide PlaceholderOf, Words;
    assert forall name :: !IsPlaceholder(t.argv[i], name);
  }

  /** Rendering succeeds exactly on good arguments and good literals. */
  method RenderCommand(t: Template, captured: Captured, matches: RegexMatch)
    returns (r: Result<string, RenderError>)
    ensures r.Success? <==> Renders(t, captured, matches)
    ensures r.Success? <==>
              && captured.Object?
              && forall i | 0 <= i < |t.argv| :: PieceRenders(t, captured.fields, matches, t.argv[i])
    ensures r.Success? ==> r.value == CommandText(t, captured.fields)
    ensures r.Failure? && r.error.BadLiteral? ==> r.error.piece in t.argv && !ArgValue(r.error.piece)
  {
    hide PlaceholderOf, ArgValue, PieceRenders;
    RendersMeaning(t, captured, matches);
    var error := ValidateCapturedArgs(t, captured, matches);
    if error.Some? {
      return Failure(BadArgs(error.value));
    }
    var args := captured.fields;
    var cmd := t.binary;
    for i := 0 to |t.argv|
      invariant cmd == CommandUpTo(t, args, i)
      invariant forall k | 0 <= k < i :: LiteralGood(t.argv[k])
    {
      assert PieceGood(t, args, matches, t.argv[i]);
      cmd := cmd + " ";
      var ph := PlaceholderOf(t.argv[i]);
      if ph == "" {
        var literalOk := ArgValueCharsetOk(t.argv[i]);
        if !literalOk {
          return Failure(BadLiteral(t.argv[i]));
        }
        cmd := cmd + t.argv[i];
      } else {
        cmd := cmd + args[ph].s;
      }
    }
    return Success(cmd);
  }

  /** Two argument objects that render to the same command agree on every placeholder the template uses. */
  lemma RenderIsInjective(t: Template, a: Captured, b: Captured, matches: RegexMatch, ph: string)
    requires Renders(t, a, matches) && Renders(t, b, matches)
    requires CommandText(t, a.fields) == CommandText(t, b.fields)
    requires ph != "" && exists i | 0 <= i < |t.argv| :: PlaceholderOf(t.argv[i]) == ph
    ensures ph in a.fields && ph in b.fields && a.fields[ph] == b.fields[ph]
  {
    var i :| 0 <= i < |t.argv| && PlaceholderOf(t.argv[i]) == ph;
    var ta, tb := PieceTexts(a.fields, t.argv), PieceTexts(b.fields, t.argv);
    CommandParsesBack(t, a, matches);
    CommandParsesBack(t, b, matches);
    assert ta[i] == tb[i];
    assert PieceGood(t, a.fields, matches, t.argv[i]) && PieceGood(t, b.fields, matches, t.argv[i]);
  }

  const USER_PREFIX := "mcp_user_"
  const COMMAND_MID := " ALL=(root) NOPASSWD: "
  const COMMAND_MID_SLASH := " ALL=(root) NOPASSWD: /"
  const ADMIN_TAIL := " ALL=(ALL) NOPASSWD: ALL\n"

  predicate ShortidChar(c: char) {
    'a' <= c <= 'z' || '2' <= c <= '7'
  }

  predicate ValidShortid(s: string) {
    |s| == 8 && forall i | 0 <= i < 8 :: ShortidChar(s[i])
  }

  method RenderSudoersSpec(shortid: string, t: Template, captured: Captured, matches: RegexMatch)
    returns (r: Result<string, RenderError>)
    ensures r.Success? <==> ValidShortid(shortid) && Renders(t, captured, matches)
    ensures r.Success? ==>
              r.value == "mcp_user_" + shortid + " ALL=(root) NOPASSWD: " + CommandText(t, captured.fields) + "\n"
  {
    if !ValidShortid(shortid) {
      return Failure(BadShortid);
    }
    var cmd := RenderCommand(t, captured, matches);
    if cmd.Failure? {
      return Failure(cmd.error);
    }
    return Success(USER_PREFIX + shortid + COMMAND_MID + cmd.value + "\n");
  }

  function RenderFullAdminSpec(shortid: string): (r: Result<string, RenderError>)
    ensures r.Success? <==> ValidShortid(shortid)
    ensures r.Success? ==> AdminShape(r.value, shortid) && SpecLanguage(r.value)
    ensures r.Success? ==> r.value == "mcp_user_" + shortid + " ALL=(ALL) NOPASSWD: ALL\n"
  {
    if !ValidShortid(shortid) then Failure(BadShortid)
    else
      var spec := USER_PREFIX + shortid + ADMIN_TAIL;
      assert AdminShape(spec, shortid);
      Success(spec)
  }

  // ---- The language of installable lines ----

  predicate Printable(s: string) {
    forall i | 0 <= i < |s| :: ' ' <= s[i] <= '~'
  }

  ghost predicate CommandShape(s: string, shortid: string, rest: string) {
    ValidShortid(shortid) && Printable(rest) && s == USER_PREFIX + shortid + COMMAND_MID_SLASH + rest + "\n"
  }

  ghost predicate AdminShape(s: string, shortid: string) {
    ValidShortid(shortid) && s == USER_PREFIX + shortid + ADMIN_TAIL
  }

  /** `mcp_user_<shortid> ALL=(root) NOPASSWD: /<printable text>`, one line. */
  ghost predicate PerCommandLine(s: string) {
    exists shortid, rest :: CommandShape(s, shortid, rest)
  }

  /** `mcp_user_<shortid> ALL=(ALL) NOPASSWD: ALL`, one line. */
  ghost predicate AdminLine(s: string) {
    exists shortid :: AdminShape(s, shortid)
  }

  ghost predicate SpecLanguage(s: string) {
    |s| <= 4096 && (PerCommandLine(s) || AdminLine(s))
  }

  /** What both checks look at once they have passed the length and newline tests. */
  ghost predicate PassesChecks(s: string) {
    && 17 <= |s| <= 4096
    && s[|s| - 1] == '\n'
    && Printable(s[..|s| - 1])
    && s[..9] == USER_PREFIX
    && ValidShortid(s[9..17])
    && (s[17..] == ADMIN_TAIL || (|s| >= 40 && s[17..40] == COMMAND_MID_SLASH))
  }

  lemma ChecksAreTheLanguage(s: string)
    ensures PassesChecks(s) <==> SpecLanguage(s)
  {
    if PassesChecks(s) {
      if s[17..] == ADMIN_TAIL {
        assert s == s[..9] + s[9..17] + s[17..];
        assert AdminShape(s, s[9..17]);
      } else {
        CommandChecksGiveShape(s);
      }
    }
    if SpecLanguage(s) && AdminLine(s) {
      var shortid :| AdminShape(s, shortid);
      AdminShapePasses(s, shortid);
    }
    if SpecLanguage(s) && PerCommandLine(s) {
      var shortid, rest :| CommandShape(s, shortid, rest);
      CommandShapePasses(s, shortid, rest);
    }
  }

  /** The characters of a shortid, one by one. */
  ghost predicate IsShortid(s: string) {
    |s| == 8 && forall i | 0 <= i < 8 :: s[i] in "abcdefghijklm" || s[i] in "nopqrstuvwxyz" || s[i] in "234567"
  }

  ghost predicate IsCommandLine(s: string, shortid: string, rest: string) {
    && IsShortid(shortid) && (forall i | 0 <= i < |rest| :: ' ' <= rest[i] <= '~')
    && s == "mcp_user_" + shortid + " ALL=(root) NOPASSWD: /" + rest + "\n"
  }

  ghost predicate IsAdminLine(s: string, shortid: string) {
    IsShortid(shortid) && s == "mcp_user_" + shortid + " ALL=(ALL) NOPASSWD: ALL\n"
  }

  lemma ShortidsAreWritten(s: string)
    ensures ValidShortid(s) <==> IsShortid(s)
  {
    if |s| == 8 {
      forall i | 0 <= i < 8
        ensures ShortidChar(s[i]) <==> s[i] in "abcdefghijklm" || s[i] in "nopqrstuvwxyz" || s[i] in "234567"
      {
        ShortidCharsAreWritten(s[i]);
      }
      hide ShortidChar;
    }
  }

  lemma ShortidCharsAreWritten(c: char)
    ensures ShortidChar(c) <==> c in "abcdefghijklm" || c in "nopqrstuvwxyz" || c in "234567"
  {
  }

  /** The language of installable lines, written out. */
  lemma SpecLanguageWritten(s: string)
    ensures SpecLanguage(s) <==>
              && |s| <= 4096
              && ((exists shortid, rest :: IsCommandLine(s, shortid, rest))
                  || exists shortid :: IsAdminLine(s, shortid))
  {
    forall shortid, rest
      ensures CommandShape(s, shortid, rest) <==> IsCommandLine(s, shortid, rest)
    {
      ShortidsAreWritten(shortid);
    }
    forall shortid
      ensures AdminShape(s, shortid) <==> IsAdminLine(s, shortid)
    {
      ShortidsAreWritten(shortid);
    }
    hide CommandShape, IsCommandLine, AdminShape, IsAdminLine;
  }

  lemma CommandChecksGiveShape(s: string)
    requires PassesChecks(s) && s[17..] != ADMIN_TAIL
    ensures PerCommandLine(s)
  {
    var n := |s| - 1;
    assert n >= 40 by {
      assert s[17..40][22] == '/';
    }
    var rest := s[40..n];
    assert rest == s[..n][40..];
    assert s == s[..9] + s[9..17] + s[17..40] + rest + [s[n]];
    assert CommandShape(s, s[9..17], rest);
  }

  lemma AdminShapePasses(s: string, shortid: string)
    requires AdminShape(s, shortid)
    ensures PassesChecks(s)
  {
    assert s[..9] == USER_PREFIX && s[9..17] == shortid && s[17..] == ADMIN_TAIL;
    assert s[..|s| - 1] == USER_PREFIX + shortid + ADMIN_TAIL[..24];
    PrintableParts(shortid);
  }

  lemma CommandShapePasses(s: string, shortid: string, rest: string)
    requires CommandShape(s, shortid, rest) && |s| <= 4096
    ensures PassesChecks(s)
  {
    assert s[..9] == USER_PREFIX && s[9..17] == shortid;
    assert s[17..40] == COMMAND_MID_SLASH;
    assert s[..|s| - 1] == USER_PREFIX + shortid + COMMAND_MID_SLASH + rest;
    PrintableParts(shortid);
  }

  lemma PrintableParts(shortid: string)
    requires ValidShortid(shortid)
    ensures Printable(shortid) && Printable(USER_PREFIX) && Printable(COMMAND_MID_SLASH) && Printable(ADMIN_TAIL[..24])
  {
    assert forall i | 0 <= i < 8 :: ShortidChar(shortid[i]);
  }

  /** A rendered line of a template with a printable absolute binary is installable unless it is too long. */
  lemma RenderedSpecIsInLanguage(shortid: string, t: Template, captured: Captured, matches: RegexMatch, spec: string)
    requires ValidShortid(shortid) && Renders(t, captured, matches)
    requires t.binary != "" && t.binary[0] == '/' && Printable(t.binary)
    requires spec == USER_PREFIX + shortid + COMMAND_MID + CommandText(t, captured.fields) + "\n"
    ensures SpecLanguage(spec) <==> |spec| <= 4096
  {
    hide CommandUpTo, PlaceholderOf, PieceTexts;
    var texts := PieceTexts(captured.fields, t.argv);
    forall i | 0 <= i < |texts|
      ensures Printable(texts[i])
    {
      PieceIsPrintable(t, captured, matches, i);
    }
    JoinIsPrintable(texts);
    CommandIsJoin(t, captured.fields, |t.argv|);
    assert texts[..|t.argv|] == texts;
    var rest := t.binary[1..] + Join(texts);
    CommandTextShape(shortid, t.binary, Join(texts));
    assert CommandShape(spec, shortid, rest);
  }

  lemma PieceIsPrintable(t: Template, captured: Captured, matches: RegexMatch, i: nat)
    requires Renders(t, captured, matches) && i < |t.argv|
    ensures Printable(PieceText(captured.fields, t.argv[i]))
  {
    hide PlaceholderOf;
    assert PieceGood(t, captured.fields, matches, t.argv[i]) && LiteralGood(t.argv[i]);
    assert ArgValue(PieceText(captured.fields, t.argv[i]));
  }

  lemma CommandTextShape(shortid: string, binary: string, tail: string)
    requires binary != "" && binary[0] == '/'
    ensures USER_PREFIX + shortid + COMMAND_MID + (binary + tail) + "\n"
         == USER_PREFIX + shortid + COMMAND_MID_SLASH + (binary[1..] + tail) + "\n"
  {
    assert COMMAND_MID + binary == COMMAND_MID_SLASH + binary[1..] by {
      assert binary == ['/'] + binary[1..];
    }
    assert USER_PREFIX + shortid + COMMAND_MID + (binary + tail)
        == USER_PREFIX + shortid + (COMMAND_MID + binary) + tail;
    assert USER_PREFIX + shortid + COMMAND_MID_SLASH + (binary[1..] + tail)
        == USER_PREFIX + shortid + (COMMAND_MID_SLASH + binary[1..]) + tail;
  }

  lemma {:induction false} JoinIsPrintable(fs: seq<string>)
    requires forall i | 0 <= i < |fs| :: Printable(fs[i])
    ensures Printable(Join(fs))
  {
    if fs == [] {
    } else {
      JoinIsPrintable(fs[..|fs| - 1]);
    }
  }

  // ---- What a request is entitled to ----

  const FULL_ADMIN := "full_admin"

  /** The daemon's templates, and its regular expressions' meaning. */
  datatype Config = Config(templates: seq<Template>, matches: RegexMatch)

  /** The template a request names: the first of that name. */
  ghost predicate Named(c: Config, name: string, i: int) {
    && 0 <= i < |c.templates| && c.templates[i].name == name
    && forall k | 0 <= k < i :: c.templates[k].name != name
  }

  ghost predicate IsLineOf(line: string, shortid: string, t: Template, captured: Captured, c: Config) {
    && Renders(t, captured, c.matches)
    && line == "mcp_user_" + shortid + " ALL=(root) NOPASSWD: " + CommandText(t, captured.fields) + "\n"
  }

  /** The line this request is entitled to. */
  ghost predicate IsRenderedFor(line: string, shortid: string, name: string, captured: Captured, c: Config) {
    && ValidShortid(shortid) && SpecLanguage(line)
    && if name == "full_admin" then line == "mcp_user_" + shortid + " ALL=(ALL) NOPASSWD: ALL\n"
       else exists i :: Named(c, name, i) && IsLineOf(line, shortid, c.templates[i], captured, c)
  }

  lemma RenderedIsInstallable(line: string, shortid: string, name: string, captured: Captured, c: Config)
    requires IsRenderedFor(line, shortid, name, captured, c)
    ensures SpecLanguage(line)
  {
  }

  // ---- The two validators ----

  /** The daemon's `spec_is_well_formed`. */
  method SpecIsWellFormed(spec: string) returns (ok: bool)
    ensures ok <==> SpecLanguage(spec)
  {
    ChecksAreTheLanguage(spec);
    if spec == "" || |spec| > 4096 {
      return false;
    }
    if spec[|spec| - 1] != '\n' {
      return false;
    }
    if '\n' in spec[..|spec| - 1] {
      assert !Printable(spec[..|spec| - 1]);
      return false;
    }
    for i := 0 to |spec| - 1
      invariant Printable(spec[..i])
    {
      if spec[i] < ' ' || spec[i] > '~' {
        assert spec[..|spec| - 1][i] == spec[i];
        return false;
      }
    }
    if !(USER_PREFIX <= spec) {
      return false;
    }
    if |spec| < 17 {
      return false;
    }
    ghost var shortid := spec[9..17];
    for i := 0 to 8
      invariant forall k | 0 <= k < i :: ShortidChar(shortid[k])
    {
      if !ShortidChar(spec[9 + i]) {
        assert shortid[i] == spec[9 + i];
        return false;
      }
    }
    if |spec| - 17 >= |COMMAND_MID_SLASH| && spec[17..40] == COMMAND_MID_SLASH {
      return true;
    }
    if |spec| == 17 + |ADMIN_TAIL| && spec[17..] == ADMIN_TAIL {
      return true;
    }
    return false;
  }

  /** The helper's `spec_well_formed`. */
  method SpecWellFormed(buf: string) returns (ok: bool)
    ensures ok <==> SpecLanguage(buf)
  {
    ChecksAreTheLanguage(buf);
    var len := |buf|;
    if len == 0 || len > 4096 {
      return false;
    }
    if buf[len - 1] != '\n' {
      return false;
    }
    for i := 0 to len - 1
      invariant Printable(buf[..i])
    {
      if buf[i] < ' ' || buf[i] > '~' || buf[i] == '\n' {
        assert buf[..len - 1][i] == buf[i];
        return false;
      }
    }
    if len < |USER_PREFIX| + 8 {
      return false;
    }
    if buf[..|USER_PREFIX|] != USER_PREFIX {
      return false;
    }
    ghost var shortid := buf[9..17];
    for i := 0 to 8
      invariant forall k | 0 <= k < i :: ShortidChar(shortid[k])
    {
      if !ShortidChar(buf[9 + i]) {
        assert shortid[i] == buf[9 + i];
        return false;
      }
    }
    var afterId := |USER_PREFIX| + 8;
    if len - afterId >= |COMMAND_MID_SLASH| && buf[afterId..afterId + |COMMAND_MID_SLASH|] == COMMAND_MID_SLASH {
      return true;
    }
    if len == afterId + |ADMIN_TAIL| && buf[afterId..] == ADMIN_TAIL {
      return true;
    }
    return false;
  }
}
