/**
  Rewriting a user's crontab: the daemon's own two-line blocks are dropped and written anew, every other
  line is kept.
 */
module CrontabText {
  import opened CronStore
  import opened FieldScanner

  const TAG := "# mcp_bridge:job_id="

  // ---- Lines, as `std::getline` reads them ----

  predicate NewlineFree(s: string) {
    forall i | 0 <= i < |s| :: s[i] != '\n'
  }

  function LineEnd(s: string): (i: nat)
    ensures i <= |s| && NewlineFree(s[..i]) && (i < |s| ==> s[i] == '\n')
  {
    if s == "" || s[0] == '\n' then 0
    else
      var i := LineEnd(s[1..]) + 1;
      assert s[..i] == [s[0]] + s[1..][..i - 1];
      i
  }

  /** A text's lines; a last line without its newline counts, an empty one does not. */
  function Lines(s: string): seq<string> {
    if s == "" then []
    else
      var i := LineEnd(s);
      if i == |s| then [s] else [s[..i]] + Lines(s[i + 1..])
  }

  function Unlines(ls: seq<string>): string {
    if ls == [] then "" else ls[0] + "\n" + Unlines(ls[1..])
  }

  lemma {:induction false} LineEndIs(s: string, n: nat)
    requires n < |s| && s[n] == '\n' && NewlineFree(s[..n])
    ensures LineEnd(s) == n
  {
    if n == 0 {
    } else {
      assert s[0] == s[..n][0];
      assert s[1..][..n - 1] == s[..n][1..];
      LineEndIs(s[1..], n - 1);
    }
  }

  lemma {:induction false} LinesAreNewlineFree(s: string)
    ensures forall i | 0 <= i < |Lines(s)| :: NewlineFree(Lines(s)[i])
  {
    if s == "" {
    } else {
      var i := LineEnd(s);
      if i == |s| {
        assert s[..i] == s;
      } else {
        LinesAreNewlineFree(s[i + 1..]);
      }
    }
  }

  lemma {:induction false} LinesOfUnlines(ls: seq<string>)
    requires forall i | 0 <= i < |ls| :: NewlineFree(ls[i])
    ensures Lines(Unlines(ls)) == ls
  {
    if ls == [] {
    } else {
      LinesOfUnlines(ls[1..]);
      LinesFirst(ls[0], Unlines(ls[1..]));
    }
  }

  lemma LinesFirst(line: string, rest: string)
    requires NewlineFree(line)
    ensures Lines(line + "\n" + rest) == [line] + Lines(rest)
  {
    var s := line + "\n" + rest;
    assert s[..|line|] == line && s[|line| + 1..] == rest;
    LineEndIs(s, |line|);
  }

  lemma {:induction false} UnlinesConcat(a: seq<string>, b: seq<string>)
    ensures Unlines(a + b) == Unlines(a) + Unlines(b)
  {
    if a == [] {
      assert a + b == b;
    } else {
      UnlinesConcat(a[1..], b);
      assert (a + b)[1..] == a[1..] + b;
    }
  }

  // ---- Managed blocks and foreign lines ----

  predicate Tagged(line: string) {
    TAG <= line
  }

  function Drop(ls: seq<string>, n: nat): (r: seq<string>)
    ensures |r| == if n <= |ls| then |ls| - n else 0
  {
    if n <= |ls| then ls[n..] else []
  }

  /** The lines that are not the daemon's: a tag line takes the line after it with it. */
  function Foreign(ls: seq<string>): seq<string>
    decreases |ls|
  {
    if ls == [] then []
    else if Tagged(ls[0]) then Foreign(Drop(ls, 2))
    else [ls[0]] + Foreign(ls[1..])
  }

  /** The daemon's blocks: each tag line with the schedule line after it. */
  function Managed(ls: seq<string>): seq<(string, string)>
    decreases |ls|
  {
    if ls == [] then []
    else if Tagged(ls[0]) then [(ls[0], if |ls| > 1 then ls[1] else "")] + Managed(Drop(ls, 2))
    else Managed(ls[1..])
  }

  function Block(j: CronJob, runner: string): (string, string) {
    (TAG + j.jobId, j.schedule + " " + runner + " " + j.jobId)
  }

  function Blocks(jobs: seq<CronJob>, runner: string): (r: seq<(string, string)>)
    ensures |r| == |jobs|
    ensures forall i | 0 <= i < |jobs| :: r[i] == Block(jobs[i], runner)
  {
    seq(|jobs|, i requires 0 <= i < |jobs| => Block(jobs[i], runner))
  }

  function BlockLines(blocks: seq<(string, string)>): seq<string> {
    if blocks == [] then [] else [blocks[0].0, blocks[0].1] + BlockLines(blocks[1..])
  }

  function Build(existing: string, jobs: seq<CronJob>, runner: string): string {
    Unlines(Foreign(Lines(existing)) + BlockLines(Blocks(jobs, runner)))
  }

  predicate Writable(j: CronJob) {
    NewlineFree(j.jobId) && NewlineFree(j.schedule)
  }

  // ---- The rewriter ----

  function AfterSkip(ls: seq<string>, skip: bool): seq<string> {
    if skip then Drop(ls, 1) else ls
  }

  lemma ForeignNext(ls: seq<string>, i: nat, skip: bool)
    requires i < |ls|
    ensures Foreign(AfterSkip(ls[i..], skip))
         == if skip then Foreign(AfterSkip(ls[i + 1..], false))
            else if Tagged(ls[i]) then Foreign(AfterSkip(ls[i + 1..], true))
            else [ls[i]] + Foreign(AfterSkip(ls[i + 1..], false))
  {
    hide Tagged;
    var rest := ls[i..];
    assert rest[0] == ls[i] && rest[1..] == ls[i + 1..];
    assert Drop(rest, 2) == Drop(ls[i + 1..], 1);
  }

  lemma UnlinesSnoc(ls: seq<string>, line: string)
    ensures Unlines(ls + [line]) == Unlines(ls) + line + "\n"
  {
    UnlinesConcat(ls, [line]);
    assert Unlines([line]) == line + "\n" + "" && Unlines(ls) + (line + "\n") == Unlines(ls) + line + "\n";
  }

  lemma ForeignEnds(ls: seq<string>, skip: bool)
    ensures Foreign(AfterSkip(ls[|ls|..], skip)) == [] && ls[0..] == ls && AfterSkip(ls, false) == ls
  {
  }

  /** `build_crontab_text`. */
  method BuildCrontabText(existing: string, jobs: seq<CronJob>, runner: string) returns (out: string)
    ensures out == Build(existing, jobs, runner)
  {
    hide Lines, Foreign, AfterSkip, Tagged, Unlines, BlockLines, Blocks;
    var lines := Lines(existing);
    out := "";
    ghost var kept: seq<string> := [];
    var skipNext := false;
    ForeignEnds(lines, false);
    assert Unlines([]) == "" by {
      UnlinesOfNothing();
    }
    for i := 0 to |lines|
      invariant out == Unlines(kept)
      invariant kept + Foreign(AfterSkip(lines[i..], skipNext)) == Foreign(lines)
    {
      ForeignNext(lines, i, skipNext);
      var line := lines[i];
      if skipNext {
        skipNext := false;
        continue;
      }
      if Tagged(line) {
        skipNext := true;
        continue;
      }
      UnlinesSnoc(kept, line);
      kept := kept + [line];
      out := out + line;
      out := out + "\n";
    }
    ForeignEnds(lines, skipNext);
    assert kept == kept + [] == Foreign(lines);
    UnlinesConcat(kept, BlockLines(Blocks(jobs, runner)));
    out := AppendBlocks(out, jobs, runner);
  }

  lemma UnlinesOfNothing()
    ensures Unlines([]) == ""
  {
  }

  method AppendBlocks(text: string, jobs: seq<CronJob>, runner: string) returns (out: string)
    ensures out == text + Unlines(BlockLines(Blocks(jobs, runner)))
  {
    hide Blocks, BlockLines, Unlines;
    out := text;
    ghost var blocks := Blocks(jobs, runner);
    assert blocks[0..] == blocks;
    for i := 0 to |jobs|
      invariant out + Unlines(BlockLines(blocks[i..])) == text + Unlines(BlockLines(blocks))
    {
      ghost var before, rest := out, blocks[i..];
      assert rest[0] == Block(jobs[i], runner) && rest[1..] == blocks[i + 1..];
      FirstBlockText(out, rest);
      out := out + TAG;
      out := out + jobs[i].jobId;
      out := out + "\n";
      out := out + jobs[i].schedule;
      out := out + " ";
      out := out + runner;
      out := out + " ";
      out := out + jobs[i].jobId;
      out := out + "\n";
      EightPieces(before, TAG, jobs[i].jobId, jobs[i].schedule, runner);
    }
    NoBlocks(blocks);
  }

  lemma NoBlocks(blocks: seq<(string, string)>)
    ensures Unlines(BlockLines(blocks[|blocks|..])) == ""
  {
  }

  lemma EightPieces(out: string, tag: string, id: string, schedule: string, runner: string)
    ensures out + tag + id + "\n" + schedule + " " + runner + " " + id + "\n"
         == out + (tag + id) + "\n" + (schedule + " " + runner + " " + id) + "\n"
  {
  }

  lemma FirstBlockText(out: string, blocks: seq<(string, string)>)
    requires blocks != []
    ensures out + Unlines(BlockLines(blocks))
         == out + blocks[0].0 + "\n" + blocks[0].1 + "\n" + Unlines(BlockLines(blocks[1..]))
  {
    var tag, line, more := blocks[0].0, blocks[0].1, BlockLines(blocks[1..]);
    UnlinesOfTwo(tag, line, more);
    FourPieces(out, tag, line, Unlines(more));
  }

  lemma UnlinesOfTwo(a: string, b: string, more: seq<string>)
    ensures Unlines([a, b] + more) == a + "\n" + (b + "\n" + Unlines(more))
  {
    var ls := [a, b] + more;
    assert ls[1..] == [b] + more && ls[1..][1..] == more;
  }

  lemma FourPieces(out: string, a: string, b: string, more: string)
    ensures out + (a + "\n" + (b + "\n" + more)) == out + a + "\n" + b + "\n" + more
  {
  }

  // ---- What rewriting keeps and replaces ----

  lemma {:induction false} ForeignIsUntagged(ls: seq<string>)
    ensures forall i | 0 <= i < |Foreign(ls)| :: !Tagged(Foreign(ls)[i]) && Foreign(ls)[i] in ls
    decreases |ls|
  {
    if ls == [] {
    } else {
      ForeignIsUntagged(if Tagged(ls[0]) then Drop(ls, 2) else ls[1..]);
    }
  }

  /** Lines that are not tagged are all foreign, and nothing the daemon ever wrote. */
  lemma {:induction false} UntaggedPrefix(a: seq<string>, b: seq<string>)
    requires forall i | 0 <= i < |a| :: !Tagged(a[i])
    ensures Foreign(a + b) == a + Foreign(b)
    ensures Managed(a + b) == Managed(b)
  {
    if a == [] {
      assert a + b == b;
    } else {
      UntaggedPrefix(a[1..], b);
      assert (a + b)[1..] == a[1..] + b;
    }
  }

  lemma {:induction false} BlocksAreManaged(blocks: seq<(string, string)>)
    requires forall i | 0 <= i < |blocks| :: Tagged(blocks[i].0)
    ensures Foreign(BlockLines(blocks)) == []
    ensures Managed(BlockLines(blocks)) == blocks
  {
    if blocks == [] {
    } else {
      BlocksAreManaged(blocks[1..]);
      assert Drop(BlockLines(blocks), 2) == BlockLines(blocks[1..]);
    }
  }

  lemma {:induction false} BlockLinesAreNewlineFree(blocks: seq<(string, string)>)
    requires forall i | 0 <= i < |blocks| :: NewlineFree(blocks[i].0) && NewlineFree(blocks[i].1)
    ensures forall i | 0 <= i < |BlockLines(blocks)| :: NewlineFree(BlockLines(blocks)[i])
  {
    if blocks == [] {
    } else {
      BlockLinesAreNewlineFree(blocks[1..]);
    }
  }

  /** Rescanning the output: the foreign lines of the input in order, untagged, and one block per job in order. */
  lemma RewriteRoundTrip(existing: string, jobs: seq<CronJob>, runner: string)
    requires NewlineFree(runner) && forall i | 0 <= i < |jobs| :: Writable(jobs[i])
    ensures var ls := Lines(Build(existing, jobs, runner));
            && Foreign(ls) == Foreign(Lines(existing))
            && Managed(ls) == Blocks(jobs, runner)
            && forall i | 0 <= i < |Foreign(ls)| :: !Tagged(Foreign(ls)[i])
  {
    var foreign, blocks := Foreign(Lines(existing)), Blocks(jobs, runner);
    LinesAreNewlineFree(existing);
    ForeignIsUntagged(Lines(existing));
    forall i | 0 <= i < |blocks|
      ensures Tagged(blocks[i].0) && NewlineFree(blocks[i].0) && NewlineFree(blocks[i].1)
    {
      assert Writable(jobs[i]) && blocks[i] == Block(jobs[i], runner);
    }
    BlockLinesAreNewlineFree(blocks);
    LinesOfUnlines(foreign + BlockLines(blocks));
    UntaggedPrefix(foreign, BlockLines(blocks));
    BlocksAreManaged(blocks);
    assert foreign + [] == foreign;
  }

  lemma {:induction false} ManagedAreNewlineFree(ls: seq<string>)
    requires forall i | 0 <= i < |ls| :: NewlineFree(ls[i])
    ensures forall i | 0 <= i < |Managed(ls)| :: NewlineFree(Managed(ls)[i].0) && NewlineFree(Managed(ls)[i].1)
    decreases |ls|
  {
    if ls == [] {
    } else {
      ManagedAreNewlineFree(if Tagged(ls[0]) then Drop(ls, 2) else ls[1..]);
    }
  }

  /** No text can be rescanned to the block of a job whose schedule has a newline. */
  lemma RescannedAreWritable(text: string, jobs: seq<CronJob>, runner: string)
    requires Managed(Lines(text)) == Blocks(jobs, runner)
    ensures forall i | 0 <= i < |jobs| :: Writable(jobs[i])
  {
    LinesAreNewlineFree(text);
    ManagedAreNewlineFree(Lines(text));
    hide Managed, Lines, Tagged;
    forall i | 0 <= i < |jobs|
      ensures Writable(jobs[i])
    {
      var j, block := jobs[i], Blocks(jobs, runner)[i];
      assert block == Block(j, runner) && NewlineFree(block.0) && NewlineFree(block.1);
      assert forall k | 0 <= k < |j.jobId| :: j.jobId[k] == block.0[|TAG| + k];
      assert forall k | 0 <= k < |j.schedule| :: j.schedule[k] == block.1[k];
    }
  }

  /** So the output holds exactly one block per job if and only if no id and no schedule has a newline. */
  lemma BlocksReadBackIff(existing: string, jobs: seq<CronJob>, runner: string)
    requires NewlineFree(runner)
    ensures Managed(Lines(Build(existing, jobs, runner))) == Blocks(jobs, runner) <==>
            forall i | 0 <= i < |jobs| :: Writable(jobs[i])
  {
    if forall i | 0 <= i < |jobs| :: Writable(jobs[i]) {
      RewriteRoundTrip(existing, jobs, runner);
    }
    if Managed(Lines(Build(existing, jobs, runner))) == Blocks(jobs, runner) {
      RescannedAreWritable(Build(existing, jobs, runner), jobs, runner);
    }
  }

  // ---- What cron makes of a block ----

  /** A comment with the job's id, and a line whose words are those of the schedule, the runner and the id: cron
      takes the first five words for the schedule and runs the rest. */
  ghost predicate CronRuns(block: (string, string), j: CronJob, runner: string) {
    && block.0 == "# mcp_bridge:job_id=" + j.jobId
    && Fields(block.1) == Fields(j.schedule) + [runner, j.jobId]
  }

  /** One such block per job, in order. */
  ghost predicate CronReads(blocks: seq<(string, string)>, jobs: seq<CronJob>, runner: string) {
    |blocks| == |jobs| && forall i | 0 <= i < |jobs| :: CronRuns(blocks[i], jobs[i], runner)
  }

  lemma FieldsOneMore(s: string, f: string)
    requires IsField(f)
    ensures Fields(s + " " + f) == Fields(s) + [f]
  {
    var spaced := s + " ";
    assert spaced[..|spaced| - 1] == s;
    assert ScanAll(spaced) == Scan(Fields(s), "");
    hide ScanAll;
    ScanAppendField(spaced, f);
    assert "" + f == f;
  }

  lemma BlockIsRun(j: CronJob, runner: string)
    requires IsField(runner) && IsField(j.jobId)
    ensures CronRuns(Block(j, runner), j, runner)
  {
    hide Fields, IsField;
    FieldsOneMore(j.schedule, runner);
    FieldsOneMore(j.schedule + " " + runner, j.jobId);
    assert Fields(j.schedule) + [runner] + [j.jobId] == Fields(j.schedule) + [runner, j.jobId];
  }

  /** Rescanning the output as cron reads it, for a runner and ids without blanks. */
  lemma OutputIsRun(existing: string, jobs: seq<CronJob>, runner: string)
    requires NewlineFree(runner) && IsField(runner)
    requires forall i | 0 <= i < |jobs| :: Writable(jobs[i]) && IsField(jobs[i].jobId)
    ensures CronReads(Managed(Lines(Build(existing, jobs, runner))), jobs, runner)
  {
    hide Managed, Lines, Build, CronRuns, Block, IsField;
    RewriteRoundTrip(existing, jobs, runner);
    forall i | 0 <= i < |jobs|
      ensures CronRuns(Blocks(jobs, runner)[i], jobs[i], runner)
    {
      BlockIsRun(jobs[i], runner);
    }
  }

  /** Only the last rewrite matters. */
  lemma RewriteIsAbsorbing(existing: string, first: seq<CronJob>, jobs: seq<CronJob>, runner: string)
    requires NewlineFree(runner) && forall i | 0 <= i < |first| :: Writable(first[i])
    ensures Build(Build(existing, first, runner), jobs, runner) == Build(existing, jobs, runner)
  {
    RewriteRoundTrip(existing, first, runner);
  }

  /** A crontab the daemon never touched keeps every line. */
  lemma UntouchedIsForeign(existing: string)
    requires forall i | 0 <= i < |Lines(existing)| :: !Tagged(Lines(existing)[i])
    ensures Foreign(Lines(existing)) == Lines(existing) && Managed(Lines(existing)) == []
  {
    UntaggedPrefix(Lines(existing), []);
    assert Lines(existing) + [] == Lines(existing);
  }

  lemma {:induction false} UnlinesOfLines(s: string)
    ensures Unlines(Lines(s)) == if s == "" || s[|s| - 1] == '\n' then s else s + "\n"
    decreases |s|
  {
    if s == "" {
    } else {
      var i := LineEnd(s);
      if i == |s| {
        assert s[..i] == s && s[|s| - 1] != '\n';
        assert Unlines([s]) == s + "\n" + "";
      } else {
        var line, rest := s[..i], s[i + 1..];
        assert s == line + "\n" + rest && Lines(s) == [line] + Lines(rest);
        hide Lines, LineEnd, Unlines;
        UnlinesOfLines(rest);
        UnlinesFirst(line, Lines(rest));
        NewlineAssociates(line, rest);
      }
    }
  }

  lemma UnlinesFirst(line: string, ls: seq<string>)
    ensures Unlines([line] + ls) == line + "\n" + Unlines(ls)
  {
    assert ([line] + ls)[1..] == ls;
  }

  lemma NewlineAssociates(line: string, rest: string)
    ensures line + "\n" + (rest + "\n") == line + "\n" + rest + "\n"
  {
  }

  /** With no jobs and none before, the text stays character for character, but for a missing last newline. */
  lemma UntouchedTextStays(existing: string, runner: string)
    requires forall i | 0 <= i < |Lines(existing)| :: !Tagged(Lines(existing)[i])
    ensures Build(existing, [], runner)
         == if existing == "" || existing[|existing| - 1] == '\n' then existing else existing + "\n"
  {
    UntouchedIsForeign(existing);
    UnlinesOfLines(existing);
    assert Foreign(Lines(existing)) + BlockLines(Blocks([], runner)) == Lines(existing);
  }
}
