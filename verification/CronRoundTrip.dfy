/** Reading back what was written: which documents survive a rewrite, and exactly when one does not. */
module CronRoundTrip {
  import opened Wrappers
  import opened CronText
  import opened CronDocument

  // ---- foreign lines ----

  /** A header-shaped line that is not itself taken as the entry of the header before it. */
  predicate Opener(lines: seq<string>, i: nat)
    requires i < |lines|
  {
    HeaderShaped(lines[i]) && !(i > 0 && Opener(lines, i - 1))
  }

  /** No opening header is directly followed by a line that looks like an entry. */
  ghost predicate Quiet(lines: seq<string>) {
    forall i: nat :: i + 1 < |lines| && Opener(lines, i) ==> !TaskShaped(lines[i + 1])
  }

  lemma {:induction false} OpenerShift(lines: seq<string>, n: nat, i: nat)
    requires n + i < |lines|
    requires (n == 1 && !HeaderShaped(lines[0])) || (n == 2 && HeaderShaped(lines[0]))
    ensures Opener(lines, n + i) == Opener(lines[n..], i)
    decreases i
  {
    hide HeaderShaped;
    assert lines[n..][i] == lines[n + i];
    if i > 0 {
      OpenerShift(lines, n, i - 1);
    } else if n == 2 {
      assert Opener(lines, 0) && !Opener(lines, 1);
    }
  }

  lemma QuietTail(lines: seq<string>, n: nat)
    requires 1 <= n <= 2 && n <= |lines|
    requires (n == 1 && !HeaderShaped(lines[0])) || (n == 2 && HeaderShaped(lines[0]))
    ensures Quiet(lines) <==> Quiet(lines[n..]) && (n == 2 ==> !TaskShaped(lines[1]))
  {
    hide HeaderShaped, TaskShaped;
    forall i: nat | i + 1 < |lines[n..]|
      ensures Opener(lines, n + i) == Opener(lines[n..], i) && lines[n..][i + 1] == lines[n + i + 1]
    {
      OpenerShift(lines, n, i);
    }
    if Quiet(lines) {
      if n == 2 { assert Opener(lines, 0) && !TaskShaped(lines[0 + 1]); }
      forall i: nat | i + 1 < |lines[n..]| && Opener(lines[n..], i) ensures !TaskShaped(lines[n..][i + 1]) {
        assert Opener(lines, n + i) && !TaskShaped(lines[(n + i) + 1]);
      }
    }
    if Quiet(lines[n..]) && (n == 2 ==> !TaskShaped(lines[1])) {
      forall i: nat | i + 1 < |lines| && Opener(lines, i) ensures !TaskShaped(lines[i + 1]) {
        assert Opener(lines, 0) <==> n == 2;
        if i >= n {
          assert Opener(lines[n..], i - n) && !TaskShaped(lines[n..][(i - n) + 1]);
        }
      }
    }
  }

  /** Lines hold no task exactly when they are quiet, and then all of them are foreign. */
  lemma {:induction false} ParseQuiet(lines: seq<string>)
    ensures ParseLines(lines).1 == [] <==> Quiet(lines)
    ensures Quiet(lines) ==> ParseLines(lines).0 == lines
    decreases |lines|
  {
    hide ParseHeader, ParseTaskLine, TaskShaped;
    if lines == [] {
    } else if !HeaderShaped(lines[0]) {
      hide Quiet;
      QuietTail(lines, 1);
      ParseQuiet(lines[1..]);
    } else if |lines| > 1 {
      hide Quiet;
      QuietTail(lines, 2);
      ParseQuiet(lines[2..]);
      EntryShape(lines[1], ParseHeader(lines[0]).value.0, ParseHeader(lines[0]).value.1);
      assert lines == [lines[0], lines[1]] + lines[2..];
    }
  }

  lemma EntryShape(line: string, id: string, enabled: bool)
    ensures ParseTaskLine(line, id, enabled).Some? <==> TaskShaped(line)
  {
  }

  /** Closed by an empty line, or empty: no header reaches over the end. */
  predicate Closed(lines: seq<string>) {
    lines == [] || lines[|lines| - 1] == ""
  }

  lemma EmptyLine()
    ensures ParseHeader("").None? && !TaskShaped("") && PlainLine("") && Blank("")
    ensures forall id, enabled :: ParseTaskLine("", id, enabled).None?
  {
  }

  /** Reading is compositional over closed blocks. */
  lemma {:induction false} ParseAppend(block: seq<string>, rest: seq<string>)
    requires Closed(block)
    ensures ParseLines(block + rest).0 == ParseLines(block).0 + ParseLines(rest).0
    ensures ParseLines(block + rest).1 == ParseLines(block).1 + ParseLines(rest).1
    decreases |block|
  {
    hide ParseHeader, ParseTaskLine;
    EmptyLine();
    if block == [] {
      assert block + rest == rest;
    } else if ParseHeader(block[0]).None? {
      assert (block + rest)[1..] == block[1..] + rest;
      ParseAppend(block[1..], rest);
    } else {
      assert (block + rest)[2..] == block[2..] + rest;
      ParseAppend(block[2..], rest);
    }
  }

  lemma {:induction false} OpenerPrefix(lines: seq<string>, more: seq<string>, i: nat)
    requires i < |lines|
    ensures Opener(lines + more, i) == Opener(lines, i)
    decreases i
  {
    if i > 0 { OpenerPrefix(lines, more, i - 1); }
  }

  /** The closing empty line changes nothing. */
  lemma QuietClosed(lines: seq<string>)
    ensures Quiet(lines + [""]) <==> Quiet(lines)
  {
    var closed := lines + [""];
    assert !TaskShaped("");
    forall i: nat | i < |lines| ensures Opener(closed, i) == Opener(lines, i) {
      OpenerPrefix(lines, [""], i);
    }
    if Quiet(closed) {
      forall i: nat | i + 1 < |lines| && Opener(lines, i) ensures !TaskShaped(lines[i + 1]) {
        assert Opener(closed, i) && closed[i + 1] == lines[i + 1];
      }
    }
  }

  lemma {:induction false} NonBlankIdempotent(lines: seq<string>)
    requires forall i :: 0 <= i < |lines| ==> !Blank(lines[i])
    ensures NonBlank(lines) == lines
    decreases |lines|
  {
    if lines != [] { NonBlankIdempotent(lines[1..]); }
  }

  /** The blank separator is not kept: the foreign lines of a rewrite are those of the document. */
  lemma ForeignBlockKept(others: seq<string>)
    ensures NonBlank(ForeignBlock(others)) == NonBlank(others)
    ensures ForeignBlock(ForeignBlock(others)) == ForeignBlock(others)
  {
    var kept := NonBlank(others);
    NonBlankIdempotent(kept);
    NonBlankAppend(kept, [""]);
  }

  // ---- tasks ----

  /** An id that a header line gives back. */
  predicate IdOk(id: string) {
    Trim(id) == id && '\n' !in id && Find(id, MARKER).None? && !(PREFIX <= id)
  }

  /** A task as it reads after its white space has been normalised. */
  function Normal(t: CronTask): CronTask {
    t.(expression := Unwords(Words(t.expression)), command := Unwords(Words(t.command)))
  }

  function Normals(tasks: seq<CronTask>): seq<CronTask> {
    seq(|tasks|, i requires 0 <= i < |tasks| => Normal(tasks[i]))
  }

  /** A task whose two lines read back as that task, up to white space in the expression. */
  predicate Renderable(t: CronTask) {
    && IdOk(t.id)
    && |Words(t.expression)| == 5 && '\n' !in t.expression && (t.enabled ==> Words(t.expression)[0][0] != '#')
    && Words(t.command) != [] && t.command == Unwords(Words(t.command))
  }

  predicate AllRenderable(tasks: seq<CronTask>) {
    forall i :: 0 <= i < |tasks| ==> Renderable(tasks[i])
  }

  lemma PrefixEndsAt(id: string, rest: string)
    requires !(PREFIX <= id)
    ensures !(PREFIX <= id + ";" + rest)
  {
    var raw := id + ";" + rest;
    assert forall i :: 0 <= i < |PREFIX| ==> PREFIX[i] != ';';
    if |id| >= |PREFIX| {
      assert raw[..|PREFIX|] == id[..|PREFIX|];
    } else {
      assert raw[|id|] == ';' != PREFIX[|id|];
    }
  }

  lemma PrefixStripped(raw: string)
    requires !(PREFIX <= raw)
    ensures TrimStartMatches(PREFIX + raw, PREFIX) == raw
  {
    assert (PREFIX + raw)[|PREFIX|..] == raw;
  }

  lemma MarkerSplits(id: string, flag: string)
    requires Find(id, MARKER).None?
    ensures SplitOnce(id + MARKER + flag, MARKER) == Some((id, flag))
  {
    hide Find, FirstAt;
    var raw := id + MARKER + flag;
    assert forall i :: 1 <= i < |MARKER| ==> MARKER[i] != MARKER[0];
    FindPast(id, MARKER, flag);
    assert raw[..|id|] == id && raw[|id| + |MARKER|..] == flag;
  }

  lemma HeaderSplit(id: string, flag: string)
    requires IdOk(id) && flag != [] && Snug(flag)
    ensures ParseHeader(PREFIX + id + MARKER + flag) == Some((id, flag == "1" || flag == "true"))
  {
    hide Find, SplitOnce, TrimStartMatches, Trim;
    var raw := id + MARKER + flag;
    PrefixEndsAt(id, MARKER[1..] + flag);
    assert id + ";" + (MARKER[1..] + flag) == raw;
    PrefixStripped(raw);
    assert PREFIX + id + MARKER + flag == PREFIX + raw;
    MarkerSplits(id, flag);
    SnugTrim(flag);
  }

  lemma HeaderReads(t: CronTask)
    requires IdOk(t.id)
    ensures ParseHeader(HeaderLine(t)) == Some((t.id, t.enabled)) && PlainLine(HeaderLine(t))
  {
    HeaderSplit(t.id, if t.enabled then "1" else "0");
    assert '\n' !in PREFIX && '\n' !in MARKER;
  }

  lemma {:induction false} TrimEndCons(c: char, s: string)
    requires !IsSpace(c)
    ensures TrimEnd([c] + s) == [c] + TrimEnd(s)
    decreases |s|
  {
    if s != [] {
      assert ([c] + s)[..|s|] == [c] + s[..|s| - 1];
      if IsSpace(s[|s| - 1]) { TrimEndCons(c, s[..|s| - 1]); }
    }
  }

  /** A commented line has the words that follow the comment sign. */
  lemma CommentedWords(body: string)
    ensures Commented("# " + body) && Words(Uncommented("# " + body)) == Words(body)
  {
    var rest := " " + body;
    assert "# " + body == ['#'] + rest;
    TrimEndCons('#', rest);
    assert Trim("# " + body) == ['#'] + TrimEnd(rest);
    assert (['#'] + TrimEnd(rest))[1..] == TrimEnd(rest);
    WordsTrimStart(TrimEnd(rest));
    WordsTrimEnd(rest);
    assert rest[1..] == body;
  }

  lemma PlainWords(line: string)
    requires Words(line) != [] && Words(line)[0][0] != '#'
    ensures !Commented(line) && Words(Uncommented(line)) == Words(line)
  {
    WordsStart(line);
    WordsTrim(line);
  }

  lemma EntryReads(t: CronTask)
    requires Renderable(t)
    ensures ParseTaskLine(EntryLine(t), t.id, t.enabled) == Some(Normal(t))
  {
    var body := t.expression + " " + t.command;
    WordsAppend(t.expression, ' ', t.command);
    var ws := Words(t.expression) + Words(t.command);
    assert Words(body) == ws && ws[..5] == Words(t.expression) && ws[5..] == Words(t.command);
    if t.enabled { PlainWords(body); } else { CommentedWords(body); }
  }

  lemma EntryPlain(t: CronTask)
    requires Renderable(t)
    ensures PlainLine(EntryLine(t))
  {
    UnwordsSnug(Words(t.command));
    var line := EntryLine(t);
    assert line[|line| - 1] == t.command[|t.command| - 1];
    assert '\n' !in " " && '\n' !in "# ";
  }

  /** A header line with the entry line after it reads as one task. */
  lemma PairReads(header: string, entry: string, id: string, enabled: bool, t: CronTask, rest: seq<string>)
    requires ParseHeader(header) == Some((id, enabled)) && ParseTaskLine(entry, id, enabled) == Some(t)
    ensures ParseLines([header, entry] + rest).0 == ParseLines(rest).0
    ensures ParseLines([header, entry] + rest).1 == [t] + ParseLines(rest).1
  {
    hide ParseHeader, ParseTaskLine;
    assert ([header, entry] + rest)[2..] == rest;
  }

  lemma NoTasks(rest: seq<string>)
    ensures TaskLines([]) + rest == rest && Normals([]) == []
  {
  }

  lemma FirstTaskLines(tasks: seq<CronTask>, rest: seq<string>)
    requires tasks != []
    ensures TaskLines(tasks) + rest == [HeaderLine(tasks[0]), EntryLine(tasks[0])] + (TaskLines(tasks[1..]) + rest)
  {
    hide HeaderLine, EntryLine;
  }

  lemma FirstTaskNormal(tasks: seq<CronTask>)
    requires tasks != []
    ensures Normals(tasks) == [Normal(tasks[0])] + Normals(tasks[1..])
  {
    hide Normal;
  }

  /** The first task's two lines, and the remaining tasks. */
  lemma FirstTask(tasks: seq<CronTask>, rest: seq<string>)
    requires AllRenderable(tasks) && tasks != []
    ensures Renderable(tasks[0]) && IdOk(tasks[0].id) && AllRenderable(tasks[1..])
    ensures TaskLines(tasks) + rest == [HeaderLine(tasks[0]), EntryLine(tasks[0])] + (TaskLines(tasks[1..]) + rest)
    ensures Normals(tasks) == [Normal(tasks[0])] + Normals(tasks[1..])
  {
    hide Normal, HeaderLine, EntryLine, IdOk, TaskLines, Normals, Words, Unwords;
    FirstTaskLines(tasks, rest);
    FirstTaskNormal(tasks);
  }

  lemma {:induction false} TasksRead(tasks: seq<CronTask>, rest: seq<string>)
    requires AllRenderable(tasks)
    ensures ParseLines(TaskLines(tasks) + rest).0 == ParseLines(rest).0
    ensures ParseLines(TaskLines(tasks) + rest).1 == Normals(tasks) + ParseLines(rest).1
    decreases |tasks|
  {
    hide *;
    if tasks == [] {
      NoTasks(rest);
    } else {
      var t := tasks[0];
      var after := TaskLines(tasks[1..]) + rest;
      FirstTask(tasks, rest);
      HeaderReads(t);
      EntryReads(t);
      PairReads(HeaderLine(t), EntryLine(t), t.id, t.enabled, Normal(t), after);
      TasksRead(tasks[1..], rest);
      ConsAppend(Normal(t), Normals(tasks[1..]), ParseLines(rest).1, Normals(tasks));
    }
  }

  lemma {:induction false} TaskLinesPlain(tasks: seq<CronTask>)
    requires AllRenderable(tasks)
    ensures PlainLines(TaskLines(tasks))
    decreases |tasks|
  {
    hide Renderable, PlainLine, HeaderLine, EntryLine, ParseHeader;
    if tasks != [] {
      FirstTask(tasks, []);
      HeaderReads(tasks[0]);
      EntryPlain(tasks[0]);
      TaskLinesPlain(tasks[1..]);
    }
  }

  // ---- documents ----

  lemma RenderTerminated(others: seq<string>, tasks: seq<CronTask>)
    ensures Render(others, tasks) == Terminated(RenderLines(others, tasks))
  {
    if RenderLines(others, tasks) != [] { JoinTerminated(RenderLines(others, tasks)); }
  }

  lemma RenderReadsAsLines(others: seq<string>, tasks: seq<CronTask>)
    requires PlainLines(RenderLines(others, tasks))
    ensures Parse(Render(others, tasks)) == ParseLines(RenderLines(others, tasks))
  {
    var lines := RenderLines(others, tasks);
    RenderTerminated(others, tasks);
    LinesTerminated(lines, "");
    assert Terminated(lines) + "" == Terminated(lines) && lines + Lines("") == lines;
  }

  lemma BlockPlain(others: seq<string>)
    requires PlainLines(NonBlank(others))
    ensures PlainLines(ForeignBlock(others)) && Closed(ForeignBlock(others))
  {
    assert PlainLine("");
  }

  lemma BlockQuiet(others: seq<string>)
    ensures Quiet(ForeignBlock(others)) <==> Quiet(NonBlank(others))
  {
    QuietClosed(NonBlank(others));
  }

  /** What a rewritten document reads as: whatever the foreign block holds, then the tasks, normalised. */
  lemma RenderReads(others: seq<string>, tasks: seq<CronTask>)
    requires PlainLines(NonBlank(others)) && AllRenderable(tasks)
    ensures Parse(Render(others, tasks)).0 == ParseLines(ForeignBlock(others)).0
    ensures Parse(Render(others, tasks)).1 == ParseLines(ForeignBlock(others)).1 + Normals(tasks)
  {
    var block := ForeignBlock(others);
    BlockPlain(others);
    TasksRead(tasks, []);
    TaskLinesPlain(tasks);
    assert TaskLines(tasks) + [] == TaskLines(tasks) && Normals(tasks) + [] == Normals(tasks);
    RenderReadsAsLines(others, tasks);
    ParseAppend(block, TaskLines(tasks));
    assert ParseLines(block).0 + [] == ParseLines(block).0;
  }

  lemma StrippedBlock(others: seq<string>)
    requires NoBreaks(NonBlank(others))
    ensures var block := ForeignBlock(others);
            NoBreaks(block) && Closed(Stripped(block)) && (Stripped(block) == block <==> PlainLines(NonBlank(others)))
  {
    var block := ForeignBlock(others);
    assert PlainLine("");
    if PlainLines(NonBlank(others)) {
      assert PlainLines(block);
    } else {
      var i :| 0 <= i < |NonBlank(others)| && !PlainLine(NonBlank(others)[i]);
      assert !PlainLine(block[i]);
    }
  }

  /** A rewritten document, read back line by line. */
  lemma RenderReadsStripped(others: seq<string>, tasks: seq<CronTask>)
    requires NoBreaks(NonBlank(others)) && AllRenderable(tasks)
    ensures Parse(Render(others, tasks)) == ParseLines(Stripped(ForeignBlock(others)) + TaskLines(tasks))
  {
    hide ParseLines, StripReturn, Lines, PlainLine, Renderable, Stripped;
    var block := ForeignBlock(others);
    StrippedBlock(others);
    TaskLinesPlain(tasks);
    RenderTerminated(others, tasks);
    TerminatedAppend(block, TaskLines(tasks));
    LinesStripped(block, Terminated(TaskLines(tasks)));
    LinesTerminated(TaskLines(tasks), "");
    NoLines();
    assert Terminated(TaskLines(tasks)) + "" == Terminated(TaskLines(tasks));
    assert TaskLines(tasks) + [] == TaskLines(tasks);
  }

  lemma NoLines()
    ensures Lines("") == []
  {
  }

  /**
   The round trip. With readable tasks, a written document reads back as exactly its non-blank foreign lines, closed by
   one blank line if there are any, and its tasks, if and only if no foreign line ends with a carriage return and no
   foreign header-shaped line has come to stand directly before a foreign entry-shaped line.
   */
  lemma RoundTrip(others: seq<string>, tasks: seq<CronTask>)
    requires NoBreaks(NonBlank(others)) && AllRenderable(tasks)
    ensures Parse(Render(others, tasks)) == (ForeignBlock(others), Normals(tasks))
            <==> PlainLines(NonBlank(others)) && Quiet(NonBlank(others))
  {
    hide ParseLines, Render, Parse, PlainLines, Quiet, Renderable, Normal, Stripped, ForeignBlock;
    var block := Stripped(ForeignBlock(others));
    StrippedBlock(others);
    RenderReadsStripped(others, tasks);
    TasksRead(tasks, []);
    NothingParsed();
    assert TaskLines(tasks) + [] == TaskLines(tasks) && Normals(tasks) + [] == Normals(tasks);
    ParseAppend(block, TaskLines(tasks));
    assert ParseLines(block).0 + [] == ParseLines(block).0;
    ParseQuiet(block);
    BlockQuiet(others);
    assert ParseLines(block).1 + Normals(tasks) == Normals(tasks) <==> ParseLines(block).1 == [];
  }

  lemma NothingParsed()
    ensures ParseLines([]) == ([], [])
  {
  }

  /** The lines that any text is read into have no line ends in them. */
  lemma {:induction false} ForeignNoBreaks(lines: seq<string>)
    requires NoBreaks(lines)
    ensures NoBreaks(ParseLines(lines).0) && NoBreaks(NonBlank(ParseLines(lines).0))
    decreases |lines|
  {
    hide ParseHeader, ParseTaskLine, Blank;
    if lines == [] {
    } else if ParseHeader(lines[0]).None? || |lines| == 1 {
      ForeignNoBreaks(lines[1..]);
    } else {
      ForeignNoBreaks(lines[2..]);
    }
    KeptNoBreaks(ParseLines(lines).0);
  }

  lemma KeptNoBreaks(lines: seq<string>)
    requires NoBreaks(lines)
    ensures NoBreaks(NonBlank(lines))
  {
    hide Blank;
    forall i | 0 <= i < |NonBlank(lines)| ensures '\n' !in NonBlank(lines)[i] {
      assert NonBlank(lines)[i] in lines;
    }
  }

  /** The same for a rewrite of any text at all whose tasks are readable. */
  lemma RewriteKeepsAnyText(text: string)
    requires AllRenderable(Parse(text).1)
    ensures var (others, tasks) := Parse(text);
            Parse(Render(others, tasks)) == (ForeignBlock(others), Normals(tasks))
            <==> PlainLines(NonBlank(others)) && Quiet(NonBlank(others))
  {
    hide ParseLines, Lines, Render, PlainLines, Quiet, Renderable, Normal, ForeignBlock;
    LinesHaveNoNewline(text);
    ForeignNoBreaks(Lines(text));
    RoundTrip(Parse(text).0, Parse(text).1);
  }

  lemma EntryNotHeader(t: CronTask)
    requires Renderable(t) && t.enabled
    ensures ParseHeader(EntryLine(t)).None? && !Blank(EntryLine(t))
  {
    WordsAppend(t.expression, ' ', t.command);
    PlainWords(EntryLine(t));
    WordsStart(EntryLine(t));
  }

  lemma HeaderNotBlank(t: CronTask)
    ensures !Blank(HeaderLine(t))
  {
    assert HeaderLine(t)[0] == '#';
    TrimEndKeepsFirst(HeaderLine(t));
  }

  lemma SeparatedReads(header: string, entry: string)
    requires ParseHeader(header).Some? && ParseHeader(entry).None?
    ensures ParseLines([header, "", entry]) == ([header, "", entry], [])
  {
    hide ParseHeader, ParseTaskLine;
    EmptyLine();
    var lines := [header, "", entry];
    assert lines[2..] == [entry] && [entry][1..] == [] && [entry] + [] == [entry];
    assert ParseLines([entry]).0 == [entry] && ParseLines([entry]).1 == [];
    assert [header, ""] + [entry] == lines;
  }

  lemma SeparatedBlock(header: string, entry: string)
    requires !Blank(header) && !Blank(entry)
    ensures NonBlank([header, "", entry]) == [header, entry]
    ensures ForeignBlock([header, "", entry]) == [header, entry] + [""]
  {
    hide Blank;
    EmptyLine();
    assert [header, "", entry][1..] == ["", entry] && ["", entry][1..] == [entry] && [entry][1..] == [];
    assert NonBlank([]) == [] && NonBlank([entry]) == [entry] && NonBlank(["", entry]) == [entry];
  }

  lemma ClosingLine()
    ensures ParseLines([""]).1 == []
  {
    EmptyLine();
    assert [""][1..] == [];
  }

  /**
   What a lost blank line can do, for every enabled task: a document in which a blank line separates its header from
   its entry holds no task, but the first rewrite drops the blank line, and the next reading finds the task.
   */
  lemma BlankLineLostMakesTask(t: CronTask)
    requires Renderable(t) && t.enabled
    ensures var text := Terminated([HeaderLine(t), "", EntryLine(t)]);
            && Parse(text) == ([HeaderLine(t), "", EntryLine(t)], [])
            && Parse(Render(Parse(text).0, Parse(text).1)).1 == [Normal(t)]
  {
    hide ParseHeader, ParseTaskLine, HeaderLine, EntryLine, PlainLine, Normal, ForeignBlock, NonBlank, ParseLines,
      Terminated, Render;
    var header, entry := HeaderLine(t), EntryLine(t);
    var lines := [header, "", entry];
    EmptyLine();
    assert IdOk(t.id);
    HeaderReads(t);
    EntryReads(t);
    EntryPlain(t);
    EntryNotHeader(t);
    HeaderNotBlank(t);
    LinesTerminated(lines, "");
    assert Terminated(lines) + "" == Terminated(lines) && Lines(Terminated(lines)) == lines;
    SeparatedReads(header, entry);
    SeparatedBlock(header, entry);
    RenderReads(lines, []);
    PairReads(header, entry, t.id, t.enabled, Normal(t), [""]);
    ClosingLine();
    assert Normals([]) == [];
  }
}
