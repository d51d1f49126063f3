/** The crontab document: managed tasks, each a header line and an entry line, among lines that belong to others. */
module CronDocument {
  import opened Wrappers
  import opened CronText

  datatype CronTask = CronTask(id: string, expression: string, command: string, enabled: bool)

  const PREFIX := "# snowpanel:id="
  const MARKER := ";enabled="

  function ParseHeader(line: string): Option<(string, bool)> {
    if !(PREFIX <= line) then None
    else
      var parts := SplitOnce(TrimStartMatches(line, PREFIX), MARKER);
      if parts.None? then None
      else
        var flag := Trim(parts.value.1);
        Some((Trim(parts.value.0), flag == "1" || flag == "true"))
  }

  /** The trimmed line without one leading `#`. */
  function Uncommented(line: string): string {
    var body := Trim(line);
    if body != [] && body[0] == '#' then TrimStart(body[1..]) else body
  }

  predicate Commented(line: string) {
    Trim(line) != [] && Trim(line)[0] == '#'
  }

  function ParseTaskLine(line: string, id: string, enabled: bool): Option<CronTask> {
    var parts := Words(Uncommented(line));
    if |parts| < 6 then None
    else Some(CronTask(id, Unwords(parts[..5]), Unwords(parts[5..]), enabled && !Commented(line)))
  }

  predicate HeaderShaped(line: string) { ParseHeader(line).Some? }

  predicate TaskShaped(line: string) { |Words(Uncommented(line))| >= 6 }

  /** Foreign lines and managed tasks of a document, each in order. */
  function ParseLines(lines: seq<string>): (seq<string>, seq<CronTask>)
    decreases |lines|
  {
    if lines == [] then ([], [])
    else
      var header := ParseHeader(lines[0]);
      if header.None? then
        var rest := ParseLines(lines[1..]);
        ([lines[0]] + rest.0, rest.1)
      else if |lines| == 1 then (lines, [])
      else
        var task := ParseTaskLine(lines[1], header.value.0, header.value.1);
        var rest := ParseLines(lines[2..]);
        if task.Some? then (rest.0, [task.value] + rest.1) else ([lines[0], lines[1]] + rest.0, rest.1)
  }

  function Blank(line: string): bool { Trim(line) == [] }

  function NonBlank(lines: seq<string>): (kept: seq<string>)
    ensures forall i :: 0 <= i < |kept| ==> kept[i] in lines && !Blank(kept[i])
  {
    if lines == [] then []
    else (if Blank(lines[0]) then [] else [lines[0]]) + NonBlank(lines[1..])
  }

  function HeaderLine(t: CronTask): string {
    PREFIX + t.id + MARKER + (if t.enabled then "1" else "0")
  }

  function EntryLine(t: CronTask): string {
    if t.enabled then t.expression + " " + t.command else "# " + (t.expression + " " + t.command)
  }

  function TaskLines(tasks: seq<CronTask>): seq<string> {
    if tasks == [] then [] else [HeaderLine(tasks[0]), EntryLine(tasks[0])] + TaskLines(tasks[1..])
  }

  /** The kept foreign lines, with the separator that closes them. */
  function ForeignBlock(others: seq<string>): seq<string> {
    var kept := NonBlank(others);
    if kept == [] then [] else kept + [""]
  }

  function RenderLines(others: seq<string>, tasks: seq<CronTask>): seq<string> {
    ForeignBlock(others) + TaskLines(tasks)
  }

  function Render(others: seq<string>, tasks: seq<CronTask>): string {
    var lines := RenderLines(others, tasks);
    if lines == [] then "" else Join(lines, "\n") + "\n"
  }

  function Parse(content: string): (seq<string>, seq<CronTask>) {
    ParseLines(Lines(content))
  }

  // ---- the loops ----

  method ParseDocument(content: string) returns (others: seq<string>, tasks: seq<CronTask>)
    ensures others == Parse(content).0 && tasks == Parse(content).1
  {
    hide ParseHeader, ParseTaskLine, Lines;
    var lines := Lines(content);
    others, tasks := [], [];
    var i := 0;
    assert lines[0..] == lines;
    while i < |lines|
      invariant i <= |lines|
      invariant Parse(content).0 == others + ParseLines(lines[i..]).0
      invariant Parse(content).1 == tasks + ParseLines(lines[i..]).1
    {
      var line := lines[i];
      i := i + 1;
      assert lines[i - 1..][1..] == lines[i..];
      var header := ParseHeader(line);
      if header.Some? {
        if i < |lines| {
          var entry := lines[i];
          i := i + 1;
          assert lines[i - 2..][2..] == lines[i..];
          var task := ParseTaskLine(entry, header.value.0, header.value.1);
          if task.Some? {
            tasks := tasks + [task.value];
            continue;
          }
          others := others + [line];
          others := others + [entry];
          continue;
        }
        others := others + [line];
        continue;
      }
      others := others + [line];
    }
    assert lines[i..] == [];
  }

  method RenderDocument(others: seq<string>, tasks: seq<CronTask>) returns (text: string)
    ensures text == Render(others, tasks)
  {
    var lines: seq<string> := [];
    for i := 0 to |others|
      invariant lines == NonBlank(others[..i])
    {
      NonBlankSnoc(others, i);
      if !Blank(others[i]) {
        lines := lines + [others[i]];
      }
    }
    assert others[..|others|] == others;
    if lines != [] {
      lines := lines + [""];
    }
    ghost var block := ForeignBlock(others);
    assert tasks[..0] == [];
    for i := 0 to |tasks|
      invariant lines == block + TaskLines(tasks[..i])
    {
      TaskLinesSnoc(tasks, i);
      lines := lines + [HeaderLine(tasks[i])];
      lines := lines + [EntryLine(tasks[i])];
    }
    assert tasks[..|tasks|] == tasks;
    if lines == [] {
      text := "";
    } else {
      text := Join(lines, "\n") + "\n";
    }
  }

  lemma {:induction false} NonBlankAppend(a: seq<string>, b: seq<string>)
    ensures NonBlank(a + b) == NonBlank(a) + NonBlank(b)
    decreases |a|
  {
    if a == [] {
      assert a + b == b;
    } else {
      assert (a + b)[1..] == a[1..] + b;
      NonBlankAppend(a[1..], b);
    }
  }

  lemma NonBlankSnoc(lines: seq<string>, i: nat)
    requires i < |lines|
    ensures NonBlank(lines[..i + 1]) == NonBlank(lines[..i]) + (if Blank(lines[i]) then [] else [lines[i]])
  {
    assert lines[..i + 1] == lines[..i] + [lines[i]];
    NonBlankAppend(lines[..i], [lines[i]]);
  }

  lemma {:induction false} TaskLinesAppend(a: seq<CronTask>, b: seq<CronTask>)
    ensures TaskLines(a + b) == TaskLines(a) + TaskLines(b)
    decreases |a|
  {
    if a == [] {
      assert a + b == b;
    } else {
      assert (a + b)[1..] == a[1..] + b;
      TaskLinesAppend(a[1..], b);
    }
  }

  lemma TaskLinesSnoc(tasks: seq<CronTask>, i: nat)
    requires i < |tasks|
    ensures TaskLines(tasks[..i + 1]) == TaskLines(tasks[..i]) + [HeaderLine(tasks[i])] + [EntryLine(tasks[i])]
  {
    assert tasks[..i + 1] == tasks[..i] + [tasks[i]];
    TaskLinesAppend(tasks[..i], [tasks[i]]);
  }
}
