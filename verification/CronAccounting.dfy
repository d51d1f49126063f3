/** What reading does with every line of any text, and which single tasks storage preserves. */
module CronAccounting {
  import opened Wrappers
  import opened CronText
  import opened CronDocument
  import opened CronRoundTrip

  /** One unit of a document: a line of somebody else's, or the two lines of a task. */
  datatype Item = Other(line: string) | Managed(header: string, entry: string, task: CronTask)

  function LinesOf(items: seq<Item>): seq<string> {
    if items == [] then []
    else (match items[0] case Other(l) => [l] case Managed(h, e, _) => [h, e]) + LinesOf(items[1..])
  }

  function OthersOf(items: seq<Item>): seq<string> {
    if items == [] then [] else (if items[0].Other? then [items[0].line] else []) + OthersOf(items[1..])
  }

  function TasksOf(items: seq<Item>): seq<CronTask> {
    if items == [] then [] else (if items[0].Managed? then [items[0].task] else []) + TasksOf(items[1..])
  }

  /** The task of a managed item is what its two lines say. */
  predicate Faithful(item: Item) {
    item.Managed? ==>
      && ParseHeader(item.header).Some?
      && var h := ParseHeader(item.header).value;
         ParseTaskLine(item.entry, h.0, h.1) == Some(item.task)
  }

  /**
   Reading consumes every line exactly once: the lines are an order-preserving mix of the foreign lines and of the
   header and entry of each task, and each task is what its two lines say.
   */
  lemma {:induction false} EveryLineAccounted(lines: seq<string>) returns (items: seq<Item>)
    ensures LinesOf(items) == lines
    ensures OthersOf(items) == ParseLines(lines).0 && TasksOf(items) == ParseLines(lines).1
    ensures forall i :: 0 <= i < |items| ==> Faithful(items[i])
    ensures |lines| == |ParseLines(lines).0| + 2 * |ParseLines(lines).1|
    decreases |lines|
  {
    hide ParseHeader, ParseTaskLine, LinesOf, OthersOf, TasksOf;
    if lines == [] {
      items := [];
      NoItems();
    } else if ParseHeader(lines[0]).None? || |lines| == 1 {
      var rest := EveryLineAccounted(lines[1..]);
      items := [Other(lines[0])] + rest;
      OneMore(Other(lines[0]), rest);
    } else {
      var h := ParseHeader(lines[0]).value;
      var task := ParseTaskLine(lines[1], h.0, h.1);
      var rest := EveryLineAccounted(lines[2..]);
      assert lines == [lines[0], lines[1]] + lines[2..];
      if task.Some? {
        items := [Managed(lines[0], lines[1], task.value)] + rest;
        OneMore(Managed(lines[0], lines[1], task.value), rest);
      } else {
        items := [Other(lines[0])] + ([Other(lines[1])] + rest);
        OneMore(Other(lines[1]), rest);
        OneMore(Other(lines[0]), [Other(lines[1])] + rest);
        assert [lines[0]] + ([lines[1]] + lines[2..]) == lines;
        assert [lines[0]] + ([lines[1]] + ParseLines(lines[2..]).0) == [lines[0], lines[1]] + ParseLines(lines[2..]).0;
      }
    }
  }

  lemma NoItems()
    ensures LinesOf([]) == [] && OthersOf([]) == [] && TasksOf([]) == []
  {
  }

  lemma OneMore(item: Item, rest: seq<Item>)
    ensures LinesOf([item] + rest) == (if item.Other? then [item.line] else [item.header, item.entry]) + LinesOf(rest)
    ensures OthersOf([item] + rest) == (if item.Other? then [item.line] else []) + OthersOf(rest)
    ensures TasksOf([item] + rest) == (if item.Managed? then [item.task] else []) + TasksOf(rest)
  {
    assert ([item] + rest)[1..] == rest;
  }

  /**
   A header line with any id, any flag and any entry after it: the task is enabled if and only if the flag says so, as
   `1` or `true` up to white space, and the entry is not commented out.
   */
  lemma EnabledIffBoth(id: string, flag: string, entry: string, rest: seq<string>)
    requires IdOk(id) && TaskShaped(entry)
    ensures var tasks := ParseLines([PREFIX + id + MARKER + flag, entry] + rest).1;
            && tasks != [] && tasks[0].id == id
            && (tasks[0].enabled <==> (Trim(flag) == "1" || Trim(flag) == "true") && !Commented(entry))
  {
    hide Find, SplitOnce, TrimStartMatches, Trim, Words, Commented, Uncommented;
    var raw := id + MARKER + flag;
    PrefixEndsAt(id, MARKER[1..] + flag);
    assert id + ";" + (MARKER[1..] + flag) == raw;
    PrefixStripped(raw);
    assert PREFIX + id + MARKER + flag == PREFIX + raw;
    MarkerSplits(id, flag);
    EntryShape(entry, id, ParseHeader(PREFIX + raw).value.1);
    assert ([PREFIX + raw, entry] + rest)[2..] == rest;
  }

  // ---- which tasks survive storage ----

  /** Readable, with single spaces between the words. */
  predicate Canonical(t: CronTask) {
    Renderable(t) && t.expression == Unwords(Words(t.expression))
  }

  lemma {:induction false} FindNoneWithin(s: string, lo: nat, hi: nat, pattern: string)
    requires pattern != [] && lo <= hi <= |s|
    requires forall j :: lo <= j && j + |pattern| <= hi ==> !(pattern <= s[j..])
    ensures Find(s[lo..hi], pattern).None?
    decreases hi - lo
  {
    if lo < hi {
      FindNoneWithin(s, lo + 1, hi, pattern);
      assert s[lo..hi][1..] == s[lo + 1..hi];
      if lo + |pattern| <= hi {
        assert s[lo..hi][..|pattern|] == s[lo..][..|pattern|];
        assert !(pattern <= s[lo..]);
      }
    }
  }

  /** Trimming takes a contiguous part of the text. */
  lemma {:induction false} TrimIsPart(s: string) returns (lo: nat, hi: nat)
    ensures lo <= hi <= |s| && Trim(s) == s[lo..hi]
    decreases |s|
  {
    if s != [] && IsSpace(s[0]) {
      lo, hi := TrimIsPart(s[1..]);
      lo, hi := lo + 1, hi + 1;
    } else {
      TrimEndTail(s);
      lo, hi := 0, |TrimEnd(s)|;
    }
  }

  lemma {:induction false} TrimStartMatchesTail(s: string, prefix: string)
    requires prefix != []
    ensures |TrimStartMatches(s, prefix)| <= |s|
    ensures '\n' !in s ==> '\n' !in TrimStartMatches(s, prefix)
    decreases |s|
  {
    if prefix <= s { TrimStartMatchesTail(s[|prefix|..], prefix); }
  }

  /** The id that a header line without line ends carries is trimmed and free of the marker. */
  lemma HeaderIds(line: string)
    requires '\n' !in line && ParseHeader(line).Some?
    ensures var id := ParseHeader(line).value.0;
            Trim(id) == id && '\n' !in id && Find(id, MARKER).None?
    ensures |ParseHeader(line).value.0| + |MARKER| <= |TrimStartMatches(line, PREFIX)|
  {
    hide Trim, TrimStartMatches, IsSpace, Find;
    var raw := TrimStartMatches(line, PREFIX);
    TrimStartMatchesTail(line, PREFIX);
    var at := Find(raw, MARKER).value;
    var part := raw[..at];
    TrimSnug(part);
    SnugTrim(Trim(part));
    var lo, hi := TrimIsPart(part);
    assert part[lo..hi] == raw[lo..hi];
    FindNoneWithin(raw, lo, hi, MARKER);
  }

  lemma TaskLineShape(line: string, id: string, enabled: bool)
    requires ParseTaskLine(line, id, enabled).Some?
    ensures var t := ParseTaskLine(line, id, enabled).value;
            && t.id == id
            && |Words(t.expression)| == 5 && t.expression == Unwords(Words(t.expression)) && '\n' !in t.expression
            && Words(t.command) != [] && t.command == Unwords(Words(t.command))
            && (t.enabled ==> !Commented(line))
  {
    var parts := Words(Uncommented(line));
    WordsUnwords(parts[..5]);
    WordsUnwords(parts[5..]);
    UnwordsSnug(parts[..5]);
  }

  /** A header line whose id starts with the header prefix again loses it. */
  lemma PrefixedIdLost(t: CronTask)
    requires PREFIX <= t.id && '\n' !in HeaderLine(t)
    ensures ParseHeader(HeaderLine(t)).Some? ==> ParseHeader(HeaderLine(t)).value.0 != t.id
  {
    var flag := if t.enabled then "1" else "0";
    var line := HeaderLine(t);
    var once := t.id + MARKER + flag;
    assert line[|PREFIX|..] == once;
    var twice := once[|PREFIX|..];
    assert TrimStartMatches(line, PREFIX) == TrimStartMatches(once, PREFIX) == TrimStartMatches(twice, PREFIX);
    TrimStartMatchesTail(twice, PREFIX);
    if ParseHeader(line).Some? { HeaderIds(line); }
  }

  lemma CanonicalSurvives(t: CronTask)
    requires Canonical(t)
    ensures Parse(Render([], [t])) == ([], [t])
  {
    RenderReads([], [t]);
    assert Normals([t]) == [t];
    assert [] + [t] == [t];
  }

  lemma RenderOne(t: CronTask)
    requires '\n' !in t.id
    ensures Render([], [t]) == HeaderLine(t) + "\n" + (EntryLine(t) + "\n")
    ensures Lines(Render([], [t])) == [HeaderLine(t)] + Lines(EntryLine(t) + "\n")
  {
    assert TaskLines([t]) == [HeaderLine(t), EntryLine(t)];
    RenderTerminated([], [t]);
    assert RenderLines([], [t]) == [HeaderLine(t), EntryLine(t)];
    assert [HeaderLine(t), EntryLine(t)][1..] == [EntryLine(t)];
    assert Terminated([EntryLine(t)]) == EntryLine(t) + "\n" + Terminated([]) == EntryLine(t) + "\n";
    HeaderPlain(t);
    LinesStep(HeaderLine(t), EntryLine(t) + "\n");
  }

  lemma HeaderPlain(t: CronTask)
    requires '\n' !in t.id
    ensures PlainLine(HeaderLine(t))
  {
    assert '\n' !in PREFIX && '\n' !in MARKER;
  }

  /** Whatever a lone document reads as, if it holds one task and nothing else its first two lines are that task's. */
  lemma LoneTask(lines: seq<string>, t: CronTask)
    requires ParseLines(lines) == ([], [t])
    ensures |lines| >= 2 && ParseHeader(lines[0]).Some?
    ensures var h := ParseHeader(lines[0]).value; ParseTaskLine(lines[1], h.0, h.1) == Some(t) && h.0 == t.id
  {
    hide ParseHeader;
  }

  lemma SurvivorsCanonical(t: CronTask)
    requires Parse(Render([], [t])) == ([], [t]) && '\n' !in t.id
    ensures Canonical(t)
  {
    hide ParseHeader, ParseTaskLine, TrimStartMatches, Find, Words, Unwords, HeaderLine, EntryLine, Commented,
      Uncommented, PlainLine, Trim;
    var lines := Lines(Render([], [t]));
    RenderOne(t);
    LoneTask(lines, t);
    HeaderPlain(t);
    assert '\n' !in HeaderLine(t) by { PlainHasNoNewline(HeaderLine(t)); }
    HeaderIds(HeaderLine(t));
    if PREFIX <= t.id { PrefixedIdLost(t); }
    var h := ParseHeader(lines[0]).value;
    TaskLineShape(lines[1], h.0, h.1);
    if t.enabled { EnabledEntry(t, lines[1]); }
  }

  lemma PlainHasNoNewline(line: string)
    requires PlainLine(line)
    ensures '\n' !in line
  {
  }

  lemma EnabledEntry(t: CronTask, line: string)
    requires t.enabled && |Words(t.expression)| == 5 && '\n' !in t.expression
    requires t.command == Unwords(Words(t.command)) && Words(t.command) != []
    requires Lines(EntryLine(t) + "\n") != [] && line == Lines(EntryLine(t) + "\n")[0] && !Commented(line)
    ensures Words(t.expression)[0][0] != '#'
  {
    var entry := EntryLine(t);
    UnwordsSnug(Words(t.command));
    assert entry[|entry| - 1] == t.command[|t.command| - 1];
    assert '\n' !in entry;
    assert entry + "\n" + "" == entry + "\n";
    LinesStep(entry, "");
    assert line == entry;
    WordsAppend(t.expression, ' ', t.command);
    WordsStart(entry);
  }

  /** An id with a line end never reads back: the header line is cut short. */
  lemma BrokenIdLost(t: CronTask)
    requires '\n' in t.id
    ensures Parse(Render([], [t])) != ([], [t])
  {
    hide ParseTaskLine, HeaderLine, EntryLine, Words, Unwords, Find, Trim, TrimStartMatches;
    var lines := Lines(Render([], [t]));
    LinesHaveNoNewline(Render([], [t]));
    if ParseLines(lines) == ([], [t]) {
      LoneTask(lines, t);
      HeaderIds(lines[0]);
      assert false;
    }
  }

  /** Storage preserves a task, whatever strings it is made of, exactly when it is canonical. */
  lemma SurvivesIffCanonical(t: CronTask)
    ensures Parse(Render([], [t])) == ([], [t]) <==> Canonical(t)
  {
    hide Parse, Render;
    if Canonical(t) {
      CanonicalSurvives(t);
    } else if '\n' in t.id {
      BrokenIdLost(t);
    } else if Parse(Render([], [t])) == ([], [t]) {
      SurvivorsCanonical(t);
    }
  }
}
