/** The crontab service: each operation reads the stored text, edits the task list and writes the text back. */
module CronService {
  import opened Wrappers
  import opened CronText
  import opened CronDocument
  import Decimal

  datatype CronError = BadRequest | NotFound | CommandFailed

  /** The two calls of the `crontab` program may fail; a failed write leaves the stored text as it was. */
  datatype Io = Io(readFails: bool, writeFails: bool)

  datatype CronOp =
    | Create(expression: string, command: string, enabled: bool, millis: nat)
    | Update(id: string, expression: string, command: string, enabled: bool)
    | Delete(id: string)
    | SetEnabled(id: string, enabled: bool)

  // ---- validation ----

  predicate IsAlphanumeric(c: char) { '0' <= c <= '9' || 'A' <= c <= 'Z' || 'a' <= c <= 'z' }

  predicate FieldChar(c: char) { IsAlphanumeric(c) || c == '*' || c == '/' || c == ',' || c == '-' }

  predicate CommandChar(c: char) { IsAlphanumeric(c) || c == '-' || c == '_' || c == '.' || c == '/' }

  predicate IdChar(c: char) { IsAlphanumeric(c) || c == '-' || c == '_' }

  predicate ValidExpression(raw: string) {
    var parts := Words(Trim(raw));
    && |parts| == 5
    && forall i, j :: 0 <= i < 5 && 0 <= j < |parts[i]| ==> FieldChar(parts[i][j])
  }

  predicate ValidCommand(raw: string, allowed: set<string>) {
    var command := Trim(raw);
    && command != []
    && |command| <= 1024
    && (forall i :: 0 <= i < |command| ==> CommandChar(command[i]))
    && command in allowed
  }

  predicate ValidId(raw: string) {
    var id := Trim(raw);
    id != [] && forall i :: 0 <= i < |id| ==> IdChar(id[i])
  }

  predicate Valid(op: CronOp, allowed: set<string>) {
    match op
    case Create(expression, command, _, _) => ValidExpression(expression) && ValidCommand(command, allowed)
    case Update(id, expression, command, _) =>
      ValidId(id) && ValidExpression(expression) && ValidCommand(command, allowed)
    case Delete(id) => ValidId(id)
    case SetEnabled(id, _) => ValidId(id)
  }

  // What is refused, told from outside; the contracts of the service use these.

  predicate LetterOrDigit(c: char) { ('a' <= c <= 'z') || ('A' <= c <= 'Z') || ('0' <= c <= '9') }

  /** Not exactly five fields, or a character that no field may hold. */
  predicate BadExpression(raw: string) {
    var fields := Words(Trim(raw));
    || |fields| != 5
    || exists i, j :: 0 <= i < |fields| && 0 <= j < |fields[i]|
                      && !LetterOrDigit(fields[i][j]) && fields[i][j] !in ['*', ',', '-', '/']
  }

  /** Empty, too long, with a character that is not permitted, or not on the allow-list. */
  predicate BadCommand(raw: string, allowed: set<string>) {
    var command := Trim(raw);
    || command == "" || |command| > 1024 || command !in allowed
    || exists i :: 0 <= i < |command| && !LetterOrDigit(command[i]) && command[i] !in ['-', '.', '/', '_']
  }

  predicate BadId(raw: string) {
    var id := Trim(raw);
    id == "" || exists i :: 0 <= i < |id| && !LetterOrDigit(id[i]) && id[i] !in ['-', '_']
  }

  lemma RefusedExpression(raw: string)
    ensures BadExpression(raw) <==> !ValidExpression(raw)
  {
    hide Words, Trim;
    var fields := Words(Trim(raw));
    assert forall c :: FieldChar(c) <==> LetterOrDigit(c) || c in ['*', ',', '-', '/'];
    if !ValidExpression(raw) && |fields| == 5 {
      var i, j :| 0 <= i < 5 && 0 <= j < |fields[i]| && !FieldChar(fields[i][j]);
      assert !LetterOrDigit(fields[i][j]);
    }
  }

  lemma RefusedCommand(raw: string, allowed: set<string>)
    ensures BadCommand(raw, allowed) <==> !ValidCommand(raw, allowed)
  {
    hide Trim;
    assert forall c :: CommandChar(c) <==> LetterOrDigit(c) || c in ['-', '.', '/', '_'];
  }

  lemma RefusedId(raw: string)
    ensures BadId(raw) <==> !ValidId(raw)
  {
    hide Trim;
    assert forall c :: IdChar(c) <==> LetterOrDigit(c) || c in ['-', '_'];
  }

  function GenerateTaskId(millis: nat): string { "task-" + Decimal.Print(millis) }

  // ---- edits of the task list ----

  /** The first task with the id. */
  function FindTask(tasks: seq<CronTask>, id: string): (at: Option<nat>)
    ensures at.Some? ==> at.value < |tasks| && tasks[at.value].id == id
                         && forall i :: 0 <= i < at.value ==> tasks[i].id != id
    ensures at.None? ==> forall i :: 0 <= i < |tasks| ==> tasks[i].id != id
  {
    if tasks == [] then None
    else if tasks[0].id == id then Some(0)
    else
      var later := FindTask(tasks[1..], id);
      if later.Some? then Some(later.value + 1) else None
  }

  /** The tasks with other ids. */
  function Without(tasks: seq<CronTask>, id: string): seq<CronTask> {
    if tasks == [] then []
    else (if tasks[0].id == id then [] else [tasks[0]]) + Without(tasks[1..], id)
  }

  lemma {:induction false} WithoutFewer(tasks: seq<CronTask>, id: string)
    ensures |Without(tasks, id)| <= |tasks|
    ensures |Without(tasks, id)| == |tasks| <==> forall t :: t in tasks ==> t.id != id
    decreases |tasks|
  {
    if tasks != [] {
      WithoutFewer(tasks[1..], id);
      assert tasks == [tasks[0]] + tasks[1..];
    }
  }

  /** The edited list, and the task to report, unless no task has the id. */
  function Edit(tasks: seq<CronTask>, op: CronOp): Option<(seq<CronTask>, Option<CronTask>)> {
    match op
    case Create(expression, command, enabled, millis) =>
      var t := CronTask(GenerateTaskId(millis), Trim(expression), Trim(command), enabled);
      Some((tasks + [t], Some(t)))
    case Update(id, expression, command, enabled) =>
      var at := FindTask(tasks, id);
      if at.None? then None
      else
        var t := CronTask(id, Trim(expression), Trim(command), enabled);
        Some((tasks[at.value := t], Some(t)))
    case Delete(id) =>
      var rest := Without(tasks, id);
      if |rest| == |tasks| then None else Some((rest, None))
    case SetEnabled(id, enabled) =>
      var at := FindTask(tasks, id);
      if at.None? then None
      else
        var t := tasks[at.value].(enabled := enabled);
        Some((tasks[at.value := t], Some(t)))
  }

  /** The stored text and the answer after one operation. */
  function Exec(text: string, op: CronOp, allowed: set<string>, io: Io): (string, Result<Option<CronTask>, CronError>) {
    if !Valid(op, allowed) then (text, Err(BadRequest))
    else if io.readFails then (text, Err(CommandFailed))
    else
      var edit := Edit(Parse(text).1, op);
      if edit.None? then (text, Err(NotFound))
      else if io.writeFails then (text, Err(CommandFailed))
      else (Render(Parse(text).0, edit.value.0), Ok(edit.value.1))
  }

  // ---- the service ----

  class Service {
    const allowedCommands: set<string>
    var crontab: string

    constructor (allowed: seq<string>, crontab: string)
      ensures this.crontab == crontab
      ensures allowedCommands == set i | 0 <= i < |allowed| && Trim(allowed[i]) != [] :: Trim(allowed[i])
    {
      this.crontab := crontab;
      this.allowedCommands := set i | 0 <= i < |allowed| && Trim(allowed[i]) != [] :: Trim(allowed[i]);
    }

    method ListTasks(io: Io) returns (r: Result<seq<CronTask>, CronError>)
      ensures r == if io.readFails then Err(CommandFailed) else Ok(Parse(crontab).1)
    {
      if io.readFails { return Err(CommandFailed); }
      var others, tasks := ParseDocument(crontab);
      return Ok(tasks);
    }

    method CreateTask(expression: string, command: string, enabled: bool, millis: nat, io: Io)
      returns (r: Result<Option<CronTask>, CronError>)
      modifies this
      ensures (crontab, r) == Exec(old(crontab), Create(expression, command, enabled, millis), allowedCommands, io)
      ensures r == Err(BadRequest) <==> BadExpression(expression) || BadCommand(command, allowedCommands)
      ensures r.Err? ==> crontab == old(crontab)
      ensures r.Ok? ==>
                var t := CronTask("task-" + Decimal.Print(millis), Trim(expression), Trim(command), enabled);
                r.value == Some(t) && crontab == Render(Parse(old(crontab)).0, Parse(old(crontab)).1 + [t])
    {
      hide ValidExpression, ValidCommand, BadExpression, BadCommand, Parse, Render, Trim;
      RefusedExpression(expression);
      RefusedCommand(command, allowedCommands);
      if !ValidExpression(expression) || !ValidCommand(command, allowedCommands) { return Err(BadRequest); }
      if io.readFails { return Err(CommandFailed); }
      var others, tasks := ParseDocument(crontab);
      var task := CronTask(GenerateTaskId(millis), Trim(expression), Trim(command), enabled);
      tasks := tasks + [task];
      r := Apply(others, tasks, Some(task), io);
    }

    method UpdateTask(id: string, expression: string, command: string, enabled: bool, io: Io)
      returns (r: Result<Option<CronTask>, CronError>)
      modifies this
      ensures (crontab, r) == Exec(old(crontab), Update(id, expression, command, enabled), allowedCommands, io)
      ensures r == Err(BadRequest)
              <==> BadId(id) || BadExpression(expression) || BadCommand(command, allowedCommands)
      ensures r.Err? ==> crontab == old(crontab)
      ensures r == Err(NotFound) ==> forall t :: t in Parse(crontab).1 ==> t.id != id
      ensures r.Ok? ==>
                var tasks, t := Parse(old(crontab)).1, CronTask(id, Trim(expression), Trim(command), enabled);
                && r.value == Some(t)
                && exists at :: 0 <= at < |tasks| && tasks[at].id == id
                                && (forall j :: 0 <= j < at ==> tasks[j].id != id)
                                && crontab == Render(Parse(old(crontab)).0, tasks[at := t])
    {
      hide ValidId, ValidExpression, ValidCommand, BadId, BadExpression, BadCommand, Parse, Render, Trim;
      RefusedId(id);
      RefusedExpression(expression);
      RefusedCommand(command, allowedCommands);
      if !ValidId(id) || !ValidExpression(expression) || !ValidCommand(command, allowedCommands) {
        return Err(BadRequest);
      }
      if io.readFails { return Err(CommandFailed); }
      var others, tasks := ParseDocument(crontab);
      var at := Locate(tasks, id);
      if at.None? { return Err(NotFound); }
      var item := tasks[at.value];
      item := item.(expression := Trim(expression));
      item := item.(command := Trim(command));
      item := item.(enabled := enabled);
      tasks := tasks[at.value := item];
      r := Apply(others, tasks, Some(item), io);
    }

    method DeleteTask(id: string, io: Io) returns (r: Result<Option<CronTask>, CronError>)
      modifies this
      ensures (crontab, r) == Exec(old(crontab), Delete(id), allowedCommands, io)
      ensures r == Err(BadRequest) <==> BadId(id)
      ensures r.Err? ==> crontab == old(crontab)
      ensures r == Err(NotFound) ==> forall t :: t in Parse(crontab).1 ==> t.id != id
      ensures r.Ok? ==> r.value == None && exists t :: t in Parse(old(crontab)).1 && t.id == id
    {
      hide ValidId, BadId, Parse, Render;
      RefusedId(id);
      if !ValidId(id) { return Err(BadRequest); }
      if io.readFails { return Err(CommandFailed); }
      var others, tasks := ParseDocument(crontab);
      var kept := Retain(tasks, id);
      WithoutFewer(tasks, id);
      if |kept| == |tasks| { return Err(NotFound); }
      r := Apply(others, kept, None, io);
    }

    method SetTaskEnabled(id: string, enabled: bool, io: Io) returns (r: Result<Option<CronTask>, CronError>)
      modifies this
      ensures (crontab, r) == Exec(old(crontab), SetEnabled(id, enabled), allowedCommands, io)
      ensures r == Err(BadRequest) <==> BadId(id)
      ensures r.Err? ==> crontab == old(crontab)
      ensures r == Err(NotFound) ==> forall t :: t in Parse(crontab).1 ==> t.id != id
      ensures r.Ok? ==>
                var tasks := Parse(old(crontab)).1;
                exists at :: 0 <= at < |tasks| && tasks[at].id == id && (forall j :: 0 <= j < at ==> tasks[j].id != id)
                             && r.value == Some(tasks[at].(enabled := enabled))
                             && crontab == Render(Parse(old(crontab)).0, tasks[at := tasks[at].(enabled := enabled)])
    {
      hide ValidId, BadId, Parse, Render;
      RefusedId(id);
      if !ValidId(id) { return Err(BadRequest); }
      if io.readFails { return Err(CommandFailed); }
      var others, tasks := ParseDocument(crontab);
      var at := Locate(tasks, id);
      if at.None? { return Err(NotFound); }
      var item := tasks[at.value].(enabled := enabled);
      tasks := tasks[at.value := item];
      r := Apply(others, tasks, Some(item), io);
    }

    /** Writes the document back. */
    method Apply(others: seq<string>, tasks: seq<CronTask>, answer: Option<CronTask>, io: Io)
      returns (r: Result<Option<CronTask>, CronError>)
      modifies this
      ensures crontab == if io.writeFails then old(crontab) else Render(others, tasks)
      ensures r == if io.writeFails then Err(CommandFailed) else Ok(answer)
    {
      var next := RenderDocument(others, tasks);
      if io.writeFails { return Err(CommandFailed); }
      crontab := next;
      return Ok(answer);
    }
  }

  method Locate(tasks: seq<CronTask>, id: string) returns (at: Option<nat>)
    ensures at == FindTask(tasks, id)
  {
    for i := 0 to |tasks|
      invariant forall j :: 0 <= j < i ==> tasks[j].id != id
    {
      if tasks[i].id == id { return Some(i); }
    }
    return None;
  }

  method Retain(tasks: seq<CronTask>, id: string) returns (kept: seq<CronTask>)
    ensures kept == Without(tasks, id)
  {
    kept := [];
    assert tasks[0..] == tasks;
    for i := 0 to |tasks|
      invariant kept + Without(tasks[i..], id) == Without(tasks, id)
    {
      assert tasks[i..][1..] == tasks[i + 1..];
      if tasks[i].id != id { kept := kept + [tasks[i]]; }
    }
  }
}
