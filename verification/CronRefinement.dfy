/**
 The stored text as the representation of a plain document: foreign lines that never change, and a list of tasks that
 each operation edits in the obvious way.
 */
module CronRefinement {
  import opened Wrappers
  import opened CronText
  import opened CronDocument
  import opened CronRoundTrip
  import opened CronService
  import Decimal

  datatype Doc = Doc(foreign: seq<string>, tasks: seq<CronTask>)

  /** What the text stands for. */
  function View(text: string): Doc {
    Doc(NonBlank(Parse(text).0), Parse(text).1)
  }

  /** A task that is stored as it is: readable and single-spaced. */
  predicate Storable(t: CronTask) {
    Renderable(t) && Normal(t) == t
  }

  /** The expression itself starts with a comment sign; only a disabled task can be read like this. */
  predicate StartsCommented(t: CronTask) {
    var words := Words(t.expression);
    words != [] && words[0] != [] && words[0][0] == '#'
  }

  ghost predicate WellFormed(doc: Doc) {
    && PlainLines(doc.foreign)
    && Quiet(doc.foreign)
    && (forall i :: 0 <= i < |doc.foreign| ==> !Blank(doc.foreign[i]))
    && (forall i :: 0 <= i < |doc.tasks| ==> Storable(doc.tasks[i]))
  }

  /** The operation on plain documents: append, replace the first match, remove all matches, switch the first match. */
  function Spec(doc: Doc, op: CronOp): Option<Doc> {
    match op
    case Create(expression, command, enabled, millis) =>
      Some(doc.(tasks := doc.tasks
                + [CronTask(GenerateTaskId(millis), Unwords(Words(expression)), Trim(command), enabled)]))
    case Update(id, expression, command, enabled) =>
      var at := FindTask(doc.tasks, id);
      if at.None? then None
      else Some(doc.(tasks := doc.tasks[at.value := CronTask(id, Unwords(Words(expression)), Trim(command), enabled)]))
    case Delete(id) =>
      if exists i :: 0 <= i < |doc.tasks| && doc.tasks[i].id == id
      then Some(doc.(tasks := Without(doc.tasks, id))) else None
    case SetEnabled(id, enabled) =>
      var at := FindTask(doc.tasks, id);
      if at.None? then None
      else Some(doc.(tasks := doc.tasks[at.value := doc.tasks[at.value].(enabled := enabled)]))
  }

  /** The expression contains no line end between its fields. */
  predicate OneLine(op: CronOp) {
    (op.Create? || op.Update?) ==> '\n' !in Trim(op.expression)
  }

  /** Nor does the operation enable a task whose expression starts with a comment sign. */
  predicate Sound(doc: Doc, op: CronOp) {
    OneLine(op)
    && (op.SetEnabled? && op.enabled && FindTask(doc.tasks, op.id).Some? ==>
          !StartsCommented(doc.tasks[FindTask(doc.tasks, op.id).value]))
  }

  // ---- what is written is readable ----

  lemma GeneratedIdOk(millis: nat)
    ensures ValidId(GenerateTaskId(millis)) && IdOk(GenerateTaskId(millis))
  {
    var id := GenerateTaskId(millis);
    assert forall i :: 0 <= i < |id| ==> IdChar(id[i]);
    PlainId(id);
  }

  lemma {:induction false} NoMarker(id: string)
    requires forall i :: 0 <= i < |id| ==> IdChar(id[i])
    ensures Find(id, MARKER).None?
    decreases |id|
  {
    assert MARKER[0] == ';' && !IdChar(';');
    if id != [] { NoMarker(id[1..]); }
  }

  lemma PlainId(id: string)
    requires id != [] && forall i :: 0 <= i < |id| ==> IdChar(id[i])
    ensures IdOk(id) && ValidId(id)
  {
    SnugTrim(id);
    NoMarker(id);
    assert PREFIX[0] == '#' && !IdChar('#');
  }

  lemma CommandReadable(raw: string, allowed: set<string>)
    requires ValidCommand(raw, allowed)
    ensures var c := Trim(raw); Words(c) == [c] && c == Unwords(Words(c))
  {
    var c := Trim(raw);
    forall i | 0 <= i < |c| ensures !IsSpace(c[i]) {
      assert CommandChar(c[i]);
    }
    WordsOfWord(c);
  }

  lemma ExpressionReadable(raw: string)
    requires ValidExpression(raw)
    ensures |Words(Trim(raw))| == 5 && Words(Trim(raw)) == Words(raw) && Words(raw)[0][0] != '#'
    ensures Words(Unwords(Words(raw))) == Words(raw) && '\n' !in Unwords(Words(raw))
  {
    WordsTrim(raw);
    WordsUnwords(Words(raw));
    UnwordsSnug(Words(raw));
    assert FieldChar(Words(raw)[0][0]);
  }

  lemma WrittenTask(id: string, expression: string, command: string, enabled: bool, allowed: set<string>)
    requires IdOk(id) && ValidExpression(expression) && ValidCommand(command, allowed) && '\n' !in Trim(expression)
    ensures var t := CronTask(id, Trim(expression), Trim(command), enabled);
            && Renderable(t)
            && Normal(t) == CronTask(id, Unwords(Words(expression)), Trim(command), enabled)
            && Storable(Normal(t))
  {
    CommandReadable(command, allowed);
    ExpressionReadable(expression);
  }

  lemma {:induction false} WithoutKeeps(tasks: seq<CronTask>, id: string)
    ensures forall t :: t in Without(tasks, id) ==> t in tasks && t.id != id
    ensures forall t :: t in tasks && t.id != id ==> t in Without(tasks, id)
    ensures |Without(tasks, id)| <= |tasks|
    ensures |Without(tasks, id)| == |tasks| <==> forall i :: 0 <= i < |tasks| ==> tasks[i].id != id
    decreases |tasks|
  {
    if tasks != [] {
      WithoutKeeps(tasks[1..], id);
      assert forall i :: 1 <= i < |tasks| ==> tasks[i] == tasks[1..][i - 1];
    }
  }

  lemma NormalsFixed(tasks: seq<CronTask>)
    requires forall i :: 0 <= i < |tasks| ==> Storable(tasks[i])
    ensures AllRenderable(tasks) && Normals(tasks) == tasks
  {
    hide Renderable, Normal;
  }

  /** A written document stands for its foreign lines and its normalised tasks. */
  lemma RenderView(others: seq<string>, tasks: seq<CronTask>)
    requires PlainLines(NonBlank(others)) && Quiet(NonBlank(others)) && AllRenderable(tasks)
    ensures View(Render(others, tasks)) == Doc(NonBlank(others), Normals(tasks))
  {
    hide Parse, Render;
    RoundTrip(others, tasks);
    ForeignBlockKept(others);
  }

  /** `edited` is a list of storable tasks but for one task that is readable. */
  lemma EditReadable(tasks: seq<CronTask>, op: CronOp, allowed: set<string>)
    requires forall i :: 0 <= i < |tasks| ==> Storable(tasks[i])
    requires Valid(op, allowed) && Sound(Doc([], tasks), op)
    ensures Edit(tasks, op).None? <==> Spec(Doc([], tasks), op).None?
    ensures Edit(tasks, op).Some? ==>
              AllRenderable(Edit(tasks, op).value.0)
              && Normals(Edit(tasks, op).value.0) == Spec(Doc([], tasks), op).value.tasks
              && var wanted := Spec(Doc([], tasks), op).value.tasks;
                 forall i :: 0 <= i < |wanted| ==> Storable(wanted[i])
  {
    NormalsFixed(tasks);
    match op
    case Create(expression, command, enabled, millis) =>
      GeneratedIdOk(millis);
      CreateReadable(tasks, op, allowed);
    case Update(id, expression, command, enabled) =>
      if FindTask(tasks, id).Some? { UpdateReadable(tasks, op, allowed); }
    case Delete(id) =>
      DeleteReadable(tasks, op);
    case SetEnabled(id, enabled) =>
      if FindTask(tasks, id).Some? { SwitchReadable(tasks, op); }
  }

  lemma CreateReadable(tasks: seq<CronTask>, op: CronOp, allowed: set<string>)
    requires AllRenderable(tasks) && Normals(tasks) == tasks && forall i :: 0 <= i < |tasks| ==> Storable(tasks[i])
    requires op.Create? && Valid(op, allowed) && OneLine(op) && IdOk(GenerateTaskId(op.millis))
    ensures var edited, wanted := Edit(tasks, op).value.0, Spec(Doc([], tasks), op).value.tasks;
            AllRenderable(edited) && Normals(edited) == wanted
            && forall i :: 0 <= i < |wanted| ==> Storable(wanted[i])
  {
    hide Renderable, Normal, Storable, Words, Unwords, Trim, ValidExpression, ValidCommand, IdOk, GenerateTaskId;
    WrittenTask(GenerateTaskId(op.millis), op.expression, op.command, op.enabled, allowed);
  }

  lemma UpdateReadable(tasks: seq<CronTask>, op: CronOp, allowed: set<string>)
    requires AllRenderable(tasks) && Normals(tasks) == tasks && forall i :: 0 <= i < |tasks| ==> Storable(tasks[i])
    requires op.Update? && Valid(op, allowed) && OneLine(op) && FindTask(tasks, op.id).Some?
    ensures var edited, wanted := Edit(tasks, op).value.0, Spec(Doc([], tasks), op).value.tasks;
            AllRenderable(edited) && Normals(edited) == wanted
            && forall i :: 0 <= i < |wanted| ==> Storable(wanted[i])
  {
    hide Normal, Storable, Words, Unwords, Trim, ValidExpression, ValidCommand, IdOk, GenerateTaskId;
    assert IdOk(op.id) by { assert Renderable(tasks[FindTask(tasks, op.id).value]); }
    hide Renderable;
    WrittenTask(op.id, op.expression, op.command, op.enabled, allowed);
    var at := FindTask(tasks, op.id).value;
    forall i | 0 <= i < |tasks| && i != at ensures Normal(tasks[i]) == tasks[i] {
      assert Normals(tasks)[i] == tasks[i];
    }
  }

  lemma DeleteReadable(tasks: seq<CronTask>, op: CronOp)
    requires AllRenderable(tasks) && Normals(tasks) == tasks && forall i :: 0 <= i < |tasks| ==> Storable(tasks[i])
    requires op.Delete?
    ensures Edit(tasks, op).None? <==> Spec(Doc([], tasks), op).None?
    ensures Edit(tasks, op).Some? ==>
              var edited, wanted := Edit(tasks, op).value.0, Spec(Doc([], tasks), op).value.tasks;
              AllRenderable(edited) && Normals(edited) == wanted
              && forall i :: 0 <= i < |wanted| ==> Storable(wanted[i])
  {
    hide Storable, Renderable, Normal;
    WithoutKeeps(tasks, op.id);
    var rest := Without(tasks, op.id);
    forall i | 0 <= i < |rest| ensures Storable(rest[i]) {
      assert rest[i] in rest;
      assert rest[i] in tasks;
    }
    NormalsFixed(rest);
  }

  lemma SwitchReadable(tasks: seq<CronTask>, op: CronOp)
    requires AllRenderable(tasks) && Normals(tasks) == tasks && forall i :: 0 <= i < |tasks| ==> Storable(tasks[i])
    requires op.SetEnabled? && FindTask(tasks, op.id).Some? && Sound(Doc([], tasks), op)
    ensures var edited, wanted := Edit(tasks, op).value.0, Spec(Doc([], tasks), op).value.tasks;
            AllRenderable(edited) && Normals(edited) == wanted
            && forall i :: 0 <= i < |wanted| ==> Storable(wanted[i])
  {
    var at := FindTask(tasks, op.id).value;
    var edited := tasks[at := tasks[at].(enabled := op.enabled)];
    SwitchedStorable(tasks[at], op.enabled);
    hide Storable;
    NormalsFixed(edited);
  }

  lemma SwitchedStorable(t: CronTask, enabled: bool)
    requires Storable(t) && (enabled ==> !StartsCommented(t))
    ensures Storable(t.(enabled := enabled))
  {
  }

  // ---- refinement ----

  /**
   One operation. Unless a call of the crontab program fails, the operation on the text answers like the operation on
   the plain document, leaves the text alone on an error, and otherwise keeps the foreign lines and the good form.
   */
  lemma ExecRefines(text: string, op: CronOp, allowed: set<string>)
    requires WellFormed(View(text)) && Sound(View(text), op)
    ensures var (text', r) := Exec(text, op, allowed, Io(false, false));
            && (r == Err(BadRequest) <==> !Valid(op, allowed))
            && (r == Err(NotFound) <==> Valid(op, allowed) && Spec(View(text), op).None?)
            && (r.Ok? <==> Valid(op, allowed) && Spec(View(text), op).Some?)
            && (r.Err? ==> text' == text)
            && (r.Ok? ==> View(text') == Spec(View(text), op).value)
            && WellFormed(View(text')) && View(text').foreign == View(text).foreign
  {
    hide Parse, Render, Storable, Quiet, PlainLines, Valid, StartsCommented, OneLine;
    if Valid(op, allowed) {
      var others, tasks := Parse(text).0, Parse(text).1;
      assert View(text) == Doc(NonBlank(others), tasks);
      EditReadable(tasks, op, allowed);
      assert Spec(View(text), op).None? <==> Spec(Doc([], tasks), op).None?;
      if Edit(tasks, op).Some? {
        RenderView(others, Edit(tasks, op).value.0);
      }
    }
  }

  /** A run of operations on the text. */
  function ExecAll(text: string, ops: seq<CronOp>, allowed: set<string>): string
    decreases |ops|
  {
    if ops == [] then text else ExecAll(Exec(text, ops[0], allowed, Io(false, false)).0, ops[1..], allowed)
  }

  /** The same run on the plain document; refused operations change nothing. */
  function SpecAll(doc: Doc, ops: seq<CronOp>, allowed: set<string>): Doc
    decreases |ops|
  {
    if ops == [] then doc
    else
      var next := if Valid(ops[0], allowed) then Spec(doc, ops[0]) else None;
      SpecAll(if next.Some? then next.value else doc, ops[1..], allowed)
  }

  /** Every operation is sound on the document that it meets. */
  predicate SoundAll(doc: Doc, ops: seq<CronOp>, allowed: set<string>)
    decreases |ops|
  {
    ops == []
    || (Sound(doc, ops[0]) && SoundAll(SpecAll(doc, ops[..1], allowed), ops[1..], allowed))
  }

  lemma SpecOne(doc: Doc, op: CronOp, allowed: set<string>)
    ensures var next := if Valid(op, allowed) then Spec(doc, op) else None;
            SpecAll(doc, [op], allowed) == if next.Some? then next.value else doc
  {
    hide Valid, Spec;
    assert [op][1..] == [];
  }

  /** Over any sequence of operations the text refines the plain document, and the foreign lines stay as they were. */
  lemma {:induction false} ServiceRefinesDocument(text: string, ops: seq<CronOp>, allowed: set<string>)
    requires WellFormed(View(text)) && SoundAll(View(text), ops, allowed)
    ensures View(ExecAll(text, ops, allowed)) == SpecAll(View(text), ops, allowed)
    ensures WellFormed(View(ExecAll(text, ops, allowed)))
    ensures View(ExecAll(text, ops, allowed)).foreign == View(text).foreign
    decreases |ops|
  {
    hide WellFormed, View, Spec, Valid, Sound, Parse, Render, Edit;
    if ops != [] {
      var (text', r) := Exec(text, ops[0], allowed, Io(false, false));
      ExecRefines(text, ops[0], allowed);
      SpecOne(View(text), ops[0], allowed);
      assert ops[..1] == [ops[0]];
      ServiceRefinesDocument(text', ops[1..], allowed);
    }
  }

  /** The task was in the document, perhaps switched, or its command is on the allow-list. */
  ghost predicate Accounted(t: CronTask, doc: Doc, allowed: set<string>) {
    (exists u :: u in doc.tasks && u.(enabled := t.enabled) == t) || t.command in allowed
  }

  lemma AccountedStep(doc: Doc, op: CronOp, allowed: set<string>)
    requires !BadCommandIn(op, allowed) && Spec(doc, op).Some?
    ensures forall t :: t in Spec(doc, op).value.tasks ==> Accounted(t, doc, allowed)
  {
    hide Words, Unwords, Trim, GenerateTaskId;
    if op.Delete? { WithoutKeeps(doc.tasks, op.id); }
    forall t | t in Spec(doc, op).value.tasks ensures Accounted(t, doc, allowed) {
      if t in doc.tasks { assert t.(enabled := t.enabled) == t; }
      if op.SetEnabled? {
        var u := doc.tasks[FindTask(doc.tasks, op.id).value];
        assert u in doc.tasks && (t == u.(enabled := op.enabled) || t in doc.tasks);
      }
    }
  }

  /** The operation brings a command that is not on the allow-list. */
  predicate BadCommandIn(op: CronOp, allowed: set<string>) {
    (op.Create? || op.Update?) && Trim(op.command) !in allowed
  }

  lemma ValidBringsAllowed(op: CronOp, allowed: set<string>)
    requires Valid(op, allowed)
    ensures !BadCommandIn(op, allowed)
  {
    hide ValidExpression, ValidId, Trim;
  }

  lemma AccountedFurther(t: CronTask, doc: Doc, next: Doc, allowed: set<string>)
    requires Accounted(t, next, allowed) && forall u :: u in next.tasks ==> Accounted(u, doc, allowed)
    ensures Accounted(t, doc, allowed)
  {
    if t.command !in allowed {
      var u :| u in next.tasks && u.(enabled := t.enabled) == t;
      var v :| v in doc.tasks && v.(enabled := u.enabled) == u;
      assert v.(enabled := t.enabled) == t;
    }
  }

  lemma {:induction false} SpecCommandsAllowed(doc: Doc, ops: seq<CronOp>, allowed: set<string>, t: CronTask)
    requires t in SpecAll(doc, ops, allowed).tasks
    ensures Accounted(t, doc, allowed)
    decreases |ops|
  {
    hide Spec, Valid, BadCommandIn;
    if ops == [] {
      assert t.(enabled := t.enabled) == t;
    } else {
      var next := if Valid(ops[0], allowed) then Spec(doc, ops[0]) else None;
      var doc' := if next.Some? then next.value else doc;
      SpecCommandsAllowed(doc', ops[1..], allowed, t);
      if next.Some? {
        ValidBringsAllowed(ops[0], allowed);
        AccountedStep(doc, ops[0], allowed);
        AccountedFurther(t, doc, doc', allowed);
      }
    }
  }

  /**
   Over any sequence of sound operations every task in the text was there before, up to its being enabled, or runs a
   command that is on the allow-list.
   */
  lemma OnlyAllowedCommandsAdded(text: string, ops: seq<CronOp>, allowed: set<string>, t: CronTask)
    requires WellFormed(View(text)) && SoundAll(View(text), ops, allowed)
    requires t in Parse(ExecAll(text, ops, allowed)).1
    ensures (exists u :: u in Parse(text).1 && u.(enabled := t.enabled) == t) || t.command in allowed
  {
    hide Parse, ExecAll, SpecAll, SoundAll, WellFormed;
    ServiceRefinesDocument(text, ops, allowed);
    SpecCommandsAllowed(View(text), ops, allowed, t);
  }

  ghost predicate NoneCommented(doc: Doc) {
    forall t :: t in doc.tasks ==> !StartsCommented(t)
  }

  lemma NoneCommentedStep(doc: Doc, op: CronOp, allowed: set<string>)
    requires NoneCommented(doc) && Valid(op, allowed) && Spec(doc, op).Some?
    ensures NoneCommented(Spec(doc, op).value)
  {
    if op.Create? || op.Update? { ExpressionReadable(op.expression); }
    if op.Delete? { WithoutKeeps(doc.tasks, op.id); }
    hide Valid, Words, Unwords, Trim, Without, GenerateTaskId;
    var next := Spec(doc, op).value.tasks;
    forall t | t in next ensures !StartsCommented(t) {
      if t !in doc.tasks && (op.Update? || op.SetEnabled?) {
        assert doc.tasks[FindTask(doc.tasks, op.id).value] in doc.tasks;
      }
    }
  }

  /** Where no expression starts with a comment sign, operations without a line end inside are sound throughout. */
  lemma {:induction false} UncommentedRunsAreSound(doc: Doc, ops: seq<CronOp>, allowed: set<string>)
    requires NoneCommented(doc) && forall i :: 0 <= i < |ops| ==> OneLine(ops[i])
    ensures SoundAll(doc, ops, allowed)
    decreases |ops|
  {
    hide StartsCommented, Valid, Spec, OneLine;
    if ops != [] {
      if Valid(ops[0], allowed) && Spec(doc, ops[0]).Some? { NoneCommentedStep(doc, ops[0], allowed); }
      SpecOne(doc, ops[0], allowed);
      assert ops[..1] == [ops[0]];
      UncommentedRunsAreSound(SpecAll(doc, ops[..1], allowed), ops[1..], allowed);
      SoundUncommented(doc, ops[0]);
    }
  }

  lemma SoundUncommented(doc: Doc, op: CronOp)
    requires NoneCommented(doc) && OneLine(op)
    ensures Sound(doc, op)
  {
  }

  /** The text after switching the first task with the id. */
  lemma SwitchedText(text: string, id: string, enabled: bool, allowed: set<string>)
    requires ValidId(id) && FindTask(Parse(text).1, id).Some?
    ensures var tasks := Parse(text).1;
            var at := FindTask(tasks, id).value;
            Exec(text, SetEnabled(id, enabled), allowed, Io(false, false)).0
            == Render(Parse(text).0, tasks[at := tasks[at].(enabled := enabled)])
  {
    hide Parse, Render, ValidId;
  }

  // ---- disabled entries with a second comment sign ----

  /** No text whatsoever holds an enabled task with a commented expression. */
  lemma {:induction false} EnabledUncommented(lines: seq<string>)
    ensures forall t :: t in ParseLines(lines).1 && t.enabled ==> !StartsCommented(t)
    decreases |lines|
  {
    hide ParseHeader, ParseTaskLine, StartsCommented;
    if |lines| > 1 && ParseHeader(lines[0]).Some? {
      var h := ParseHeader(lines[0]).value;
      EnabledUncommented(lines[2..]);
      EnabledLine(lines[1], h.0, h.1);
    } else if lines != [] {
      EnabledUncommented(lines[1..]);
    }
  }

  lemma EnabledLine(line: string, id: string, enabled: bool)
    ensures var t := ParseTaskLine(line, id, enabled);
            t.Some? && t.value.enabled ==> !StartsCommented(t.value)
  {
    hide Unwords, Words, Trim;
    var parts := Words(Uncommented(line));
    if |parts| >= 6 {
      WordsUnwords(parts[..5]);
      WordsStart(line);
      WordsTrim(line);
    }
  }

  /**
   Switching a task does what it reports exactly when it is not enabling a task whose stored expression starts with a
   comment sign. Such a task comes from an entry with two of them; enabled, it reads back as another, disabled task.
   */
  lemma SwitchSoundIffUncommented(text: string, id: string, enabled: bool, allowed: set<string>)
    requires WellFormed(View(text)) && ValidId(id) && FindTask(View(text).tasks, id).Some?
    ensures View(Exec(text, SetEnabled(id, enabled), allowed, Io(false, false)).0)
            == Spec(View(text), SetEnabled(id, enabled)).value
            <==> !(enabled && StartsCommented(View(text).tasks[FindTask(View(text).tasks, id).value]))
  {
    hide Parse, Render, Exec, Normal, Renderable, ValidId, PlainLines, Quiet, StartsCommented;
    var others, tasks := Parse(text).0, Parse(text).1;
    var at := FindTask(tasks, id).value;
    if enabled && StartsCommented(tasks[at]) {
      var edited := tasks[at := tasks[at].(enabled := enabled)];
      var text' := Render(others, edited);
      SwitchedText(text, id, enabled, allowed);
      ParseIsLines(text');
      EnabledUncommented(Lines(text'));
      SameExpression(tasks[at], edited[at]);
      assert edited[at] in edited && edited[at].enabled;
    } else {
      ExecRefines(text, SetEnabled(id, enabled), allowed);
    }
  }

  lemma SameExpression(t: CronTask, t': CronTask)
    requires t.expression == t'.expression
    ensures StartsCommented(t) == StartsCommented(t')
  {
  }

  lemma ParseIsLines(text: string)
    ensures Parse(text) == ParseLines(Lines(text))
  {
  }

  // ---- canonical texts ----

  /** The text is what the service itself would write. */
  predicate IsCanonical(text: string) {
    text == Render(Parse(text).0, Parse(text).1)
  }

  /** Writing what was read changes nothing in a text that the service wrote. */
  lemma RewriteIsIdentity(others: seq<string>, tasks: seq<CronTask>)
    requires WellFormed(Doc(NonBlank(others), tasks))
    ensures IsCanonical(Render(others, tasks))
  {
    hide Parse;
    NormalsFixed(tasks);
    RoundTrip(others, tasks);
    ForeignBlockKept(others);
  }

  /** Disabling and re-enabling an enabled task of a canonical text restores it byte for byte. */
  lemma DisableEnableRestores(text: string, id: string, allowed: set<string>)
    requires WellFormed(View(text)) && IsCanonical(text) && ValidId(id)
    requires FindTask(View(text).tasks, id).Some? && View(text).tasks[FindTask(View(text).tasks, id).value].enabled
    ensures ExecAll(text, [SetEnabled(id, false), SetEnabled(id, true)], allowed) == text
  {
    hide Parse, Exec, ExecAll, ValidId, FindTask, ForeignBlock, NonBlank, Quiet, Storable;
    var others, tasks := Parse(text).0, Parse(text).1;
    var at := FindTask(tasks, id).value;
    var edited := tasks[at := tasks[at].(enabled := false)];
    var text' := Exec(text, SetEnabled(id, false), allowed, Io(false, false)).0;
    SwitchedText(text, id, false, allowed);
    WellFormedKept(others, tasks, edited);
    NormalsFixed(edited);
    RoundTrip(others, edited);
    assert Parse(text') == (ForeignBlock(others), edited);
    FirstStays(tasks, edited, id);
    assert edited[at := edited[at].(enabled := true)] == tasks;
    SwitchedText(text', id, true, allowed);
    ForeignBlockKept(others);
    RenderSameBlock(others, tasks);
    ExecTwice(text, SetEnabled(id, false), SetEnabled(id, true), allowed);
  }

  lemma RenderSameBlock(others: seq<string>, tasks: seq<CronTask>)
    requires ForeignBlock(ForeignBlock(others)) == ForeignBlock(others)
    ensures Render(ForeignBlock(others), tasks) == Render(others, tasks)
  {
  }

  lemma ExecTwice(text: string, first: CronOp, second: CronOp, allowed: set<string>)
    ensures ExecAll(text, [first, second], allowed)
            == Exec(Exec(text, first, allowed, Io(false, false)).0, second, allowed, Io(false, false)).0
  {
    hide Valid, Parse, Render, Edit;
    var text' := Exec(text, first, allowed, Io(false, false)).0;
    assert [first, second][1..] == [second] && [second][1..] == [];
    assert ExecAll(text', [second], allowed) == Exec(text', second, allowed, Io(false, false)).0;
  }

  lemma WellFormedKept(others: seq<string>, tasks: seq<CronTask>, edited: seq<CronTask>)
    requires WellFormed(Doc(NonBlank(others), tasks)) && |edited| == |tasks|
    requires forall i :: 0 <= i < |tasks| ==> edited[i] == tasks[i].(enabled := edited[i].enabled)
    requires forall i :: 0 <= i < |tasks| && edited[i].enabled ==> tasks[i].enabled
    ensures forall i :: 0 <= i < |edited| ==> Storable(edited[i])
  {
    forall i | 0 <= i < |edited| ensures Storable(edited[i]) {
      SwitchedStorable(tasks[i], edited[i].enabled);
    }
  }

  lemma {:induction false} FirstStays(tasks: seq<CronTask>, edited: seq<CronTask>, id: string)
    requires |tasks| == |edited| && forall i :: 0 <= i < |tasks| ==> tasks[i].id == edited[i].id
    ensures FindTask(edited, id) == FindTask(tasks, id)
    decreases |tasks|
  {
    if tasks != [] && tasks[0].id != id { FirstStays(tasks[1..], edited[1..], id); }
  }

  // ---- expressions with a line end in them ----

  lemma HasLineEnd(s: string)
    requires '\n' in s
    ensures LineEnd(s) < |s|
  {
    assert s[..|s|] == s;
  }

  lemma {:induction false} WordsStripReturn(s: string)
    ensures Words(StripReturn(s)) == Words(s)
  {
    if s != [] && s[|s| - 1] == '\r' {
      assert s == s[..|s| - 1] + ['\r'] + [];
      WordsAppend(s[..|s| - 1], '\r', []);
    }
  }

  /** The part of a five-field expression before a line end has fewer than five words. */
  lemma HeadShort(expression: string)
    requires '\n' in Trim(expression) && |Words(Trim(expression))| == 5
    ensures var e := Trim(expression); |Words(e[..LineEnd(e)])| < 5
  {
    var e := Trim(expression);
    var n := LineEnd(e);
    HasLineEnd(e);
    var b := e[n + 1..];
    assert e == e[..n] + ['\n'] + b;
    WordsAppend(e[..n], '\n', b);
    TrimSnug(expression);
    assert !IsSpace(e[|e| - 1]) && IsSpace(e[n]);
    LastWord(b);
  }

  lemma {:induction false} LastWord(b: string)
    requires b != [] && !IsSpace(b[|b| - 1])
    ensures Words(b) != []
    decreases |b|
  {
    if IsSpace(b[0]) { LastWord(b[1..]); }
  }

  /** Two lines that open like a task but do not read as one stay behind as foreign lines. */
  lemma Leftover(block: seq<string>, tasks: seq<CronTask>, header: string, entry: string, rest: seq<string>)
    requires Closed(block) && AllRenderable(tasks) && !Blank(header)
    requires ParseHeader(header).Some? && |Words(Uncommented(entry))| < 6
    ensures var read := ParseLines(block + TaskLines(tasks) + ([header, entry] + rest));
            |NonBlank(read.0)| > |NonBlank(ParseLines(block).0)|
  {
    hide ParseHeader, Words, Uncommented, TaskLines, Blank;
    var tail := [header, entry] + rest;
    assert tail[2..] == rest;
    assert block + TaskLines(tasks) + tail == block + (TaskLines(tasks) + tail);
    ParseAppend(block, TaskLines(tasks) + tail);
    TasksRead(tasks, tail);
    var h := ParseHeader(header).value;
    assert ParseTaskLine(entry, h.0, h.1).None?;
    assert ParseLines(tail).0 == [header, entry] + ParseLines(rest).0;
    NonBlankAppend(ParseLines(block).0, ParseLines(tail).0);
    assert NonBlank(ParseLines(tail).0) == [header] + NonBlank(ParseLines(tail).0[1..]);
  }

  /** The first of the lines that the entry of such a task falls into has too few words. */
  lemma EntrySplit(t: CronTask)
    requires '\n' in t.expression && |Words(t.expression[..LineEnd(t.expression)])| < 5
    ensures '\n' in EntryLine(t)
    ensures |Words(Uncommented(StripReturn(EntryLine(t)[..LineEnd(EntryLine(t))])))| < 6
  {
    hide *;
    var e, entry := t.expression, EntryLine(t);
    HasLineEnd(e);
    var a, b := e[..LineEnd(e)], e[LineEnd(e) + 1..] + " " + t.command;
    var head := (if t.enabled then "" else "# ") + a;
    EntryParts(t, a, e[LineEnd(e) + 1..]);
    HeadWords(t.enabled, a);
    LineEndAt(head, b);
    assert entry[..|head|] == head && entry[|head|] == '\n';
    WordsStripReturn(head);
    UncommentedShort(StripReturn(head));
  }

  lemma EntryParts(t: CronTask, a: string, c: string)
    requires t.expression == a + "\n" + c && '\n' !in a
    ensures var head := (if t.enabled then "" else "# ") + a;
            EntryLine(t) == head + "\n" + (c + " " + t.command) && '\n' !in head
  {
    var tail := c + " " + t.command;
    assert t.expression + " " + t.command == a + "\n" + tail;
    if t.enabled {
      assert "" + a == a;
    } else {
      assert "# " + (a + "\n" + tail) == ("# " + a) + "\n" + tail;
    }
  }

  lemma HeadWords(enabled: bool, a: string)
    ensures var head := (if enabled then "" else "# ") + a; |Words(head)| <= |Words(a)| + 1
  {
    if enabled { assert "" + a == a; } else { HashWords(a); }
  }

  /** Taking a comment sign away does not add words. */
  lemma UncommentedShort(line: string)
    ensures |Words(Uncommented(line))| <= |Words(line)|
  {
    WordsTrim(line);
    var body := Trim(line);
    if body != [] && body[0] == '#' {
      WordsTrimStart(body[1..]);
      HashWord(body[1..]);
      assert body == ['#'] + body[1..];
    }
  }

  /** A comment sign in front adds at most one word and never takes one away. */
  lemma HashWord(s: string)
    ensures |Words(s)| <= |Words(['#'] + s)| <= |Words(s)| + 1
  {
    var line := ['#'] + s;
    var w := FirstWord(s);
    assert s == w + s[|w|..];
    assert line == (['#'] + w) + s[|w|..];
    FirstWordWhole(['#'] + w, s[|w|..]);
    assert line[|w| + 1..] == s[|w|..];
  }

  lemma HashWords(s: string)
    ensures |Words("# " + s)| == |Words(s)| + 1
  {
    assert "# " + s == "#" + [' '] + s;
    WordsAppend("#", ' ', s);
    WordsOfWord("#");
  }

  /** What reading finds after a task with a line end in its expression was written. */
  lemma BrokenWrite(others: seq<string>, before: seq<CronTask>, t: CronTask, after: seq<CronTask>)
    requires PlainLines(NonBlank(others)) && Quiet(NonBlank(others)) && AllRenderable(before) && IdOk(t.id)
    requires '\n' in t.expression && |Words(t.expression[..LineEnd(t.expression)])| < 5
    ensures |NonBlank(Parse(Render(others, before + [t] + after)).0)| > |NonBlank(others)|
  {
    hide *;
    var block, text := ForeignBlock(others), Render(others, before + [t] + after);
    EntrySplit(t);
    HeaderReads(t);
    HeaderNotBlank(t);
    var tail := Terminated(TaskLines(after));
    BrokenLines(others, before, t, after);
    BrokenEntryLine(t, tail);
    var lines := Lines(EntryLine(t) + "\n" + tail);
    assert [HeaderLine(t)] + lines == [HeaderLine(t), lines[0]] + lines[1..];
    BlockPlain(others);
    Leftover(block, before, HeaderLine(t), lines[0], lines[1..]);
    ParseQuiet(block);
    BlockQuiet(others);
    ForeignBlockKept(others);
    ParseIsLines(text);
  }

  lemma BrokenEntryLine(t: CronTask, tail: string)
    requires '\n' in EntryLine(t)
    ensures Lines(EntryLine(t) + "\n" + tail) != []
    ensures Lines(EntryLine(t) + "\n" + tail)[0] == StripReturn(EntryLine(t)[..LineEnd(EntryLine(t))])
  {
    hide EntryLine, Lines;
    var entry := EntryLine(t);
    var n := LineEnd(entry);
    HasLineEnd(entry);
    var rest := entry[n + 1..] + "\n" + tail;
    assert entry + "\n" + tail == entry[..n] + "\n" + rest;
    LinesStep(entry[..n], rest);
  }

  /** The lines of a document with a task that has a line end in its expression. */
  lemma BrokenLines(others: seq<string>, before: seq<CronTask>, t: CronTask, after: seq<CronTask>)
    requires PlainLines(NonBlank(others)) && AllRenderable(before) && PlainLine(HeaderLine(t))
    ensures Lines(Render(others, before + [t] + after))
            == ForeignBlock(others) + TaskLines(before)
               + ([HeaderLine(t)] + Lines(EntryLine(t) + "\n" + Terminated(TaskLines(after))))
  {
    hide HeaderLine, EntryLine, Renderable, Lines, Render, NonBlank, ForeignBlock, PlainLine, TaskLines, Terminated;
    var plain := ForeignBlock(others) + TaskLines(before) + [HeaderLine(t)];
    var broken := [EntryLine(t)] + TaskLines(after);
    BlockPlain(others);
    TaskLinesPlain(before);
    TaskLinesAppend(before + [t], after);
    TaskLinesAppend(before, [t]);
    OneTaskLines(t);
    RenderTerminated(others, before + [t] + after);
    assert RenderLines(others, before + [t] + after) == plain + broken;
    TerminatedAppend(plain, broken);
    TerminatedAppend([EntryLine(t)], TaskLines(after));
    TerminatedOne(EntryLine(t));
    assert PlainLines(plain);
    LinesTerminated(plain, Terminated(broken));
  }

  lemma OneTaskLines(t: CronTask)
    ensures TaskLines([t]) == [HeaderLine(t), EntryLine(t)]
  {
  }

  lemma TerminatedOne(line: string)
    ensures Terminated([line]) == line + "\n"
  {
  }

  lemma CreatedText(text: string, op: CronOp, allowed: set<string>)
    requires op.Create? && Valid(op, allowed)
    ensures var t := CronTask(GenerateTaskId(op.millis), Trim(op.expression), Trim(op.command), op.enabled);
            Exec(text, op, allowed, Io(false, false)).0 == Render(Parse(text).0, Parse(text).1 + [t] + [])
  {
    hide Parse, Render, Valid, Trim, GenerateTaskId;
    var t := CronTask(GenerateTaskId(op.millis), Trim(op.expression), Trim(op.command), op.enabled);
    assert Parse(text).1 + [t] + [] == Parse(text).1 + [t];
  }

  lemma UpdatedText(text: string, op: CronOp, allowed: set<string>)
    requires op.Update? && Valid(op, allowed) && FindTask(Parse(text).1, op.id).Some?
    ensures var tasks := Parse(text).1;
            var at := FindTask(tasks, op.id).value;
            var t := CronTask(op.id, Trim(op.expression), Trim(op.command), op.enabled);
            Exec(text, op, allowed, Io(false, false)).0 == Render(Parse(text).0, tasks[..at] + [t] + tasks[at + 1..])
  {
    hide Parse, Render, Valid, Trim;
    var tasks := Parse(text).1;
    var at := FindTask(tasks, op.id).value;
    var t := CronTask(op.id, Trim(op.expression), Trim(op.command), op.enabled);
    assert tasks[at := t] == tasks[..at] + [t] + tasks[at + 1..];
  }

  /** Writing an expression with a line end inside leaves the task's header behind as a foreign line. */
  lemma BrokenEdit(text: string, op: CronOp, allowed: set<string>)
    requires WellFormed(View(text)) && Valid(op, allowed) && !OneLine(op)
    requires op.Update? ==> FindTask(View(text).tasks, op.id).Some?
    ensures |View(Exec(text, op, allowed, Io(false, false)).0).foreign| > |View(text).foreign|
  {
    hide Parse, Quiet, Words, Trim, FieldChar, CommandChar, IdOk, GenerateTaskId, Render, Exec, Normal;
    var others, tasks := Parse(text).0, Parse(text).1;
    NormalsFixed(tasks);
    HeadShort(op.expression);
    if op.Create? {
      GeneratedIdOk(op.millis);
      CreatedText(text, op, allowed);
      var t := CronTask(GenerateTaskId(op.millis), Trim(op.expression), Trim(op.command), op.enabled);
      BrokenWrite(others, tasks, t, []);
    } else {
      var at := FindTask(tasks, op.id).value;
      assert Renderable(tasks[at]);
      UpdatedText(text, op, allowed);
      var t := CronTask(op.id, Trim(op.expression), Trim(op.command), op.enabled);
      BrokenWrite(others, tasks[..at], t, tasks[at + 1..]);
    }
  }

  /**
   A valid creation, or update of a known task, does to the document what it should exactly when the trimmed
   expression has no line end inside: the validation counts fields but lets any white space separate them.
   */
  lemma SoundIffOneLine(text: string, op: CronOp, allowed: set<string>)
    requires WellFormed(View(text)) && (op.Create? || op.Update?) && Valid(op, allowed) && Spec(View(text), op).Some?
    ensures View(Exec(text, op, allowed, Io(false, false)).0) == Spec(View(text), op).value
            <==> '\n' !in Trim(op.expression)
  {
    hide WellFormed, View, Valid, Trim, Exec;
    var (text', r) := Exec(text, op, allowed, Io(false, false));
    if OneLine(op) {
      ExecRefines(text, op, allowed);
    } else {
      BrokenEdit(text, op, allowed);
      assert Spec(View(text), op).value.foreign == View(text).foreign;
    }
  }

  /**
   The task that a creation reports is the one that is stored exactly when its fields are separated by single spaces.
   */
  lemma ReportedIsStored(text: string, op: CronOp, allowed: set<string>)
    requires WellFormed(View(text)) && op.Create? && Valid(op, allowed) && OneLine(op)
    ensures var (text', r) := Exec(text, op, allowed, Io(false, false));
            && r.Ok? && r.value.Some?
            && |View(text').tasks| == |View(text).tasks| + 1
            && (View(text').tasks[|View(text).tasks|] == r.value.value
                <==> Trim(op.expression) == Unwords(Words(op.expression)))
  {
    hide WellFormed, View, Parse, Render;
    ExecRefines(text, op, allowed);
  }

  /**
   The exact condition for all operations: one that is valid and finds its task does to the document what it should if
   and only if its expression has no line end inside and it does not enable a task whose expression starts with a
   comment sign.
   */
  lemma ExecSoundIff(text: string, op: CronOp, allowed: set<string>)
    requires WellFormed(View(text)) && Valid(op, allowed) && Spec(View(text), op).Some?
    ensures View(Exec(text, op, allowed, Io(false, false)).0) == Spec(View(text), op).value <==> Sound(View(text), op)
  {
    hide WellFormed, View, ValidExpression, ValidCommand, ValidId, Trim, Exec, Spec, StartsCommented;
    match op
    case Create(_, _, _, _) => SoundIffOneLine(text, op, allowed);
    case Update(_, _, _, _) => SoundIffOneLine(text, op, allowed);
    case Delete(_) => ExecRefines(text, op, allowed);
    case SetEnabled(id, enabled) =>
      SpecFinds(View(text), op);
      SwitchSoundIffUncommented(text, id, enabled, allowed);
  }

  lemma SpecFinds(doc: Doc, op: CronOp)
    requires op.SetEnabled? && Spec(doc, op).Some?
    ensures FindTask(doc.tasks, op.id).Some?
  {
  }
}
