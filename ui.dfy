/** The logic inside js/uiManager.js: HTML escaping, the colour switches and
    the overdue suffix of a task card, the reminder messages, and the branching
    of the task form's submit handler. */
module Ui {
  import opened Common
  import opened Text
  import opened TaskStore
  import opened Filtering

  /** `s.replace(/c/g, rep)` for a single character `c`. */
  function ReplaceAll(s: string, c: char, rep: string): (r: string)
    ensures c !in s ==> r == s
    decreases |s|
  {
    if s == [] then []
    else (if s[0] == c then rep else [s[0]]) + ReplaceAll(s[1..], c, rep)
  }

  lemma {:induction false} ReplaceAllAppend(a: string, b: string, c: char, rep: string)
    ensures ReplaceAll(a + b, c, rep) == ReplaceAll(a, c, rep) + ReplaceAll(b, c, rep)
    decreases |a|
  {
    if a == [] {
      assert a + b == b;
    } else {
      var head := if a[0] == c then rep else [a[0]];
      calc {
        ReplaceAll(a + b, c, rep);
        == { assert (a + b)[0] == a[0] && (a + b)[1..] == a[1..] + b; }
        head + ReplaceAll(a[1..] + b, c, rep);
        == { ReplaceAllAppend(a[1..], b, c, rep); }
        head + (ReplaceAll(a[1..], c, rep) + ReplaceAll(b, c, rep));
        (head + ReplaceAll(a[1..], c, rep)) + ReplaceAll(b, c, rep);
      }
    }
  }

  /** `escapeHtml`: the five global replacements, ampersand first. Text without any
      of the five special characters comes back unchanged. */
  function EscapeHtml(unsafe: string): (r: string)
    ensures (forall i :: 0 <= i < |unsafe| ==> !IsSpecial(unsafe[i])) ==> r == unsafe
  {
    var s1 := ReplaceAll(unsafe, '&', "&amp;");
    var s2 := ReplaceAll(s1, '<', "&lt;");
    var s3 := ReplaceAll(s2, '>', "&gt;");
    var s4 := ReplaceAll(s3, '"', "&quot;");
    ReplaceAll(s4, '\'', "&#039;")
  }

  predicate IsSpecial(c: char) {
    c == '&' || c == '<' || c == '>' || c == '"' || c == '\''
  }

  /** The entity each special character becomes. */
  function EscapeChar(c: char): (r: string)
    ensures !IsSpecial(c) ==> r == [c]
  {
    match c
    case '&' => "&amp;"
    case '<' => "&lt;"
    case '>' => "&gt;"
    case '"' => "&quot;"
    case '\'' => "&#039;"
    case _ => [c]
  }

  /** The reference definition: every character escaped on its own. */
  function EscapeEach(s: string): string
    decreases |s|
  {
    if s == [] then [] else EscapeChar(s[0]) + EscapeEach(s[1..])
  }

  lemma ReplaceAllSingle(x: char, c: char, rep: string)
    ensures ReplaceAll([x], c, rep) == if x == c then rep else [x]
  {
    assert [x][1..] == [];
  }

  lemma EscapeHtmlOfChar(c: char)
    ensures EscapeHtml([c]) == EscapeChar(c)
  {
    var s1 := ReplaceAll([c], '&', "&amp;");
    ReplaceAllSingle(c, '&', "&amp;");
    if c == '&' {
      assert '<' !in s1 && '>' !in s1 && '"' !in s1 && '\'' !in s1;
    } else {
      var s2 := ReplaceAll(s1, '<', "&lt;");
      ReplaceAllSingle(c, '<', "&lt;");
      if c == '<' {
        assert '>' !in s2 && '"' !in s2 && '\'' !in s2;
      } else {
        var s3 := ReplaceAll(s2, '>', "&gt;");
        ReplaceAllSingle(c, '>', "&gt;");
        if c == '>' {
          assert '"' !in s3 && '\'' !in s3;
        } else {
          var s4 := ReplaceAll(s3, '"', "&quot;");
          ReplaceAllSingle(c, '"', "&quot;");
          if c == '"' {
            assert '\'' !in s4;
          } else {
            ReplaceAllSingle(c, '\'', "&#039;");
          }
        }
      }
    }
  }

  /** Escaping distributes over concatenation. */
  lemma EscapeHtmlAppend(a: string, b: string)
    ensures EscapeHtml(a + b) == EscapeHtml(a) + EscapeHtml(b)
  {
    var a1, b1 := ReplaceAll(a, '&', "&amp;"), ReplaceAll(b, '&', "&amp;");
    ReplaceAllAppend(a, b, '&', "&amp;");
    var a2, b2 := ReplaceAll(a1, '<', "&lt;"), ReplaceAll(b1, '<', "&lt;");
    ReplaceAllAppend(a1, b1, '<', "&lt;");
    var a3, b3 := ReplaceAll(a2, '>', "&gt;"), ReplaceAll(b2, '>', "&gt;");
    ReplaceAllAppend(a2, b2, '>', "&gt;");
    var a4, b4 := ReplaceAll(a3, '"', "&quot;"), ReplaceAll(b3, '"', "&quot;");
    ReplaceAllAppend(a3, b3, '"', "&quot;");
    ReplaceAllAppend(a4, b4, '\'', "&#039;");
  }

  /** The chain of replacements escapes each character independently: ampersands are
      replaced first, so no entity written by a later step is escaped again. */
  lemma {:induction false} EscapeHtmlIsPerChar(s: string)
    ensures EscapeHtml(s) == EscapeEach(s)
    decreases |s|
  {
    if s != [] {
      assert s == [s[0]] + s[1..];
      EscapeHtmlAppend([s[0]], s[1..]);
      EscapeHtmlOfChar(s[0]);
      EscapeHtmlIsPerChar(s[1..]);
    }
  }

  const Entities: seq<string> := ["&amp;", "&lt;", "&gt;", "&quot;", "&#039;"]

  predicate NoRawSpecials(r: string) {
    forall i :: 0 <= i < |r| ==> r[i] != '<' && r[i] != '>' && r[i] != '"' && r[i] != '\''
  }

  ghost predicate AmpersandsStartEntities(r: string) {
    forall i :: 0 <= i < |r| && r[i] == '&' ==> exists e :: e in Entities && OccursAt(r, e, i)
  }

  /** The escaped text has no raw `<`, `>`, `"` or `'`, and every `&` in it starts one of the five entities. */
  lemma EscapeHtmlIsSafe(s: string)
    ensures NoRawSpecials(EscapeHtml(s))
    ensures AmpersandsStartEntities(EscapeHtml(s))
  {
    EscapeHtmlIsPerChar(s);
    EscapeEachHasNoRawSpecials(s);
    EscapeEachAmpersands(s);
  }

  lemma EscapeCharShape(c: char)
    ensures NoRawSpecials(EscapeChar(c))
    ensures forall i :: 0 <= i < |EscapeChar(c)| && EscapeChar(c)[i] == '&' ==> i == 0 && EscapeChar(c) in Entities
  {
  }

  lemma {:induction false} EscapeEachHasNoRawSpecials(s: string)
    ensures NoRawSpecials(EscapeEach(s))
    decreases |s|
  {
    if s != [] {
      EscapeCharShape(s[0]);
      EscapeEachHasNoRawSpecials(s[1..]);
    }
  }

  lemma OccursAtStart(head: string, tail: string)
    ensures OccursAt(head + tail, head, 0)
  {
    assert (head + tail)[..|head|] == head;
  }

  lemma OccursAtShift(head: string, tail: string, e: string, j: nat)
    requires OccursAt(tail, e, j)
    ensures OccursAt(head + tail, e, |head| + j)
  {
    assert (head + tail)[|head| + j..|head| + j + |e|] == tail[j..j + |e|];
  }

  /** An entity, or text with no ampersand, in front of text whose ampersands all start
      entities gives text whose ampersands all start entities. */
  lemma AmpersandsOfConcat(head: string, tail: string)
    requires forall i :: 0 <= i < |head| && head[i] == '&' ==> i == 0 && head in Entities
    requires AmpersandsStartEntities(tail)
    ensures AmpersandsStartEntities(head + tail)
  {
    var r := head + tail;
    forall i | 0 <= i < |r| && r[i] == '&'
      ensures exists e :: e in Entities && OccursAt(r, e, i)
    {
      if i < |head| {
        assert head[i] == '&';
        OccursAtStart(head, tail);
      } else {
        var j := i - |head|;
        assert tail[j] == '&';
        var e :| e in Entities && OccursAt(tail, e, j);
        OccursAtShift(head, tail, e, j);
      }
    }
  }

  lemma {:induction false} EscapeEachAmpersands(s: string)
    ensures AmpersandsStartEntities(EscapeEach(s))
    decreases |s|
  {
    if s != [] {
      EscapeCharShape(s[0]);
      EscapeEachAmpersands(s[1..]);
      AmpersandsOfConcat(EscapeChar(s[0]), EscapeEach(s[1..]));
    }
  }

  const KnownCategories: seq<string> := ["personal", "work", "health", "shopping"]
  const OtherCategoryColor := "96, 125, 139"

  /** The category colour of a task card (the `--category-color-rgb` switch). */
  function CategoryColor(category: string): (rgb: string)
    ensures category !in KnownCategories <==> rgb == OtherCategoryColor
  {
    match category
    case "personal" => "156, 39, 176"
    case "work" => "33, 150, 243"
    case "health" => "76, 175, 80"
    case "shopping" => "255, 152, 0"
    case _ => OtherCategoryColor
  }

  /** Each known category has a colour of its own. */
  lemma CategoryColorsDistinct(c1: string, c2: string)
    requires c1 in KnownCategories && c2 in KnownCategories && c1 != c2
    ensures CategoryColor(c1) != CategoryColor(c2)
  {
  }

  const MediumPriorityColor := "255, 193, 7"

  /** The priority colour of a task card; anything but low and high gets the medium colour. */
  function PriorityColor(priority: string): (rgb: string)
    ensures rgb == MediumPriorityColor <==> priority != "low" && priority != "high"
  {
    match priority
    case "low" => "139, 195, 74"
    case "medium" => MediumPriorityColor
    case "high" => "244, 67, 54"
    case _ => MediumPriorityColor
  }

  /** The suffix appended to a card's due date: present exactly for the tasks
      `getOverdueTasks` reports. */
  function DueDateSuffix(t: Task, now: int): (suffix: string)
    ensures suffix == " (Overdue)" <==> IsOverdue(t, now)
    ensures suffix != " (Overdue)" ==> suffix == ""
  {
    if t.dueDate.Some? && t.dueDate.value < now && !t.completed then " (Overdue)" else ""
  }

  /** The plural ending of a reminder: "s" exactly when there is more than one task. */
  function Plural(n: nat): (r: string)
    ensures r == "s" <==> n > 1
    ensures r != "s" ==> r == ""
  {
    if n > 1 then "s" else ""
  }

  /** The overdue reminder for `n` tasks. */
  function OverdueMessage(n: nat): (msg: string)
    ensures |msg| == 9 + |NatToString(n)| + 13 + |Plural(n)|
    ensures msg[..9] == "You have " && msg[9..9 + |NatToString(n)|] == NatToString(n)
    ensures msg[|msg| - 1] == 's' <==> n > 1
  {
    var count := NatToString(n);
    var msg := "You have " + count + " overdue task" + Plural(n);
    assert msg[..9] == "You have " && msg[9..9 + |count|] == count;
    msg
  }

  /** The due-soon reminder for `n` tasks. */
  function DueSoonMessage(n: nat): (msg: string)
    ensures var p := 9 + |NatToString(n)| + 5;
      |msg| == p + |Plural(n)| + 20 && msg[..p] == "You have " + NatToString(n) + " task"
      && (msg[p] == 's' <==> n > 1)
      && msg[|msg| - 20..] == " due within 24 hours"
  {
    var head := "You have " + NatToString(n) + " task";
    var msg := head + Plural(n) + " due within 24 hours";
    assert msg[..|head|] == head;
    assert msg[|msg| - 20..] == " due within 24 hours";
    msg
  }

  /** The form fields read by `handleTaskFormSubmit`; `taskId` is "" when adding. */
  datatype Form = Form(title: string, description: string, category: string, priority: string,
                       dueDate: Option<int>, taskId: TaskId)

  datatype SubmitOutcome = Rejected | Updated(updated: Option<Task>) | Added(added: Task)

  /** The changes an edit submits: every form field, including a cleared due date. */
  function FormPatch(f: Form): Patch {
    Patch(Some(Trim(f.title)), Some(Trim(f.description)), Some(f.category), Some(f.priority),
          Some(f.dueDate), None, None)
  }

  /** The `taskData` object handed to `addTask`. */
  function FormInput(f: Form): TaskInput {
    TaskInput(Trim(f.title), Trim(f.description), f.category, f.priority, f.dueDate)
  }

  /** An edit stores the trimmed title and description and the form's category, priority
      and due date, refreshes `updatedAt`, and keeps everything else, completion and
      position included. */
  lemma EditFromForm(t: Task, f: Form, now: int)
    ensures Merge(t, FormPatch(f), now) == t.(title := Trim(f.title), description := Trim(f.description),
      category := f.category, priority := f.priority, dueDate := f.dueDate, updatedAt := now)
  {
  }

  /** Adding and editing use the same form data: an edited task and a task added from
      the same form agree on every field the form sets, except where `addTask`
      fills an empty category or priority with its default. */
  lemma AddAndEditAgree(t: Task, f: Form, now: int)
    ensures var e, i := Merge(t, FormPatch(f), now), FormInput(f);
      e.title == i.title && e.description == i.description && e.dueDate == i.dueDate
      && e.category == f.category && e.priority == f.priority
      && i.category == f.category && i.priority == f.priority
  {
  }

  /** The toast a submission shows; a failed update shows none. */
  function SubmitNotice(o: SubmitOutcome): (notice: Option<string>)
    ensures notice.None? <==> o == Updated(None)
  {
    match o
    case Rejected => Some("Please enter a task title")
    case Updated(r) => if r.Some? then Some("Task updated successfully") else None
    case Added(_) => Some("Task added successfully")
  }

  /** The pair of reminders `checkTaskReminders` can show. */
  datatype Reminders = Reminders(overdue: Option<string>, dueSoon: Option<string>)

  /** The parts of the user interface that decide something: they talk to the store. */
  class UiManager {
    const store: TaskManager

    constructor (store: TaskManager)
      ensures this.store == store
    {
      this.store := store;
    }

    /** `handleTaskFormSubmit`: an empty title after trimming is rejected and the store is not
        touched; otherwise a form with a task id updates that task, one without adds a task. */
    method HandleTaskFormSubmit(form: Form, newId: TaskId, now: int) returns (out: SubmitOutcome)
      requires form.taskId == "" ==> IdFresh(store.tasks, newId)
      modifies store
      ensures out.Rejected? <==> Trim(form.title) == ""
      ensures out.Rejected? ==> store.tasks == old(store.tasks) && store.saved == old(store.saved)
      ensures !out.Rejected? ==> (out.Updated? <==> form.taskId != "")
      ensures out.Updated? && FindIndex(old(store.tasks), form.taskId) == -1 ==>
        out.updated.None? && store.tasks == old(store.tasks) && store.saved == old(store.saved)
      ensures out.Updated? && FindIndex(old(store.tasks), form.taskId) != -1 ==>
        var k := FindIndex(old(store.tasks), form.taskId);
        out.updated == Some(old(store.tasks)[k].(title := Trim(form.title), description := Trim(form.description),
          category := form.category, priority := form.priority, dueDate := form.dueDate, updatedAt := now))
          && store.tasks == old(store.tasks)[k := out.updated.value]
          && store.saved == Some(store.tasks)
      ensures out.Added? ==>
        store.tasks == old(store.tasks) + [out.added]
        && out.added.id == newId && out.added.title == Trim(form.title) && out.added.title != ""
        && out.added.description == Trim(form.description)
        && out.added.category == OrDefault(form.category, "other")
        && out.added.priority == OrDefault(form.priority, "medium")
        && out.added.dueDate == form.dueDate && !out.added.completed
        && store.saved == Some(store.tasks)
    {
      var title := Trim(form.title);
      if title == "" {
        return Rejected;
      }
      if form.taskId != "" {
        var k := FindIndex(store.tasks, form.taskId);
        if k != -1 {
          EditFromForm(store.tasks[k], form, now);
        }
        var r := store.UpdateTask(form.taskId, FormPatch(form), now);
        out := Updated(r);
      } else {
        var t := store.AddTask(FormInput(form), newId, now);
        out := Added(t);
      }
    }

    /** `checkTaskReminders`: each reminder is shown only when its count is positive
        and carries that count; due-soon uses the 24-hour default. */
    function CheckTaskReminders(now: int): (r: Reminders)
      reads store
      ensures r.overdue.Some? <==> exists t :: t in store.tasks && IsOverdue(t, now)
      ensures r.dueSoon.Some? <==> exists t :: t in store.tasks && IsDueSoon(t, now, 24)
      ensures r.overdue.Some? ==> r.overdue.value == OverdueMessage(|store.GetOverdueTasks(now)|)
      ensures r.dueSoon.Some? ==> r.dueSoon.value == DueSoonMessage(|store.GetTasksDueSoon(now, 24)|)
    {
      var overdue := store.GetOverdueTasks(now);
      var soon := store.GetTasksDueSoon(now, 24);
      EmptyIffNoMembers(overdue);
      EmptyIffNoMembers(soon);
      Reminders(if |overdue| > 0 then Some(OverdueMessage(|overdue|)) else None,
                if |soon| > 0 then Some(DueSoonMessage(|soon|)) else None)
    }
  }
}
