/** The student dashboard (script.js): a task list whose status is derived from
    the due date, two link lists (notes and resources), their create/edit
    forms, and the subject filter. A date is a day number; the clock
    (`Date.now()` and the start of today) and the answer to `confirm` are
    parameters of the handlers. */
module Dashboard {
  import opened Records
  import opened Text

  datatype Status = Pending | Done | Overdue

  /** A task; `due` is its due date as a day number. */
  datatype Task = Task(id: int, name: string, due: int, status: Status, subject: string)

  /** A dashboard note or resource: the two lists have the same fields and
      the same handlers. `date` is the value of a date input. */
  datatype Entry = Entry(id: int, title: string, url: string, date: string)

  function TaskId(t: Task): int { t.id }
  function EntryId(e: Entry): int { e.id }

  // ---------------------------------------------------------------- status

  /** The status of a task that is not done: overdue exactly when its due day
      is before today. */
  function Derived(due: int, today: int): (s: Status)
    ensures s != Done
    ensures s == Overdue <==> due < today
  {
    if due < today then Overdue else Pending
  }

  /** A task whose stored status is what `normalizeTaskStatus` would give it. */
  predicate IsNormal(t: Task, today: int) {
    t.status == Done || t.status == Derived(t.due, today)
  }

  predicate AllNormal(ts: seq<Task>, today: int) {
    forall i :: 0 <= i < |ts| ==> IsNormal(ts[i], today)
  }

  /** `normalizeTaskStatus`: a done task is left alone; any other task gets the
      derived status. Nothing but the status changes. */
  function Normalize(t: Task, today: int): (r: Task)
    ensures r.(status := t.status) == t
    ensures t.status == Done ==> r == t
    ensures t.status != Done ==> r.status != Done && (r.status == Overdue <==> t.due < today)
    ensures IsNormal(r, today)
  {
    if t.status == Done then t else t.(status := Derived(t.due, today))
  }

  /** `tasks.forEach(normalizeTaskStatus)`, the first step of `renderTasks`. */
  function NormalizeAll(ts: seq<Task>, today: int): (r: seq<Task>)
    ensures |r| == |ts| && AllNormal(r, today)
    ensures forall i :: 0 <= i < |ts| ==> r[i] == Normalize(ts[i], today)
  {
    seq(|ts|, i requires 0 <= i < |ts| => Normalize(ts[i], today))
  }

  /** Normalising a task that is already normal changes nothing, so a second
      render on the same day is a no-op. */
  lemma NormalizeAllOfNormal(ts: seq<Task>, today: int)
    requires AllNormal(ts, today)
    ensures NormalizeAll(ts, today) == ts
  {
    assert forall i :: 0 <= i < |ts| ==> Normalize(ts[i], today) == ts[i];
  }

  /** `toggleTaskStatus` on one task: a task that is not done becomes done; a
      done task is set to pending and re-normalised, so it becomes pending or
      overdue and never stays done. */
  function Toggled(t: Task, today: int): (r: Task)
    ensures r.(status := t.status) == t
    ensures t.status != Done ==> r.status == Done
    ensures t.status == Done ==> r.status != Done && (r.status == Overdue <==> t.due < today)
    ensures IsNormal(r, today)
  {
    if t.status == Done then Normalize(t.(status := Pending), today) else t.(status := Done)
  }

  /** Toggling twice gives back a task that was normal. */
  lemma ToggleTwice(t: Task, today: int)
    requires IsNormal(t, today)
    ensures Toggled(Toggled(t, today), today) == t
  {
  }

  // ---------------------------------------------------------------- labels

  /** What `getDueDateText` shows; the date itself is kept as a day number
      (its locale formatting is not modelled). */
  datatype DueText = DoneText | OverdueText(date: int) | TodayText | TomorrowText | DueOnText(date: int)

  /** `getDueDateText(dueDate, status)` with `today` the start of the current day. */
  function DueDateText(due: int, status: Status, today: int): (r: DueText)
    ensures status == Done ==> r == DoneText
    ensures status != Done ==> (r == OverdueText(due) <==> due < today)
    ensures status != Done ==> (r == TodayText <==> due == today)
    ensures status != Done ==> (r == TomorrowText <==> due == today + 1)
    ensures status != Done ==> (r == DueOnText(due) <==> due >= today + 2)
  {
    if status == Done then DoneText else LabelOfDiff(due - today, due)
  }

  /** The branch of `getDueDateText` taken for a task that is not done, given
      its day difference `diffDays`. */
  function LabelOfDiff(diffDays: int, due: int): (r: DueText)
    ensures r != DoneText
    ensures r.OverdueText? <==> diffDays < 0
    ensures r == TodayText <==> diffDays == 0
  {
    if diffDays < 0 then OverdueText(due)
    else if diffDays == 0 then TodayText
    else if diffDays == 1 then TomorrowText
    else DueOnText(due)
  }

  /** The label and the status that a render shows for a task agree: a
      normalised task reads "Overdue …" exactly when its status is overdue,
      and "Done" exactly when it is done. */
  lemma LabelAgreesWithStatus(t: Task, today: int)
    requires IsNormal(t, today)
    ensures DueDateText(t.due, t.status, today).OverdueText? <==> t.status == Overdue
    ensures DueDateText(t.due, t.status, today) == DoneText <==> t.status == Done
  {
  }

  // ------------------------------------------------------------ time zones

  /* The day-number model above compares calendar days. The program compares
     instants: `new Date("YYYY-MM-DD")` is midnight UTC of that day, while
     `getStartOfToday` is local midnight. Below, an instant is a count of
     milliseconds since the epoch and `offset` is the local zone's distance
     ahead of UTC in milliseconds (eight hours for UTC+8, minus five hours
     for UTC-5). */

  const MsPerDay: int := 86400000

  /** `Math.ceil(ms / (1000 * 60 * 60 * 24))`. */
  function CeilDays(ms: int): (r: int)
    ensures MsPerDay * (r - 1) < ms <= MsPerDay * r
  {
    -((-ms) / MsPerDay)
  }

  /** `new Date(dueDate)` for a date-only string: midnight UTC. */
  function UtcMidnight(day: int): int { day * MsPerDay }

  /** Midnight of `day` on the local clock, as an instant: `getStartOfToday`. */
  function LocalMidnight(day: int, offset: int): int { day * MsPerDay - offset }

  /** `normalizeTaskStatus` on instants: overdue when the due instant is
      before the start of today. */
  function StatusAt(dueMs: int, startMs: int): (s: Status)
    ensures s != Done
    ensures s == Overdue <==> dueMs < startMs
  {
    if dueMs < startMs then Overdue else Pending
  }

  /** The `diffDays` of `getDueDateText` on instants. */
  function DiffDays(dueMs: int, startMs: int): (d: int)
    ensures MsPerDay * (d - 1) < dueMs - startMs <= MsPerDay * d
  {
    CeilDays(dueMs - startMs)
  }

  /** The ceiling of a whole number of days plus a part of a day. */
  lemma CeilDaysShift(k: int, offset: int)
    requires -MsPerDay < offset < MsPerDay
    ensures CeilDays(k * MsPerDay + offset) == k + (if 0 < offset then 1 else 0)
  {
    var r := CeilDays(k * MsPerDay + offset);
    assert MsPerDay * (r - 1) < k * MsPerDay + offset <= MsPerDay * r;
  }

  /** The program as written, in a zone `offset` ahead of UTC (any real zone
      is less than a day away). East of UTC the status is the day-number one,
      but the label's day difference is one too large. West of UTC the label
      is the day-number one, but a task is already overdue on its due day. */
  lemma UtcDatesByOffset(due: int, today: int, offset: int)
    requires -MsPerDay < offset < MsPerDay
    ensures 0 <= offset ==> StatusAt(UtcMidnight(due), LocalMidnight(today, offset)) == Derived(due, today)
    ensures offset < 0 ==> (StatusAt(UtcMidnight(due), LocalMidnight(today, offset)) == Overdue <==> due <= today)
    ensures DiffDays(UtcMidnight(due), LocalMidnight(today, offset)) == due - today + (if 0 < offset then 1 else 0)
  {
    assert UtcMidnight(due) - LocalMidnight(today, offset) == (due - today) * MsPerDay + offset;
    CeilDaysShift(due - today, offset);
  }

  /** In UTC+8 a task due yesterday is marked overdue but labelled "Due
      today"; in UTC-5 a task due today is marked overdue and labelled "Due
      today". In both, the label no longer reads "Overdue" for an overdue
      task. */
  lemma LabelDisagreesAwayFromUtc(today: int)
    ensures var east := 8 * 3600000;
      StatusAt(UtcMidnight(today - 1), LocalMidnight(today, east)) == Overdue
      && LabelOfDiff(DiffDays(UtcMidnight(today - 1), LocalMidnight(today, east)), today - 1) == TodayText
    ensures var west := -5 * 3600000;
      StatusAt(UtcMidnight(today), LocalMidnight(today, west)) == Overdue
      && LabelOfDiff(DiffDays(UtcMidnight(today), LocalMidnight(today, west)), today) == TodayText
  {
    UtcDatesByOffset(today - 1, today, 8 * 3600000);
    UtcDatesByOffset(today, today, -5 * 3600000);
  }

  /** Read as local midnight, as `getStartOfToday` reads today, a due date
      gives the day-number status and day difference in every zone. */
  lemma LocalDatesMatchDayModel(due: int, today: int, offset: int)
    ensures StatusAt(LocalMidnight(due, offset), LocalMidnight(today, offset)) == Derived(due, today)
    ensures DiffDays(LocalMidnight(due, offset), LocalMidnight(today, offset)) == due - today
  {
    assert LocalMidnight(due, offset) - LocalMidnight(today, offset) == (due - today) * MsPerDay;
    CeilDaysShift(due - today, 0);
  }

  /** With both dates read as local midnight, the label reads "Overdue" exactly
      when the status is overdue, in every zone. */
  lemma LocalLabelAgreesWithStatus(due: int, today: int, offset: int)
    ensures var dueMs, startMs := LocalMidnight(due, offset), LocalMidnight(today, offset);
      LabelOfDiff(DiffDays(dueMs, startMs), due).OverdueText? <==> StatusAt(dueMs, startMs) == Overdue
  {
    LocalDatesMatchDayModel(due, today, offset);
  }

  // ---------------------------------------------------------------- counts

  /** `tasks.filter(t => t.status === st).length`. */
  function CountStatus(ts: seq<Task>, st: Status): (n: nat)
    ensures n <= |ts|
  {
    if ts == [] then 0
    else CountStatus(ts[..|ts| - 1], st) + (if ts[|ts| - 1].status == st then 1 else 0)
  }

  /** `updateTaskCounts`: the pending, done and overdue counts add up to the
      number of tasks. */
  lemma {:induction false} CountsPartition(ts: seq<Task>)
    ensures CountStatus(ts, Pending) + CountStatus(ts, Done) + CountStatus(ts, Overdue) == |ts|
  {
    if ts != [] {
      CountsPartition(ts[..|ts| - 1]);
    }
  }

  /** Normalisation never changes how many tasks are done. */
  lemma {:induction false} NormalizeKeepsDoneCount(ts: seq<Task>, today: int)
    ensures CountStatus(NormalizeAll(ts, today), Done) == CountStatus(ts, Done)
  {
    if ts != [] {
      var p := ts[..|ts| - 1];
      assert NormalizeAll(ts, today)[..|ts| - 1] == NormalizeAll(p, today);
      NormalizeKeepsDoneCount(p, today);
    }
  }

  // ---------------------------------------------------------------- filter

  /** The tasks of one subject, in store order. */
  function WithSubject(ts: seq<Task>, subject: string): (r: seq<Task>)
    ensures |r| <= |ts|
    ensures forall t :: t in r <==> t in ts && t.subject == subject
  {
    if ts == [] then []
    else
      var rest := WithSubject(ts[1..], subject);
      assert forall t :: t in ts <==> t == ts[0] || t in ts[1..];
      if ts[0].subject == subject then [ts[0]] + rest else rest
  }

  /** The subject filter keeps the store order: it distributes over
      concatenation. */
  lemma {:induction false} WithSubjectAppend(a: seq<Task>, b: seq<Task>, subject: string)
    ensures WithSubject(a + b, subject) == WithSubject(a, subject) + WithSubject(b, subject)
  {
    if a == [] {
      assert a + b == b;
    } else {
      assert (a + b)[1..] == a[1..] + b;
      WithSubjectAppend(a[1..], b, subject);
    }
  }

  /** The list `renderTasks` draws: every task for "all", otherwise only the
      tasks of the selected subject. */
  function VisibleTasks(ts: seq<Task>, filter: string): (r: seq<Task>)
    ensures filter == "all" ==> r == ts
    ensures filter != "all" ==> forall t :: t in r <==> t in ts && t.subject == filter
  {
    if filter == "all" then ts else WithSubject(ts, filter)
  }

  /** The subjects `updateSubjectFilter` offers after "All Subjects": every
      task subject once, in order of first occurrence. */
  function Subjects(ts: seq<Task>): (r: seq<string>)
    ensures forall i :: 0 <= i < |ts| ==> ts[i].subject in r
    ensures forall k :: 0 <= k < |r| ==> exists i :: 0 <= i < |ts| && ts[i].subject == r[k]
    ensures forall i, j :: 0 <= i < j < |r| ==> r[i] != r[j]
  {
    var all := seq(|ts|, i requires 0 <= i < |ts| => ts[i].subject);
    assert forall i :: 0 <= i < |ts| ==> all[i] == ts[i].subject && all[i] in all;
    var r := Distinct(all);
    assert forall k :: 0 <= k < |r| ==> exists i :: 0 <= i < |ts| && ts[i].subject == r[k] by {
      forall k | 0 <= k < |r| ensures exists i :: 0 <= i < |ts| && ts[i].subject == r[k] {
        assert r[k] in all;
        var i :| 0 <= i < |all| && all[i] == r[k];
        assert ts[i].subject == r[k];
      }
    }
    r
  }

  /** The filter value after `updateSubjectFilter` rebuilt the options: the
      previous value (empty read as "all") when it is "all" or still offered;
      otherwise the first option, "all", which the browser selects when the
      options are replaced. */
  function KeptSelection(current: string, subjects: seq<string>): (r: string)
    ensures r == "all" || r in subjects
    ensures current != "" && (current == "all" || current in subjects) ==> r == current
    ensures current == "" || (current != "all" && current !in subjects) ==> r == "all"
  {
    var value := if current == "" then "all" else current;
    if value in subjects || value == "all" then value else "all"
  }

  // ---------------------------------------------------------------- URLs

  /** The regular expression `/^https?:\/\//i`. */
  predicate HasHttpScheme(s: string) {
    StartsWithIgnoreCase(s, "http://") || StartsWithIgnoreCase(s, "https://")
  }

  /** `normalizeUrl`: blank gives "#"; a trimmed URL with an http or https
      scheme (any case) is kept; anything else gets "https://" in front. A
      non-blank input always yields a trimmed URL with such a scheme. */
  function NormalizeUrl(url: string): (r: string)
    ensures IsBlank(url) ==> r == "#"
    ensures !IsBlank(url) && HasHttpScheme(Trim(url)) ==> r == Trim(url)
    ensures !IsBlank(url) && !HasHttpScheme(Trim(url)) ==> r == "https://" + Trim(url)
    ensures !IsBlank(url) ==> HasHttpScheme(r) && Trim(r) == r
  {
    var trimmed := Trim(url);
    if trimmed == [] then "#"
    else if HasHttpScheme(trimmed) then
      TrimIdempotent(url);
      trimmed
    else
      TrimIdempotent(url);
      TrimOfPrefixed("https://", trimmed);
      "https://" + trimmed
  }

  /** Normalising a non-blank URL twice is normalising it once. */
  lemma NormalizeUrlIdempotent(url: string)
    requires !IsBlank(url)
    ensures NormalizeUrl(NormalizeUrl(url)) == NormalizeUrl(url)
  {
    var r := NormalizeUrl(url);
    assert HasHttpScheme(r) && Trim(r) == r;
    assert r != [];
  }

  /** A blank URL is not a fixed point: "#" becomes "https://#". */
  lemma NormalizeBlankUrlTwice(url: string)
    requires IsBlank(url)
    ensures NormalizeUrl(NormalizeUrl(url)) == "https://" + "#"
  {
    var h := NormalizeUrl(url);
    assert h == "#";
    HashGetsScheme();
  }

  /** "#" is not blank and has no scheme. */
  lemma HashGetsScheme()
    ensures NormalizeUrl("#") == "https://" + "#"
  {
    TrimOfTrimmed("#");
    assert !HasHttpScheme("#") by {
      assert |"http://"| > |"#"| && |"https://"| > |"#"|;
    }
    assert !IsBlank("#");
  }

  // ---------------------------------------------------------------- forms

  /** The task `handleAddTask` builds, or `None` when the trimmed name or the
      due date is empty. In edit mode the id is the editing id and a task that
      was done stays done; otherwise the status is derived. A blank subject
      becomes "General". */
  function TaskForm(tasks: seq<Task>, editing: Option<int>, name: string, dueDate: Option<int>,
                    subject: string, now: int, today: int): (r: Option<Task>)
    ensures r.None? <==> IsBlank(name) || dueDate.None?
    ensures r.Some? ==> r.value.id == IdOr(editing, now) && r.value.name == Trim(name) && r.value.due == dueDate.value
    ensures r.Some? ==> r.value.subject == (if IsBlank(subject) then "General" else Trim(subject))
    ensures r.Some? ==> IsNormal(r.value, today)
    ensures r.Some? ==> (r.value.status == Done <==>
      Truthy(editing) && match Find(tasks, TaskId, editing.value) case Some(old_) => old_.status == Done case None => false)
  {
    var n := Trim(name);
    if n == [] || dueDate.None? then None
    else
      var existing := if Truthy(editing) then Find(tasks, TaskId, editing.value) else None;
      var status := if existing.Some? && existing.value.status == Done then Done else Derived(dueDate.value, today);
      var sub := Trim(subject);
      Some(Task(IdOr(editing, now), n, dueDate.value, status, if sub == [] then "General" else sub))
  }

  /** A saved task's subject is never blank. */
  lemma SavedSubjectNotBlank(tasks: seq<Task>, editing: Option<int>, name: string, dueDate: Option<int>,
                             subject: string, now: int, today: int)
    requires TaskForm(tasks, editing, name, dueDate, subject, now, today).Some?
    ensures !IsBlank(TaskForm(tasks, editing, name, dueDate, subject, now, today).value.subject)
  {
    var t := TaskForm(tasks, editing, name, dueDate, subject, now, today).value;
    if IsBlank(subject) {
      assert !IsSpace(t.subject[0]);
    } else {
      TrimIdempotent(subject);
    }
  }

  /** Saving a task into a store that was rendered today needs no further
      normalisation: the render that follows the save changes nothing, so in
      edit mode every other task keeps its content and position and in create
      mode the task is simply appended. */
  lemma {:induction false} SaveOnRenderedStore(ts: seq<Task>, editing: Option<int>, t: Task, today: int)
    requires AllNormal(ts, today) && IsNormal(t, today)
    ensures NormalizeAll(Upsert(ts, TaskId, editing, t), today) == Upsert(ts, TaskId, editing, t)
  {
    var r := Upsert(ts, TaskId, editing, t);
    assert AllNormal(r, today) by {
      if !Truthy(editing) {
        assert forall i :: 0 <= i < |ts| ==> r[i] == ts[i];
      }
    }
    NormalizeAllOfNormal(r, today);
  }

  /** Deleting from a store rendered today needs no further normalisation. */
  lemma {:induction false} DeleteOnRenderedStore(ts: seq<Task>, id: int, today: int)
    requires AllNormal(ts, today)
    ensures NormalizeAll(FilterOut(ts, TaskId, id), today) == FilterOut(ts, TaskId, id)
  {
    var r := FilterOut(ts, TaskId, id);
    assert AllNormal(r, today) by {
      forall i | 0 <= i < |r| ensures IsNormal(r[i], today) {
        assert r[i] in ts;
      }
    }
    NormalizeAllOfNormal(r, today);
  }

  /** Toggling one task of a store rendered today changes that task's status
      and nothing else. */
  lemma {:induction false} ToggleOnRenderedStore(ts: seq<Task>, i: nat, today: int)
    requires i < |ts| && AllNormal(ts, today)
    ensures NormalizeAll(ts[i := Toggled(ts[i], today)], today) == ts[i := Toggled(ts[i], today)]
  {
    NormalizeAllOfNormal(ts[i := Toggled(ts[i], today)], today);
  }

  /** The note or resource `handleAddNote`/`handleAddResource` builds, or
      `None` when the trimmed title, the trimmed URL or the date is empty. */
  function EntryForm(editing: Option<int>, title: string, url: string, date: string, now: int): (r: Option<Entry>)
    ensures r.None? <==> IsBlank(title) || IsBlank(url) || date == ""
    ensures r.Some? ==> r.value == Entry(IdOr(editing, now), Trim(title), Trim(url), date)
  {
    var t := Trim(title);
    var u := Trim(url);
    if t == [] || u == [] || date == "" then None else Some(Entry(IdOr(editing, now), t, u, date))
  }

  /** The module state of script.js. */
  class Dashboard {
    var tasks: seq<Task>
    var notes: seq<Entry>
    var resources: seq<Entry>
    var editingTaskId: Option<int>
    var editingNoteId: Option<int>
    var editingResourceId: Option<int>
    /** The selected value of the subject filter, and the subjects it offers
        after "All Subjects". */
    var subjectFilter: string
    var subjectOptions: seq<string>

    constructor (tasks0: seq<Task>, notes0: seq<Entry>, resources0: seq<Entry>)
      ensures tasks == tasks0 && notes == notes0 && resources == resources0
      ensures editingTaskId.None? && editingNoteId.None? && editingResourceId.None?
      ensures subjectFilter == "all" && subjectOptions == []
    {
      tasks, notes, resources := tasks0, notes0, resources0;
      editingTaskId, editingNoteId, editingResourceId := None, None, None;
      subjectFilter, subjectOptions := "all", [];
    }

    /** `renderTasks`: normalise every task in place, then return the tasks
        the subject filter lets through (the store itself is not filtered). */
    method RenderTasks(today: int) returns (visible: seq<Task>)
      modifies this`tasks
      ensures tasks == NormalizeAll(old(tasks), today)
      ensures visible == VisibleTasks(tasks, subjectFilter)
    {
      var i := 0;
      while i < |tasks|
        invariant 0 <= i <= |tasks| == |old(tasks)|
        invariant forall k :: 0 <= k < i ==> tasks[k] == Normalize(old(tasks)[k], today)
        invariant forall k :: i <= k < |tasks| ==> tasks[k] == old(tasks)[k]
      {
        if tasks[i].status != Done {
          tasks := tasks[i := tasks[i].(status := if tasks[i].due < today then Overdue else Pending)];
        }
        i := i + 1;
      }
      visible := VisibleTasks(tasks, subjectFilter);
    }

    /** `updateSubjectFilter`: rebuild the subject options from the tasks and
        keep the selection only if it is "all" or still offered. */
    method UpdateSubjectFilter()
      modifies this`subjectOptions, this`subjectFilter
      ensures subjectOptions == Subjects(tasks)
      ensures subjectFilter == KeptSelection(old(subjectFilter), subjectOptions)
    {
      var current := if subjectFilter == "" then "all" else subjectFilter;
      subjectOptions := Subjects(tasks);
      if current in subjectOptions || current == "all" {
        subjectFilter := current;
      } else {
        subjectFilter := "all";
      }
    }

    /** `closeAllModals`: every form returns to create mode. */
    method CloseAllModals()
      modifies this`editingTaskId, this`editingNoteId, this`editingResourceId
      ensures editingTaskId.None? && editingNoteId.None? && editingResourceId.None?
    {
      editingTaskId, editingNoteId, editingResourceId := None, None, None;
    }

    /** `toggleTaskStatus`: toggle the first task with that id and render; an
        unknown id changes nothing. */
    method ToggleTaskStatus(taskId: int, today: int)
      modifies this`tasks
      ensures FindIndex(old(tasks), TaskId, taskId).None? ==> tasks == old(tasks)
      ensures FindIndex(old(tasks), TaskId, taskId).Some? ==>
        var i := FindIndex(old(tasks), TaskId, taskId).value;
        tasks == NormalizeAll(old(tasks)[i := Toggled(old(tasks)[i], today)], today)
    {
      var index := FindIndex(tasks, TaskId, taskId);
      if index.Some? {
        var i := index.value;
        if tasks[i].status == Done {
          tasks := tasks[i := tasks[i].(status := Pending)];
          tasks := tasks[i := Normalize(tasks[i], today)];
        } else {
          tasks := tasks[i := tasks[i].(status := Done)];
        }
        var _ := RenderTasks(today);
      }
    }

    /** `handleAddTask`: validate, build the task, replace the tasks with the
        editing id or append, render, rebuild the subject filter and close
        the forms. A blank name or a missing date changes nothing. */
    method HandleAddTask(name: string, dueDate: Option<int>, subject: string, now: int, today: int)
      modifies this`tasks, this`subjectOptions, this`subjectFilter
      modifies this`editingTaskId, this`editingNoteId, this`editingResourceId
      ensures TaskForm(old(tasks), old(editingTaskId), name, dueDate, subject, now, today).None? ==>
        && tasks == old(tasks) && subjectOptions == old(subjectOptions) && subjectFilter == old(subjectFilter)
        && editingTaskId == old(editingTaskId) && editingNoteId == old(editingNoteId)
        && editingResourceId == old(editingResourceId)
      ensures TaskForm(old(tasks), old(editingTaskId), name, dueDate, subject, now, today).Some? ==>
        && tasks == NormalizeAll(Upsert(old(tasks), TaskId, old(editingTaskId),
                      TaskForm(old(tasks), old(editingTaskId), name, dueDate, subject, now, today).value), today)
        && subjectOptions == Subjects(tasks)
        && subjectFilter == KeptSelection(old(subjectFilter), subjectOptions)
        && editingTaskId.None? && editingNoteId.None? && editingResourceId.None?
    {
      var form := TaskForm(tasks, editingTaskId, name, dueDate, subject, now, today);
      if form.None? {
        return;
      }
      StoreTask(form.value, today);
    }

    /** The second half of `handleAddTask`: store the built task, render,
        rebuild the subject filter and close the forms. */
    method StoreTask(task: Task, today: int)
      modifies this`tasks, this`subjectOptions, this`subjectFilter
      modifies this`editingTaskId, this`editingNoteId, this`editingResourceId
      ensures tasks == NormalizeAll(Upsert(old(tasks), TaskId, old(editingTaskId), task), today)
      ensures subjectOptions == Subjects(tasks)
      ensures subjectFilter == KeptSelection(old(subjectFilter), subjectOptions)
      ensures editingTaskId.None? && editingNoteId.None? && editingResourceId.None?
    {
      if Truthy(editingTaskId) {
        tasks := ReplaceWhere(tasks, TaskId, editingTaskId.value, task);
      } else {
        tasks := tasks + [task];
      }
      var _ := RenderTasks(today);
      UpdateSubjectFilter();
      CloseAllModals();
    }

    /** `editTask`: enter edit mode for an existing task; an unknown id
        changes nothing. */
    method EditTask(taskId: int)
      modifies this`editingTaskId
      ensures HasId(tasks, TaskId, taskId) ==> editingTaskId == Some(taskId)
      ensures !HasId(tasks, TaskId, taskId) ==> editingTaskId == old(editingTaskId)
    {
      if Find(tasks, TaskId, taskId).Some? {
        editingTaskId := Some(taskId);
      }
    }

    /** `deleteTask`: when confirmed, remove every task with that id, render
        and rebuild the subject filter. */
    method DeleteTask(taskId: int, confirmed: bool, today: int)
      modifies this`tasks, this`subjectOptions, this`subjectFilter
      ensures !confirmed ==> tasks == old(tasks) && subjectOptions == old(subjectOptions) && subjectFilter == old(subjectFilter)
      ensures confirmed ==> tasks == NormalizeAll(FilterOut(old(tasks), TaskId, taskId), today)
      ensures confirmed ==> subjectOptions == Subjects(tasks) && subjectFilter == KeptSelection(old(subjectFilter), subjectOptions)
    {
      if confirmed {
        tasks := FilterOut(tasks, TaskId, taskId);
        var _ := RenderTasks(today);
        UpdateSubjectFilter();
      }
    }

    /** `handleAddNote`. */
    method HandleAddNote(title: string, url: string, date: string, now: int)
      modifies this`notes, this`editingTaskId, this`editingNoteId, this`editingResourceId
      ensures EntryForm(old(editingNoteId), title, url, date, now).None? ==>
        notes == old(notes) && editingTaskId == old(editingTaskId) && editingNoteId == old(editingNoteId) && editingResourceId == old(editingResourceId)
      ensures EntryForm(old(editingNoteId), title, url, date, now).Some? ==>
        && notes == Upsert(old(notes), EntryId, old(editingNoteId), EntryForm(old(editingNoteId), title, url, date, now).value)
        && editingTaskId.None? && editingNoteId.None? && editingResourceId.None?
    {
      var t := Trim(title);
      var u := Trim(url);
      if t == [] || u == [] || date == "" {
        return;
      }
      var note := Entry(IdOr(editingNoteId, now), t, u, date);
      if Truthy(editingNoteId) {
        notes := ReplaceWhere(notes, EntryId, editingNoteId.value, note);
      } else {
        notes := notes + [note];
      }
      CloseAllModals();
    }

    /** `editNote`. */
    method EditNote(noteId: int)
      modifies this`editingNoteId
      ensures HasId(notes, EntryId, noteId) ==> editingNoteId == Some(noteId)
      ensures !HasId(notes, EntryId, noteId) ==> editingNoteId == old(editingNoteId)
    {
      if Find(notes, EntryId, noteId).Some? {
        editingNoteId := Some(noteId);
      }
    }

    /** `deleteNote`. */
    method DeleteNote(noteId: int, confirmed: bool)
      modifies this`notes
      ensures notes == if confirmed then FilterOut(old(notes), EntryId, noteId) else old(notes)
    {
      if confirmed {
        notes := FilterOut(notes, EntryId, noteId);
      }
    }

    /** `handleAddResource`: the same form logic as notes, on the resources. */
    method HandleAddResource(title: string, url: string, date: string, now: int)
      modifies this`resources, this`editingTaskId, this`editingNoteId, this`editingResourceId
      ensures EntryForm(old(editingResourceId), title, url, date, now).None? ==>
        resources == old(resources) && editingTaskId == old(editingTaskId) && editingNoteId == old(editingNoteId) && editingResourceId == old(editingResourceId)
      ensures EntryForm(old(editingResourceId), title, url, date, now).Some? ==>
        && resources == Upsert(old(resources), EntryId, old(editingResourceId), EntryForm(old(editingResourceId), title, url, date, now).value)
        && editingTaskId.None? && editingNoteId.None? && editingResourceId.None?
    {
      var t := Trim(title);
      var u := Trim(url);
      if t == [] || u == [] || date == "" {
        return;
      }
      var resource := Entry(IdOr(editingResourceId, now), t, u, date);
      if Truthy(editingResourceId) {
        resources := ReplaceWhere(resources, EntryId, editingResourceId.value, resource);
      } else {
        resources := resources + [resource];
      }
      CloseAllModals();
    }

    /** `editResource`. */
    method EditResource(resourceId: int)
      modifies this`editingResourceId
      ensures HasId(resources, EntryId, resourceId) ==> editingResourceId == Some(resourceId)
      ensures !HasId(resources, EntryId, resourceId) ==> editingResourceId == old(editingResourceId)
    {
      if Find(resources, EntryId, resourceId).Some? {
        editingResourceId := Some(resourceId);
      }
    }

    /** `deleteResource`. */
    method DeleteResource(resourceId: int, confirmed: bool)
      modifies this`resources
      ensures resources == if confirmed then FilterOut(old(resources), EntryId, resourceId) else old(resources)
    {
      if confirmed {
        resources := FilterOut(resources, EntryId, resourceId);
      }
    }
  }
}
