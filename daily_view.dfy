/** The daily page's record edits (src/DailyView.tsx): the default-filling `saveEntry`, the
    habit check marks, the gratitude list and the two small task lists. A handler is the
    function from the stored entry to the record it saves (`None` where the handler does
    not save). New ids and `Date.now()` are parameters. The week id the page shows is
    `IsoWeek.WeekId`. */
module DailyView {
  import opened Wrappers
  import opened Lists
  import opened Records

  /** The `type` argument of the task handlers. */
  datatype DailyKind = Secondary | Additional

  /** The one field that each call of `saveEntry` passes in `updates`. */
  datatype DailyUpdate =
    | SetGratitude(gratitude: seq<string>)
    | SetIntention(intention: string)
    | SetTasks(kind: DailyKind, tasks: seq<DailyTask>)
    | SetHabits(habits: map<string, bool>)
    | SetLearning(learning: string)
    | SetRemember(remember: string)
    | SetMood(mood: int)
    | SetRateDay(rateDay: int)
    | SetTimeline(timeline: seq<TimelineEvent>)

  datatype DailyField = Gratitude | Intention | Tasks(kind: DailyKind) | Habits | Learning | Remember | Mood | RateDay | Timeline

  /** The five ids `saveEntry` draws for the default tasks of a new day. */
  datatype FreshIds = FreshIds(main: string, secondary1: string, secondary2: string, additional1: string, additional2: string)

  /** The day id (`YYYY-MM-DD`), the clock and the ids drawn for defaults. */
  datatype Context = Context(dateId: string, now: int, ids: FreshIds)

  function FieldOf(u: DailyUpdate): DailyField {
    match u
    case SetGratitude(_) => Gratitude
    case SetIntention(_) => Intention
    case SetTasks(k, _) => Tasks(k)
    case SetHabits(_) => Habits
    case SetLearning(_) => Learning
    case SetRemember(_) => Remember
    case SetMood(_) => Mood
    case SetRateDay(_) => RateDay
    case SetTimeline(_) => Timeline
  }

  function TaskList(e: DailyEntry, kind: DailyKind): seq<DailyTask> {
    if kind == Secondary then e.secondaryTasks else e.additionalTasks
  }

  /** Field `f` of a record, as the update that would write its present value. */
  function Read(e: DailyEntry, f: DailyField): (u: DailyUpdate)
    ensures FieldOf(u) == f
  {
    match f
    case Gratitude => SetGratitude(e.gratitude)
    case Intention => SetIntention(e.intention)
    case Tasks(k) => SetTasks(k, TaskList(e, k))
    case Habits => SetHabits(e.habitCompletion)
    case Learning => SetLearning(e.learning)
    case Remember => SetRemember(e.remember)
    case Mood => SetMood(e.mood)
    case RateDay => SetRateDay(e.rateDay)
    case Timeline => SetTimeline(e.timeline)
  }

  function EmptyTask(id: string): DailyTask {
    DailyTask(id, "", false, None, None, None)
  }

  /** The record `saveEntry` starts from on a day with no stored entry. */
  function Defaults(ctx: Context): DailyEntry {
    DailyEntry(
      ctx.dateId, ctx.dateId, [""], "",
      EmptyTask(ctx.ids.main),
      [EmptyTask(ctx.ids.secondary1), EmptyTask(ctx.ids.secondary2)],
      [EmptyTask(ctx.ids.additional1), EmptyTask(ctx.ids.additional2)],
      map[], "", "", "", 0, 0, [], ctx.now)
  }

  /** Field `f` as `saveEntry` finds it before the update. For a stored entry every
      `stored || default` is the stored value: lists, maps and the task object are truthy,
      and a falsy stored text or number equals its default. */
  function Prior(entry: Option<DailyEntry>, f: DailyField, ctx: Context): DailyUpdate {
    if entry.Some? then Read(entry.value, f) else Read(Defaults(ctx), f)
  }

  function Apply(e: DailyEntry, u: DailyUpdate): DailyEntry {
    match u
    case SetGratitude(g) => e.(gratitude := g)
    case SetIntention(t) => e.(intention := t)
    case SetTasks(Secondary, ts) => e.(secondaryTasks := ts)
    case SetTasks(Additional, ts) => e.(additionalTasks := ts)
    case SetHabits(h) => e.(habitCompletion := h)
    case SetLearning(t) => e.(learning := t)
    case SetRemember(t) => e.(remember := t)
    case SetMood(n) => e.(mood := n)
    case SetRateDay(n) => e.(rateDay := n)
    case SetTimeline(ev) => e.(timeline := ev)
  }

  /** `saveEntry(updates)`: id and date are the day id, the stored fields (or the defaults
      of a new day), the clock, then the update. */
  function SaveEntry(entry: Option<DailyEntry>, u: DailyUpdate, ctx: Context): (e: DailyEntry)
    ensures e.id == ctx.dateId && e.date == ctx.dateId && e.updatedAt == ctx.now
    ensures e.mostImportantTask == if entry.Some? then entry.value.mostImportantTask else EmptyTask(ctx.ids.main)
  {
    var c := if entry.Some? then entry.value else Defaults(ctx);
    Apply(c.(id := ctx.dateId, date := ctx.dateId, updatedAt := ctx.now), u)
  }

  /** The precedence of `saveEntry`: the update's field, else the stored field, else the default. */
  lemma SaveEntryFields(entry: Option<DailyEntry>, u: DailyUpdate, ctx: Context, f: DailyField)
    ensures Read(SaveEntry(entry, u, ctx), f) == if f == FieldOf(u) then u else Prior(entry, f, ctx)
  {
    var c := if entry.Some? then entry.value else Defaults(ctx);
    var stamped := c.(id := ctx.dateId, date := ctx.dateId, updatedAt := ctx.now);
    ApplyFields(stamped, u, f);
    assert Read(stamped, f) == Read(c, f);
  }

  /** An update sets its own field and leaves every other field as it was. */
  lemma ApplyFields(c: DailyEntry, u: DailyUpdate, f: DailyField)
    ensures Read(Apply(c, u), f) == if f == FieldOf(u) then u else Read(c, f)
  {
    match u
    case SetGratitude(_) =>
    case SetIntention(_) =>
    case SetTasks(_, _) =>
    case SetHabits(_) =>
    case SetLearning(_) =>
    case SetRemember(_) =>
    case SetMood(_) =>
    case SetRateDay(_) =>
    case SetTimeline(_) =>
  }

  /** A new day is saved with one empty gratitude line, two empty open tasks in each small
      list (under the drawn ids), no habits ticked and an empty timeline. */
  lemma NewDayDefaults(u: DailyUpdate, ctx: Context)
    ensures var e := SaveEntry(None, u, ctx);
      && (FieldOf(u) != Gratitude ==> e.gratitude == [""])
      && (forall k: DailyKind :: FieldOf(u) != Tasks(k) ==>
            |TaskList(e, k)| == 2 && forall t :: t in TaskList(e, k) ==> t.text == "" && !t.completed)
      && (FieldOf(u) != Habits ==> e.habitCompletion == map[])
      && (FieldOf(u) != Timeline ==> e.timeline == [])
      && (FieldOf(u) != Mood ==> e.mood == 0)
  {
    var d := Defaults(ctx);
    assert SaveEntry(None, u, ctx) == Apply(d.(id := ctx.dateId, date := ctx.dateId, updatedAt := ctx.now), u);
    match u
    case SetGratitude(_) =>
    case SetIntention(_) =>
    case SetTasks(_, _) =>
    case SetHabits(_) =>
    case SetLearning(_) =>
    case SetRemember(_) =>
    case SetMood(_) =>
    case SetRateDay(_) =>
    case SetTimeline(_) =>
  }

  /** Saving the same update again only moves the timestamp. */
  lemma SaveEntryIdempotent(entry: Option<DailyEntry>, u: DailyUpdate, ctx: Context, later: int)
    ensures SaveEntry(Some(SaveEntry(entry, u, ctx)), u, ctx.(now := later)) == SaveEntry(entry, u, ctx.(now := later))
  {
  }

  // ---------------------------------------------------------------- habits

  /** `entry?.habitCompletion || {}` */
  function HabitsOf(entry: Option<DailyEntry>): map<string, bool> {
    if entry.Some? then entry.value.habitCompletion else map[]
  }

  /** `habitCompletion[habitId]` as a truth value: a missing key is `undefined`, falsy. */
  predicate Ticked(habits: map<string, bool>, habit: string) {
    habit in habits && habits[habit]
  }

  /** `toggleHabit(habitId)`: `habitCompletion[habitId] = !habitCompletion[habitId]`. */
  function ToggleHabit(entry: Option<DailyEntry>, habit: string, ctx: Context): DailyEntry {
    var hc := HabitsOf(entry);
    SaveEntry(entry, SetHabits(hc[habit := !Ticked(hc, habit)]), ctx)
  }

  /** Only that habit's mark flips (a habit never ticked becomes ticked); every other habit
      keeps its stored value. Toggling twice restores the mark, with the key now present. */
  lemma ToggleHabitFlipsOne(entry: Option<DailyEntry>, habit: string, other: string, ctx: Context)
    requires other != habit
    ensures var after := HabitsOf(Some(ToggleHabit(entry, habit, ctx)));
      && habit in after && after[habit] == !Ticked(HabitsOf(entry), habit)
      && (other in after <==> other in HabitsOf(entry))
      && (other in after ==> after[other] == HabitsOf(entry)[other])
    ensures habit !in HabitsOf(entry) ==> HabitsOf(Some(ToggleHabit(entry, habit, ctx)))[habit]
    ensures var twice := HabitsOf(Some(ToggleHabit(Some(ToggleHabit(entry, habit, ctx)), habit, ctx)));
      habit in twice && twice[habit] == Ticked(HabitsOf(entry), habit)
  {
  }

  // ---------------------------------------------------------------- gratitude

  /** `entry?.gratitude || ['']` */
  function GratitudeOf(entry: Option<DailyEntry>): (g: seq<string>)
    ensures entry.None? ==> g == [""]
  {
    if entry.Some? then entry.value.gratitude else [""]
  }

  /** `updateGratitude(index, text)`: writes an existing line and saves; otherwise no save. */
  function UpdateGratitude(entry: Option<DailyEntry>, index: int, text: string, ctx: Context): Option<DailyEntry> {
    var g := GratitudeOf(entry);
    if 0 <= index < |g| then Some(SaveEntry(entry, SetGratitude(g[index := text]), ctx)) else None
  }

  function AddGratitude(entry: Option<DailyEntry>, ctx: Context): DailyEntry {
    SaveEntry(entry, SetGratitude(GratitudeOf(entry) + [""]), ctx)
  }

  /** `Array.prototype.splice(index, 1)` on a copy: a negative index counts from the end
      (clamped at the front), an index at or past the end removes nothing. */
  function SpliceOne(s: seq<string>, index: int): (r: seq<string>)
    ensures |s| - 1 <= |r| <= |s|
  {
    var start := if index < 0 then (if |s| + index < 0 then 0 else |s| + index) else index;
    if start < |s| then s[..start] + s[start + 1..] else s
  }

  /** `removeGratitude(index)`: removes and saves only while more than one line is left. */
  function RemoveGratitude(entry: Option<DailyEntry>, index: int, ctx: Context): Option<DailyEntry> {
    var g := GratitudeOf(entry);
    if |g| > 1 then Some(SaveEntry(entry, SetGratitude(SpliceOne(g, index)), ctx)) else None
  }

  /** An update writes exactly the line it names when that line exists, and saves nothing
      otherwise. */
  lemma UpdateGratitudeGuard(entry: Option<DailyEntry>, index: int, text: string, ctx: Context)
    ensures UpdateGratitude(entry, index, text, ctx).Some? <==> 0 <= index < |GratitudeOf(entry)|
    ensures UpdateGratitude(entry, index, text, ctx).Some? ==>
      var g, r := GratitudeOf(entry), UpdateGratitude(entry, index, text, ctx).value.gratitude;
      |r| == |g| && r[index] == text && forall j :: 0 <= j < |g| && j != index ==> r[j] == g[j]
  {
  }

  /** Adding appends one empty line. */
  lemma AddGratitudeAppends(entry: Option<DailyEntry>, ctx: Context)
    ensures AddGratitude(entry, ctx).gratitude == GratitudeOf(entry) + [""]
  {
  }

  /** Removing line `index` of the list takes out exactly that line, and the list is never
      emptied: with a single line nothing is saved. */
  lemma RemoveGratitudeExact(entry: Option<DailyEntry>, index: int, ctx: Context)
    ensures RemoveGratitude(entry, index, ctx).Some? <==> |GratitudeOf(entry)| > 1
    ensures RemoveGratitude(entry, index, ctx).Some? ==> |RemoveGratitude(entry, index, ctx).value.gratitude| >= 1
    ensures RemoveGratitude(entry, index, ctx).Some? && 0 <= index < |GratitudeOf(entry)| ==>
      var g := GratitudeOf(entry);
      RemoveGratitude(entry, index, ctx).value.gratitude == g[..index] + g[index + 1..]
  {
  }

  /** A negative index removes from the end, as `splice` does: -1 takes out the last line. */
  lemma SpliceFromEnd(s: seq<string>)
    requires |s| > 0
    ensures SpliceOne(s, -1) == s[..|s| - 1]
  {
  }

  // ---------------------------------------------------------------- tasks

  /** A `Partial<DailyTask>`: the fields to overwrite. */
  datatype TaskPatch = TaskPatch(
    id: Option<string>,
    text: Option<string>,
    completed: Option<bool>,
    targetTime: Option<string>,
    actualTime: Option<string>,
    sessions: Option<int>)

  /** `{ ...t, ...updates }` */
  function Merge(t: DailyTask, p: TaskPatch): (r: DailyTask)
    ensures p == TaskPatch(None, None, None, None, None, None) ==> r == t
    ensures r.text == p.text.GetOr(t.text) && r.completed == p.completed.GetOr(t.completed)
  {
    DailyTask(
      p.id.GetOr(t.id), p.text.GetOr(t.text), p.completed.GetOr(t.completed),
      if p.targetTime.Some? then p.targetTime else t.targetTime,
      if p.actualTime.Some? then p.actualTime else t.actualTime,
      if p.sessions.Some? then p.sessions else t.sessions)
  }

  /** `entry?.[type] || []` */
  function TasksOf(entry: Option<DailyEntry>, kind: DailyKind): seq<DailyTask> {
    if entry.Some? then TaskList(entry.value, kind) else []
  }

  /** `updateTask(type, id, updates)` */
  function UpdateTask(entry: Option<DailyEntry>, kind: DailyKind, id: string, p: TaskPatch, ctx: Context): DailyEntry {
    SaveEntry(entry, SetTasks(kind, Map(TasksOf(entry, kind), (t: DailyTask) => if t.id == id then Merge(t, p) else t)), ctx)
  }

  /** `toggleTask(type, id)` */
  function ToggleTask(entry: Option<DailyEntry>, kind: DailyKind, id: string, ctx: Context): DailyEntry {
    SaveEntry(entry, SetTasks(kind, Map(TasksOf(entry, kind), (t: DailyTask) => if t.id == id then t.(completed := !t.completed) else t)), ctx)
  }

  /** The update merges into the tasks with that id only, keeping the list's length and order. */
  lemma UpdateTaskMergesMatching(entry: Option<DailyEntry>, kind: DailyKind, id: string, p: TaskPatch, ctx: Context, i: nat)
    requires i < |TasksOf(entry, kind)|
    ensures var before, after := TasksOf(entry, kind), TasksOf(Some(UpdateTask(entry, kind, id, p, ctx)), kind);
      && |after| == |before|
      && after[i] == if before[i].id == id then Merge(before[i], p) else before[i]
  {
  }

  /** Toggling flips the mark of the tasks with that id only; twice restores the list. */
  lemma ToggleTaskFlips(entry: Option<DailyEntry>, kind: DailyKind, id: string, ctx: Context)
    ensures var before, after := TasksOf(entry, kind), TasksOf(Some(ToggleTask(entry, kind, id, ctx)), kind);
      && |after| == |before|
      && forall i :: 0 <= i < |before| ==>
           after[i].completed == (before[i].completed != (before[i].id == id))
           && after[i].(completed := before[i].completed) == before[i]
    ensures TasksOf(Some(ToggleTask(Some(ToggleTask(entry, kind, id, ctx)), kind, id, ctx)), kind) == TasksOf(entry, kind)
  {
    var twice := TasksOf(Some(ToggleTask(Some(ToggleTask(entry, kind, id, ctx)), kind, id, ctx)), kind);
    assert forall i :: 0 <= i < |twice| ==> twice[i] == TasksOf(entry, kind)[i];
  }

  /** On a day with nothing stored the page shows two placeholder tasks, but a task handler
      works on the stored list, which is empty: it saves an empty list in their place. */
  lemma NewDayToggleSavesNoTasks(kind: DailyKind, id: string, ctx: Context)
    ensures TaskList(ToggleTask(None, kind, id, ctx), kind) == []
  {
  }

  /** The add-task button as written (DailyView.tsx:509): `updateTask` with a fresh id. */
  function AddTaskAsWritten(entry: Option<DailyEntry>, kind: DailyKind, freshId: string, ctx: Context): DailyEntry {
    UpdateTask(entry, kind, freshId, TaskPatch(None, Some(""), Some(false), None, None, None), ctx)
  }

  /** No stored task carries a freshly drawn id, so the button saves the list unchanged. */
  lemma AddTaskAsWrittenAddsNothing(entry: Option<DailyEntry>, kind: DailyKind, freshId: string, ctx: Context)
    requires forall t :: t in TasksOf(entry, kind) ==> t.id != freshId
    ensures TasksOf(Some(AddTaskAsWritten(entry, kind, freshId, ctx)), kind) == TasksOf(entry, kind)
  {
    var before := TasksOf(entry, kind);
    var after := TasksOf(Some(AddTaskAsWritten(entry, kind, freshId, ctx)), kind);
    assert forall i :: 0 <= i < |before| ==> before[i] in before && after[i] == before[i];
  }

  /** What the button evidently means: append one empty, open task under the fresh id. */
  function AddTask(entry: Option<DailyEntry>, kind: DailyKind, freshId: string, ctx: Context): DailyEntry {
    SaveEntry(entry, SetTasks(kind, TasksOf(entry, kind) + [EmptyTask(freshId)]), ctx)
  }

  /** The corrected button adds exactly one task and keeps the others in order. */
  lemma AddTaskAppends(entry: Option<DailyEntry>, kind: DailyKind, freshId: string, ctx: Context)
    ensures var before, after := TasksOf(entry, kind), TasksOf(Some(AddTask(entry, kind, freshId, ctx)), kind);
      && |after| == |before| + 1 && after[..|before|] == before
      && after[|before|].id == freshId && after[|before|].text == "" && !after[|before|].completed
  {
  }
}
