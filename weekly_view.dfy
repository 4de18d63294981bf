/** The weekly page's record edits (src/WeeklyView.tsx): the read-merge-write `saveEntry`,
    the three task lists, the actions planned this week for each yearly goal (with the
    migration of the earlier single-action format) and next week's goals. Every handler
    reads the stored entry, computes one field and saves it; here a handler is the
    function from the stored entry to the record it writes. New ids and `Date.now()` are
    parameters. The week id itself is `IsoWeek.WeekId`. */
module WeeklyView {
  import opened Wrappers
  import opened Text
  import opened Lists
  import opened Records
  import Items

  /** The `type` argument of the task handlers. */
  datatype TaskKind = MostImportant | Secondary | Additional

  /** The one field that each call of `saveEntry` passes in `updates`. */
  datatype WeeklyUpdate =
    | SetIntention(intention: string)
    | SetTasks(kind: TaskKind, tasks: seq<WeeklyTask>)
    | SetGoalActions(goalActions: map<int, StoredActions>)
    | SetNextWeekGoals(goals: seq<WeeklyTask>)
    | SetReflection(reflection: string)
    | SetGratitude(gratitude: string)

  /** The record fields an update can name. */
  datatype WeeklyField = Intention | Tasks(kind: TaskKind) | GoalActions | NextWeekGoals | Reflection | Gratitude

  /** What the week's handlers need besides the stored entry: the week id, the ISO string
      of the week's Monday (`startOfWeek(selectedDate, { weekStartsOn: 1 }).toISOString()`)
      and the clock. */
  datatype Context = Context(weekId: string, weekStart: string, now: int)

  function FieldOf(u: WeeklyUpdate): WeeklyField {
    match u
    case SetIntention(_) => Intention
    case SetTasks(k, _) => Tasks(k)
    case SetGoalActions(_) => GoalActions
    case SetNextWeekGoals(_) => NextWeekGoals
    case SetReflection(_) => Reflection
    case SetGratitude(_) => Gratitude
  }

  function TaskList(e: WeeklyEntry, kind: TaskKind): seq<WeeklyTask> {
    match kind
    case MostImportant => e.mostImportantTasks
    case Secondary => e.secondaryTasks
    case Additional => e.additionalTasks
  }

  /** Field `f` of a record, as the update that would write its present value. */
  function Read(e: WeeklyEntry, f: WeeklyField): (u: WeeklyUpdate)
    ensures FieldOf(u) == f
  {
    match f
    case Intention => SetIntention(e.intention)
    case Tasks(k) => SetTasks(k, TaskList(e, k))
    case GoalActions => SetGoalActions(e.yearlyGoalActions)
    case NextWeekGoals => SetNextWeekGoals(e.nextWeekGoals)
    case Reflection => SetReflection(e.reflection)
    case Gratitude => SetGratitude(e.gratitude)
  }

  /** The defaults of `saveEntry`: empty texts, lists and goal-action map. */
  const Blank: WeeklyEntry := WeeklyEntry("", "", "", [], [], [], map[], [], "", "", 0)

  /** Field `f` as `saveEntry` finds it before the update: the stored value, else the default.
      (For these fields `stored || default` is the stored value: lists and maps are truthy
      and the default of each text is the empty string.) */
  function Prior(entry: Option<WeeklyEntry>, f: WeeklyField): WeeklyUpdate {
    if entry.Some? then Read(entry.value, f) else Read(Blank, f)
  }

  function Apply(e: WeeklyEntry, u: WeeklyUpdate): (r: WeeklyEntry)
    ensures FieldOf(u) != GoalActions ==> r.yearlyGoalActions == e.yearlyGoalActions
  {
    match u
    case SetIntention(t) => e.(intention := t)
    case SetTasks(MostImportant, ts) => e.(mostImportantTasks := ts)
    case SetTasks(Secondary, ts) => e.(secondaryTasks := ts)
    case SetTasks(Additional, ts) => e.(additionalTasks := ts)
    case SetGoalActions(m) => e.(yearlyGoalActions := m)
    case SetNextWeekGoals(gs) => e.(nextWeekGoals := gs)
    case SetReflection(t) => e.(reflection := t)
    case SetGratitude(t) => e.(gratitude := t)
  }

  /** `saveEntry(updates)`: the week id, the stored start date unless it is empty, every
      other stored field or its default, the clock, and then the update. */
  function SaveEntry(entry: Option<WeeklyEntry>, u: WeeklyUpdate, ctx: Context): (e: WeeklyEntry)
    ensures e.id == ctx.weekId && e.updatedAt == ctx.now
    ensures e.startDate == if entry.Some? then OrElse(entry.value.startDate, ctx.weekStart) else ctx.weekStart
  {
    var c := if entry.Some? then entry.value else Blank;
    var base := WeeklyEntry(
      ctx.weekId,
      if entry.Some? then OrElse(c.startDate, ctx.weekStart) else ctx.weekStart,
      c.intention, c.mostImportantTasks, c.secondaryTasks, c.additionalTasks,
      c.yearlyGoalActions, c.nextWeekGoals, c.reflection, c.gratitude,
      ctx.now);
    Apply(base, u)
  }

  /** The precedence of `saveEntry`: the field the update names takes the update's value;
      every other field keeps the stored value, or takes its default when nothing is stored. */
  lemma SaveEntryFields(entry: Option<WeeklyEntry>, u: WeeklyUpdate, ctx: Context, f: WeeklyField)
    ensures Read(SaveEntry(entry, u, ctx), f) == if f == FieldOf(u) then u else Prior(entry, f)
  {
  }

  /** Saving the same update again, later, changes nothing but the timestamp. */
  lemma SaveEntryIdempotent(entry: Option<WeeklyEntry>, u: WeeklyUpdate, ctx: Context, later: int)
    ensures SaveEntry(Some(SaveEntry(entry, u, ctx)), u, ctx.(now := later)) == SaveEntry(entry, u, ctx.(now := later))
  {
  }

  /** Saving a field's present value into a record this view wrote only refreshes `updatedAt`. */
  lemma ResaveOnlyTouchesClock(e: WeeklyEntry, f: WeeklyField, ctx: Context)
    requires e.id == ctx.weekId && e.startDate != ""
    ensures SaveEntry(Some(e), Read(e, f), ctx) == e.(updatedAt := ctx.now)
  {
  }

  // ---------------------------------------------------------------- task lists

  /** `entry?.[type] || []` */
  function TasksOf(entry: Option<WeeklyEntry>, kind: TaskKind): seq<WeeklyTask> {
    if entry.Some? then TaskList(entry.value, kind) else []
  }

  function PriorityOf(kind: TaskKind): Priority {
    match kind
    case MostImportant => High
    case Secondary => Medium
    case Additional => Low
  }

  /** The task `addTask` creates. */
  function NewTask(kind: TaskKind, id: string): (t: WeeklyTask)
    ensures t.id == id && t.text == "" && !t.completed
    ensures t.priority == High <==> kind == MostImportant
    ensures t.priority == Medium <==> kind == Secondary
    ensures t.priority == Low <==> kind == Additional
  {
    WeeklyTask(id, "", false, PriorityOf(kind))
  }

  function AddTask(entry: Option<WeeklyEntry>, kind: TaskKind, newId: string, ctx: Context): WeeklyEntry {
    SaveEntry(entry, SetTasks(kind, TasksOf(entry, kind) + [NewTask(kind, newId)]), ctx)
  }

  function UpdateTask(entry: Option<WeeklyEntry>, kind: TaskKind, id: string, text: string, ctx: Context): WeeklyEntry {
    SaveEntry(entry, SetTasks(kind, Items.SetTaskText(TasksOf(entry, kind), id, text)), ctx)
  }

  function ToggleTask(entry: Option<WeeklyEntry>, kind: TaskKind, id: string, ctx: Context): WeeklyEntry {
    SaveEntry(entry, SetTasks(kind, Items.ToggleTask(TasksOf(entry, kind), id)), ctx)
  }

  function DeleteTask(entry: Option<WeeklyEntry>, kind: TaskKind, id: string, ctx: Context): WeeklyEntry {
    SaveEntry(entry, SetTasks(kind, Items.DeleteTask(TasksOf(entry, kind), id)), ctx)
  }

  /** A task handler writes its own list and nothing else: every other field keeps the
      stored value (or its default). */
  lemma TaskHandlersTouchOneList(entry: Option<WeeklyEntry>, kind: TaskKind, id: string, text: string, ctx: Context, f: WeeklyField)
    requires f != Tasks(kind)
    ensures Read(AddTask(entry, kind, id, ctx), f) == Prior(entry, f)
    ensures Read(UpdateTask(entry, kind, id, text, ctx), f) == Prior(entry, f)
    ensures Read(ToggleTask(entry, kind, id, ctx), f) == Prior(entry, f)
    ensures Read(DeleteTask(entry, kind, id, ctx), f) == Prior(entry, f)
  {
    SaveEntryFields(entry, SetTasks(kind, TasksOf(entry, kind) + [NewTask(kind, id)]), ctx, f);
    SaveEntryFields(entry, SetTasks(kind, Items.SetTaskText(TasksOf(entry, kind), id, text)), ctx, f);
    SaveEntryFields(entry, SetTasks(kind, Items.ToggleTask(TasksOf(entry, kind), id)), ctx, f);
    SaveEntryFields(entry, SetTasks(kind, Items.DeleteTask(TasksOf(entry, kind), id)), ctx, f);
  }

  /** `addTask` appends exactly one empty, open task of the list's priority. */
  lemma AddTaskAppends(entry: Option<WeeklyEntry>, kind: TaskKind, newId: string, ctx: Context)
    ensures TasksOf(Some(AddTask(entry, kind, newId, ctx)), kind)
         == TasksOf(entry, kind) + [WeeklyTask(newId, "", false, PriorityOf(kind))]
  {
  }

  /** Toggling a task twice restores the list as stored. */
  lemma ToggleTaskTwice(entry: Option<WeeklyEntry>, kind: TaskKind, id: string, ctx: Context)
    ensures TasksOf(Some(ToggleTask(Some(ToggleTask(entry, kind, id, ctx)), kind, id, ctx)), kind) == TasksOf(entry, kind)
  {
    Items.ToggleTaskTwice(TasksOf(entry, kind), id);
  }

  // ---------------------------------------------------------------- yearly-goal actions

  /** `entry?.yearlyGoalActions || {}` */
  function ActionsMap(entry: Option<WeeklyEntry>): map<int, StoredActions> {
    if entry.Some? then entry.value.yearlyGoalActions else map[]
  }

  /** `getGoalActions(goalIndex)`: a stored list as it is, the earlier single-action object
      as a one-element list with id "migrated-0", anything else as no actions. */
  function GetGoalActions(entry: Option<WeeklyEntry>, goalIndex: int): seq<CheckItem> {
    var m := ActionsMap(entry);
    if goalIndex !in m then []
    else match m[goalIndex]
      case ActionList(actions) => actions
      case LegacyAction(text, completed) => [CheckItem("migrated-0", text, completed)]
      case OtherValue => []
  }

  /** The three shapes `getGoalActions` distinguishes. */
  lemma GoalActionsCases(entry: Option<WeeklyEntry>, goalIndex: int)
    ensures var m := ActionsMap(entry);
      && (goalIndex in m && m[goalIndex].ActionList? ==> GetGoalActions(entry, goalIndex) == m[goalIndex].actions)
      && (goalIndex in m && m[goalIndex].LegacyAction? ==>
            GetGoalActions(entry, goalIndex) == [CheckItem("migrated-0", m[goalIndex].text, m[goalIndex].completed)])
      && (goalIndex !in m || m[goalIndex].OtherValue? ==> GetGoalActions(entry, goalIndex) == [])
  {
  }

  /** `{ ...currentAllActions, [goalIndex]: actions }` saved. */
  function SaveGoalActions(entry: Option<WeeklyEntry>, goalIndex: int, actions: seq<CheckItem>, ctx: Context): WeeklyEntry {
    SaveEntry(entry, SetGoalActions(ActionsMap(entry)[goalIndex := ActionList(actions)]), ctx)
  }

  function AddWeeklyGoalAction(entry: Option<WeeklyEntry>, goalIndex: int, newId: string, ctx: Context): WeeklyEntry {
    SaveGoalActions(entry, goalIndex, GetGoalActions(entry, goalIndex) + [CheckItem(newId, "", false)], ctx)
  }

  function UpdateWeeklyGoalAction(entry: Option<WeeklyEntry>, goalIndex: int, actionId: string, text: string, ctx: Context): WeeklyEntry {
    SaveGoalActions(entry, goalIndex, Items.SetItemText(GetGoalActions(entry, goalIndex), actionId, text), ctx)
  }

  function ToggleWeeklyGoalAction(entry: Option<WeeklyEntry>, goalIndex: int, actionId: string, ctx: Context): WeeklyEntry {
    SaveGoalActions(entry, goalIndex, Items.ToggleItem(GetGoalActions(entry, goalIndex), actionId), ctx)
  }

  function DeleteWeeklyGoalAction(entry: Option<WeeklyEntry>, goalIndex: int, actionId: string, ctx: Context): WeeklyEntry {
    SaveGoalActions(entry, goalIndex, Items.DeleteItem(GetGoalActions(entry, goalIndex), actionId), ctx)
  }

  /** Writing one goal's actions stores them as a list under that key (so an action of the
      earlier format is migrated by the first edit), leaves every other key as it was, and
      touches no field but the goal-action map. */
  lemma SaveGoalActionsOnlyThatKey(entry: Option<WeeklyEntry>, goalIndex: int, actions: seq<CheckItem>, ctx: Context, other: int, f: WeeklyField)
    requires other != goalIndex && f != GoalActions
    ensures GetGoalActions(Some(SaveGoalActions(entry, goalIndex, actions, ctx)), goalIndex) == actions
    ensures var before, after := ActionsMap(entry), ActionsMap(Some(SaveGoalActions(entry, goalIndex, actions, ctx)));
      && (other in after <==> other in before)
      && (other in before ==> after[other] == before[other])
    ensures GetGoalActions(Some(SaveGoalActions(entry, goalIndex, actions, ctx)), other) == GetGoalActions(entry, other)
    ensures Read(SaveGoalActions(entry, goalIndex, actions, ctx), f) == Prior(entry, f)
  {
    SaveEntryFields(entry, SetGoalActions(ActionsMap(entry)[goalIndex := ActionList(actions)]), ctx, f);
  }

  /** Each goal-action handler applies its list edit to what `getGoalActions` returned. */
  lemma GoalActionHandlers(entry: Option<WeeklyEntry>, goalIndex: int, id: string, text: string, ctx: Context)
    ensures GetGoalActions(Some(AddWeeklyGoalAction(entry, goalIndex, id, ctx)), goalIndex)
         == GetGoalActions(entry, goalIndex) + [CheckItem(id, "", false)]
    ensures GetGoalActions(Some(UpdateWeeklyGoalAction(entry, goalIndex, id, text, ctx)), goalIndex)
         == Items.SetItemText(GetGoalActions(entry, goalIndex), id, text)
    ensures GetGoalActions(Some(ToggleWeeklyGoalAction(entry, goalIndex, id, ctx)), goalIndex)
         == Items.ToggleItem(GetGoalActions(entry, goalIndex), id)
    ensures GetGoalActions(Some(DeleteWeeklyGoalAction(entry, goalIndex, id, ctx)), goalIndex)
         == Items.DeleteItem(GetGoalActions(entry, goalIndex), id)
  {
  }

  /** Editing the text of a migrated action turns the earlier format into a one-element list. */
  lemma LegacyActionMigrates(entry: WeeklyEntry, goalIndex: int, text: string, ctx: Context)
    requires goalIndex in entry.yearlyGoalActions && entry.yearlyGoalActions[goalIndex].LegacyAction?
    ensures UpdateWeeklyGoalAction(Some(entry), goalIndex, "migrated-0", text, ctx).yearlyGoalActions[goalIndex]
         == ActionList([CheckItem("migrated-0", text, entry.yearlyGoalActions[goalIndex].completed)])
  {
  }

  // ---------------------------------------------------------------- next week's goals

  /** `entry?.nextWeekGoals || []` */
  function NextGoalsOf(entry: Option<WeeklyEntry>): seq<WeeklyTask> {
    if entry.Some? then entry.value.nextWeekGoals else []
  }

  function AddNextWeekGoal(entry: Option<WeeklyEntry>, newId: string, ctx: Context): WeeklyEntry {
    SaveEntry(entry, SetNextWeekGoals(NextGoalsOf(entry) + [WeeklyTask(newId, "", false, Low)]), ctx)
  }

  function UpdateNextWeekGoal(entry: Option<WeeklyEntry>, id: string, text: string, ctx: Context): WeeklyEntry {
    SaveEntry(entry, SetNextWeekGoals(Items.SetTaskText(NextGoalsOf(entry), id, text)), ctx)
  }

  function ToggleNextWeekGoal(entry: Option<WeeklyEntry>, id: string, ctx: Context): WeeklyEntry {
    SaveEntry(entry, SetNextWeekGoals(Items.ToggleTask(NextGoalsOf(entry), id)), ctx)
  }

  function DeleteNextWeekGoal(entry: Option<WeeklyEntry>, id: string, ctx: Context): WeeklyEntry {
    SaveEntry(entry, SetNextWeekGoals(Items.DeleteTask(NextGoalsOf(entry), id)), ctx)
  }

  /** The next-week handlers edit that list only: a new goal is empty, open and of low
      priority, and deleting keeps exactly the goals with another id. */
  lemma NextWeekGoalHandlers(entry: Option<WeeklyEntry>, id: string, text: string, ctx: Context, f: WeeklyField, g: WeeklyTask)
    requires f != NextWeekGoals
    ensures NextGoalsOf(Some(AddNextWeekGoal(entry, id, ctx))) == NextGoalsOf(entry) + [WeeklyTask(id, "", false, Low)]
    ensures NextGoalsOf(Some(UpdateNextWeekGoal(entry, id, text, ctx))) == Items.SetTaskText(NextGoalsOf(entry), id, text)
    ensures NextGoalsOf(Some(ToggleNextWeekGoal(entry, id, ctx))) == Items.ToggleTask(NextGoalsOf(entry), id)
    ensures g in NextGoalsOf(Some(DeleteNextWeekGoal(entry, id, ctx))) <==> g in NextGoalsOf(entry) && g.id != id
    ensures Read(AddNextWeekGoal(entry, id, ctx), f) == Prior(entry, f)
    ensures Read(DeleteNextWeekGoal(entry, id, ctx), f) == Prior(entry, f)
  {
    Items.DeleteTaskExact(NextGoalsOf(entry), [], id, g);
    SaveEntryFields(entry, SetNextWeekGoals(NextGoalsOf(entry) + [WeeklyTask(id, "", false, Low)]), ctx, f);
    SaveEntryFields(entry, SetNextWeekGoals(Items.DeleteTask(NextGoalsOf(entry), id)), ctx, f);
  }
}
