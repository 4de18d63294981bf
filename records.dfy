/** The stored journal records that the modelled operations read and write
    (src/db.ts). Optional properties of the TypeScript interfaces are `Option`s.
    Where a view writes more than its `db.ts` interface declares (the weekly entry's
    extra fields) or uses a type `db.ts` does not declare (`YearlyGoal`, `MandalaEntry`),
    the record follows what the view writes. */
module Records {
  import opened Wrappers

  /** One time-boxed entry on a day's timeline; times are "HH:MM" strings. */
  datatype TimelineEvent = TimelineEvent(
    id: string,
    startTime: string,
    endTime: string,
    text: string,
    color: Option<string>)

  datatype Priority = High | Medium | Low

  datatype WeeklyTask = WeeklyTask(id: string, text: string, completed: bool, priority: Priority)

  datatype DailyTask = DailyTask(
    id: string,
    text: string,
    completed: bool,
    targetTime: Option<string>,
    actualTime: Option<string>,
    sessions: Option<int>)

  /** The `{ id, text, completed }` shape shared by monthly goals and weekly goal actions. */
  datatype CheckItem = CheckItem(id: string, text: string, completed: bool)

  /** What a weekly entry's `yearlyGoalActions[goalIndex]` may hold: the current list of
      actions, the single `{ text, completed }` object of the earlier format, or any other
      value (missing, `null`, a number, an object without `text`). */
  datatype StoredActions =
    | ActionList(actions: seq<CheckItem>)
    | LegacyAction(text: string, completed: bool)
    | OtherValue

  /** A weekly entry as WeeklyView writes it: the fields of the `WeeklyEntry` interface plus
      the goal actions (keyed by yearly-goal index), next week's goals, reflection and
      gratitude that the view adds. */
  datatype WeeklyEntry = WeeklyEntry(
    id: string,
    startDate: string,
    intention: string,
    mostImportantTasks: seq<WeeklyTask>,
    secondaryTasks: seq<WeeklyTask>,
    additionalTasks: seq<WeeklyTask>,
    yearlyGoalActions: map<int, StoredActions>,
    nextWeekGoals: seq<WeeklyTask>,
    reflection: string,
    gratitude: string,
    updatedAt: int)

  datatype DailyEntry = DailyEntry(
    id: string,
    date: string,
    gratitude: seq<string>,
    intention: string,
    mostImportantTask: DailyTask,
    secondaryTasks: seq<DailyTask>,
    additionalTasks: seq<DailyTask>,
    habitCompletion: map<string, bool>,
    highlight: string,
    learning: string,
    remember: string,
    mood: int,
    rateDay: int,
    timeline: seq<TimelineEvent>,
    updatedAt: int)

  datatype MonthlyEntry = MonthlyEntry(
    id: string,
    intention: string,
    goals: seq<CheckItem>,
    reflection: string,
    updatedAt: int)

  /** One month's action of a yearly goal. */
  datatype MonthlyAction = MonthlyAction(text: string, completed: bool)

  /** A yearly goal as YearlyView writes it; `monthlyActions` is keyed by month 1..12. */
  datatype YearlyGoal = YearlyGoal(
    id: string,
    text: string,
    completed: bool,
    monthlyActions: Option<map<int, MonthlyAction>>,
    reflection: Option<string>)

  datatype YearlyEntry = YearlyEntry(
    id: string,
    theme: string,
    goals: seq<YearlyGoal>,
    reflection: string,
    updatedAt: int)

  /** One of the eight themes around the mandala's main goal, with its eight items. */
  datatype SubGoal = SubGoal(text: string, items: seq<string>)

  datatype MandalaEntry = MandalaEntry(
    id: string,
    mainGoal: string,
    subGoals: seq<SubGoal>,
    updatedAt: int)
}
