/** The yearly page (src/YearlyView.tsx): five goal slots kept in local state, the effect
    that pads a stored year to five goals, and the handlers that edit a goal and save the
    whole list. The page holds `localGoals` and sees the year's stored record (the live
    query's `entry`); both are fields of `YearlyPage`. New ids and `Date.now()` are
    parameters. */
module YearlyView {
  import opened Wrappers
  import opened Records

  /** The number of goal slots the page keeps. */
  const GoalCount: nat := 5

  /** A new goal slot: `{ id, text: '', completed: false, monthlyActions: {} }`. */
  function EmptyGoal(id: string): YearlyGoal {
    YearlyGoal(id, "", false, Some(map[]), None)
  }

  /** The padding loop: `while (currentGoals.length < 5) currentGoals.push(newGoal)`. */
  method PadGoals(goals: seq<YearlyGoal>, freshIds: seq<string>) returns (padded: seq<YearlyGoal>)
    requires |goals| + |freshIds| >= GoalCount
    ensures |padded| == if |goals| < GoalCount then GoalCount else |goals|
    ensures padded[..|goals|] == goals
    ensures forall i :: |goals| <= i < |padded| ==> padded[i] == EmptyGoal(freshIds[i - |goals|])
  {
    padded := goals;
    while |padded| < GoalCount
      invariant |goals| <= |padded| <= (if |goals| < GoalCount then GoalCount else |goals|)
      invariant padded[..|goals|] == goals
      invariant forall i :: |goals| <= i < |padded| ==> padded[i] == EmptyGoal(freshIds[i - |goals|])
      decreases GoalCount - |padded|
    {
      padded := padded + [EmptyGoal(freshIds[|padded| - |goals|])];
    }
  }

  // ---------------------------------------------------------------- goal edits

  /** `newGoals[index] = { ...newGoals[index], text }` when that goal exists. */
  function SetGoalText(goals: seq<YearlyGoal>, index: int, text: string): (r: seq<YearlyGoal>)
    ensures |r| == |goals|
    ensures forall j :: 0 <= j < |goals| && j != index ==> r[j] == goals[j]
    ensures 0 <= index < |goals| ==> r[index] == goals[index].(text := text)
  {
    if 0 <= index < |goals| then goals[index := goals[index].(text := text)] else goals
  }

  /** `{ ...goal, completed: !goal.completed }` at `index`. */
  function ToggleGoalAt(goals: seq<YearlyGoal>, index: int): (r: seq<YearlyGoal>)
    ensures |r| == |goals|
    ensures forall j :: 0 <= j < |goals| && j != index ==> r[j] == goals[j]
    ensures 0 <= index < |goals| ==> r[index] == goals[index].(completed := !goals[index].completed)
  {
    if 0 <= index < |goals| then goals[index := goals[index].(completed := !goals[index].completed)] else goals
  }

  /** `goal.monthlyActions || {}` */
  function ActionsOf(goal: YearlyGoal): map<int, MonthlyAction> {
    goal.monthlyActions.GetOr(map[])
  }

  /** `monthlyActions[month] || { text: '', completed: false }` */
  function ActionAt(actions: map<int, MonthlyAction>, month: int): MonthlyAction {
    if month in actions then actions[month] else MonthlyAction("", false)
  }

  /** Set the action of month `monthIndex + 1` of goal `goalIndex` (when that goal exists). */
  function EditMonth(goals: seq<YearlyGoal>, goalIndex: int, monthIndex: int, action: MonthlyAction): (r: seq<YearlyGoal>)
    ensures |r| == |goals|
  {
    if 0 <= goalIndex < |goals| then
      var actions := ActionsOf(goals[goalIndex]);
      goals[goalIndex := goals[goalIndex].(monthlyActions := Some(actions[monthIndex + 1 := action]))]
    else goals
  }

  /** `updateMonthlyAction(goalIndex, monthIndex, text)`'s new list. */
  function SetMonthlyText(goals: seq<YearlyGoal>, goalIndex: int, monthIndex: int, text: string): seq<YearlyGoal> {
    if 0 <= goalIndex < |goals| then
      EditMonth(goals, goalIndex, monthIndex, ActionAt(ActionsOf(goals[goalIndex]), monthIndex + 1).(text := text))
    else goals
  }

  /** `toggleMonthlyAction(goalIndex, monthIndex)`'s new list. */
  function ToggleMonthly(goals: seq<YearlyGoal>, goalIndex: int, monthIndex: int): seq<YearlyGoal> {
    if 0 <= goalIndex < |goals| then
      var a := ActionAt(ActionsOf(goals[goalIndex]), monthIndex + 1);
      EditMonth(goals, goalIndex, monthIndex, a.(completed := !a.completed))
    else goals
  }

  /** `updateGoalReflection(index, reflection)`'s new list. */
  function SetReflection(goals: seq<YearlyGoal>, index: int, reflection: string): (r: seq<YearlyGoal>)
    ensures |r| == |goals|
    ensures forall j :: 0 <= j < |goals| && j != index ==> r[j] == goals[j]
    ensures 0 <= index < |goals| ==> r[index] == goals[index].(reflection := Some(reflection))
  {
    if 0 <= index < |goals| then goals[index := goals[index].(reflection := Some(reflection))] else goals
  }

  /** The month edits touch one key of one goal: the action of month `monthIndex + 1` gets
      the new text (keeping its mark, which starts unset) or its mark flipped (keeping its
      text, which starts empty); every other month and every other goal is unchanged, and
      so are the goal's id, text, mark and reflection. */
  lemma MonthlyEditsTouchOneKey(goals: seq<YearlyGoal>, goalIndex: int, monthIndex: int, text: string, j: int, month: int)
    requires 0 <= goalIndex < |goals| && 0 <= j < |goals|
    ensures var r, s := SetMonthlyText(goals, goalIndex, monthIndex, text), ToggleMonthly(goals, goalIndex, monthIndex);
      var before := ActionAt(ActionsOf(goals[goalIndex]), monthIndex + 1);
      && |r| == |goals| && |s| == |goals|
      && (j != goalIndex ==> r[j] == goals[j] && s[j] == goals[j])
      && r[goalIndex].(monthlyActions := goals[goalIndex].monthlyActions) == goals[goalIndex]
      && s[goalIndex].(monthlyActions := goals[goalIndex].monthlyActions) == goals[goalIndex]
      && ActionsOf(r[goalIndex])[monthIndex + 1] == MonthlyAction(text, before.completed)
      && ActionsOf(s[goalIndex])[monthIndex + 1] == MonthlyAction(before.text, !before.completed)
      && (month != monthIndex + 1 ==>
            (month in ActionsOf(r[goalIndex]) <==> month in ActionsOf(goals[goalIndex]))
            && (month in ActionsOf(s[goalIndex]) <==> month in ActionsOf(goals[goalIndex]))
            && ActionAt(ActionsOf(r[goalIndex]), month) == ActionAt(ActionsOf(goals[goalIndex]), month)
            && ActionAt(ActionsOf(s[goalIndex]), month) == ActionAt(ActionsOf(goals[goalIndex]), month))
  {
  }

  /** A month never planned before starts from an empty, open action. */
  lemma FirstMonthlyEdit(goal: YearlyGoal, monthIndex: int, text: string)
    requires monthIndex + 1 !in ActionsOf(goal)
    ensures ActionsOf(SetMonthlyText([goal], 0, monthIndex, text)[0])[monthIndex + 1] == MonthlyAction(text, false)
    ensures ActionsOf(ToggleMonthly([goal], 0, monthIndex)[0])[monthIndex + 1] == MonthlyAction("", true)
  {
  }

  /** Toggling a goal's mark, or a month's, twice restores the goal list's marks. */
  lemma TogglesTwice(goals: seq<YearlyGoal>, index: int, monthIndex: int)
    ensures ToggleGoalAt(ToggleGoalAt(goals, index), index) == goals
    ensures 0 <= index < |goals| ==>
      ActionAt(ActionsOf(ToggleMonthly(ToggleMonthly(goals, index, monthIndex), index, monthIndex)[index]), monthIndex + 1)
      == ActionAt(ActionsOf(goals[index]), monthIndex + 1)
  {
  }

  // ---------------------------------------------------------------- the page

  /** The one field each call of `saveEntry` passes. */
  datatype YearlyUpdate = SetTheme(theme: string) | SetGoals(goals: seq<YearlyGoal>) | SetYearReflection(reflection: string)

  /** `saveEntry(updates)`: `{ ...(entry || defaults), ...updates, updatedAt: Date.now() }`.
      The default goal list is the local goals, or `fallback` (the five goals drawn with new
      ids) when there are none. */
  function Save(stored: Option<YearlyEntry>, localGoals: seq<YearlyGoal>, fallback: seq<YearlyGoal>, u: YearlyUpdate, yearId: string, now: int): (e: YearlyEntry)
    ensures e.updatedAt == now
    ensures e.id == if stored.Some? then stored.value.id else yearId
    ensures e.goals == if u.SetGoals? then u.goals else if stored.Some? then stored.value.goals
                       else if |localGoals| > 0 then localGoals else fallback
    ensures e.theme == if u.SetTheme? then u.theme else if stored.Some? then stored.value.theme else ""
    ensures e.reflection == if u.SetYearReflection? then u.reflection else if stored.Some? then stored.value.reflection else ""
  {
    var c := stored.GetOr(YearlyEntry(yearId, "", if |localGoals| > 0 then localGoals else fallback, "", now));
    var patched := match u
      case SetTheme(t) => c.(theme := t)
      case SetGoals(gs) => c.(goals := gs)
      case SetYearReflection(t) => c.(reflection := t)
      ;
    patched.(updatedAt := now)
  }

  /** Five empty goals under the given ids. */
  function FreshGoals(ids: seq<string>): (r: seq<YearlyGoal>)
    requires |ids| >= GoalCount
    ensures |r| == GoalCount && forall i :: 0 <= i < GoalCount ==> r[i] == EmptyGoal(ids[i])
  {
    seq(GoalCount, i requires 0 <= i < GoalCount => EmptyGoal(ids[i]))
  }

  class YearlyPage {
    const yearId: string
    var localGoals: seq<YearlyGoal>
    /** The year whose stored goals were last copied into `localGoals`; "" at first. */
    var loadedYearId: string
    /** The year's stored record; `None` when there is none. */
    var stored: Option<YearlyEntry>

    /** At least five goal slots: the page starts with five, the synchronisation effect
        copies only stored lists of five or more, and the handlers keep the length. */
    predicate Valid()
      reads this
    {
      |localGoals| >= GoalCount
    }

    /** The initial state: five fresh empty slots. */
    constructor(yearId: string, stored: Option<YearlyEntry>, freshIds: seq<string>)
      requires |freshIds| >= GoalCount
      ensures Valid()
      ensures this.yearId == yearId && this.stored == stored && loadedYearId == ""
      ensures |localGoals| == GoalCount
      ensures forall i :: 0 <= i < GoalCount ==> localGoals[i] == EmptyGoal(freshIds[i])
    {
      this.yearId := yearId;
      this.stored := stored;
      loadedYearId := "";
      localGoals := FreshGoals(freshIds);
    }

    /** The synchronisation effect: a stored list of five or more goals is deep-copied into
        `localGoals` the first time the year is seen, and afterwards whenever it differs
        from them and no text area has the focus (`typing`). A shorter or missing list
        changes nothing; the padding effect fills it first. */
    method SyncEffect(typing: bool)
      requires Valid()
      modifies this
      ensures Valid() && stored == old(stored)
      ensures old(stored).Some? && |old(stored).value.goals| >= GoalCount && (old(loadedYearId) != yearId || !typing) ==>
        localGoals == old(stored).value.goals && loadedYearId == yearId
      ensures !(old(stored).Some? && |old(stored).value.goals| >= GoalCount && (old(loadedYearId) != yearId || !typing)) ==>
        localGoals == old(localGoals) && loadedYearId == old(loadedYearId)
    {
      if stored.Some? && |stored.value.goals| >= GoalCount {
        if yearId != loadedYearId {
          localGoals := stored.value.goals;
          loadedYearId := yearId;
        } else if !typing && stored.value.goals != localGoals {
          localGoals := stored.value.goals;
        }
      }
    }

    /** The padding effect: a stored year with fewer than five goals gets empty goals up to
        five (an `update` of `goals` alone); a missing year is created with five. */
    method PadEffect(freshIds: seq<string>, now: int)
      requires Valid() && |freshIds| >= GoalCount
      modifies this
      ensures Valid() && localGoals == old(localGoals) && loadedYearId == old(loadedYearId)
      ensures old(stored).Some? && |old(stored).value.goals| >= GoalCount ==> stored == old(stored)
      ensures old(stored).Some? && |old(stored).value.goals| < GoalCount ==>
        var before := old(stored).value;
        && stored.Some? && stored.value.(goals := before.goals) == before
        && |stored.value.goals| == GoalCount && stored.value.goals[..|before.goals|] == before.goals
        && forall i :: |before.goals| <= i < GoalCount ==> stored.value.goals[i] == EmptyGoal(freshIds[i - |before.goals|])
      ensures old(stored).None? ==>
        stored == Some(YearlyEntry(yearId, "", FreshGoals(freshIds), "", now))
    {
      if stored.Some? && |stored.value.goals| < GoalCount {
        var padded := PadGoals(stored.value.goals, freshIds);
        stored := Some(stored.value.(goals := padded));
      } else if stored.None? {
        stored := Some(YearlyEntry(yearId, "", FreshGoals(freshIds), "", now));
      }
    }

    /** `saveEntry({ theme })` or `saveEntry({ reflection })` from the page's text fields. */
    method SaveField(u: YearlyUpdate, now: int)
      requires Valid() && !u.SetGoals?
      modifies this
      ensures loadedYearId == old(loadedYearId)
      ensures Valid() && localGoals == old(localGoals)
      ensures stored == Some(Save(old(stored), localGoals, [], u, yearId, now))
    {
      stored := Some(Save(stored, localGoals, [], u, yearId, now));
    }

    /** `handleGoalTextChange`: the local text only, nothing saved. */
    method TextChange(index: int, text: string)
      requires Valid()
      modifies this
      ensures loadedYearId == old(loadedYearId)
      ensures Valid() && stored == old(stored)
      ensures localGoals == SetGoalText(old(localGoals), index, text)
    {
      localGoals := SetGoalText(localGoals, index, text);
    }

    /** `handleGoalTextSave`: the shallow copy shares the goal objects, so writing
        `goals[index].text` changes the local goal too; then the list is saved. */
    method TextSave(index: int, text: string, now: int)
      requires Valid()
      modifies this
      ensures loadedYearId == old(loadedYearId)
      ensures Valid() && localGoals == SetGoalText(old(localGoals), index, text)
      ensures stored == if 0 <= index < |old(localGoals)| then Some(Save(old(stored), old(localGoals), [], SetGoals(localGoals), yearId, now)) else old(stored)
    {
      if 0 <= index < |localGoals| {
        var goals := SetGoalText(localGoals, index, text);
        stored := Some(Save(stored, localGoals, [], SetGoals(goals), yearId, now));
        localGoals := goals;
      }
    }

    /** The four handlers that rebuild one goal, set it locally and save the list. */
    method Commit(goals: seq<YearlyGoal>, changed: bool, now: int)
      requires Valid() && |goals| == |localGoals|
      modifies this
      ensures loadedYearId == old(loadedYearId)
      ensures Valid()
      ensures changed ==> localGoals == goals && stored == Some(Save(old(stored), old(localGoals), [], SetGoals(goals), yearId, now))
      ensures !changed ==> localGoals == old(localGoals) && stored == old(stored)
    {
      if changed {
        stored := Some(Save(stored, localGoals, [], SetGoals(goals), yearId, now));
        localGoals := goals;
      }
    }

    method ToggleGoal(index: int, now: int)
      requires Valid()
      modifies this
      ensures loadedYearId == old(loadedYearId)
      ensures Valid()
      ensures 0 <= index < |old(localGoals)| ==> (localGoals == ToggleGoalAt(old(localGoals), index)
        && stored == Some(Save(old(stored), old(localGoals), [], SetGoals(localGoals), yearId, now)))
      ensures !(0 <= index < |old(localGoals)|) ==> localGoals == old(localGoals) && stored == old(stored)
    {
      Commit(ToggleGoalAt(localGoals, index), 0 <= index < |localGoals|, now);
    }

    method UpdateMonthlyAction(goalIndex: int, monthIndex: int, text: string, now: int)
      requires Valid()
      modifies this
      ensures loadedYearId == old(loadedYearId)
      ensures Valid()
      ensures 0 <= goalIndex < |old(localGoals)| ==> (localGoals == SetMonthlyText(old(localGoals), goalIndex, monthIndex, text)
        && stored == Some(Save(old(stored), old(localGoals), [], SetGoals(localGoals), yearId, now)))
      ensures !(0 <= goalIndex < |old(localGoals)|) ==> localGoals == old(localGoals) && stored == old(stored)
    {
      Commit(SetMonthlyText(localGoals, goalIndex, monthIndex, text), 0 <= goalIndex < |localGoals|, now);
    }

    method ToggleMonthlyAction(goalIndex: int, monthIndex: int, now: int)
      requires Valid()
      modifies this
      ensures loadedYearId == old(loadedYearId)
      ensures Valid()
      ensures 0 <= goalIndex < |old(localGoals)| ==> (localGoals == ToggleMonthly(old(localGoals), goalIndex, monthIndex)
        && stored == Some(Save(old(stored), old(localGoals), [], SetGoals(localGoals), yearId, now)))
      ensures !(0 <= goalIndex < |old(localGoals)|) ==> localGoals == old(localGoals) && stored == old(stored)
    {
      Commit(ToggleMonthly(localGoals, goalIndex, monthIndex), 0 <= goalIndex < |localGoals|, now);
    }

    method UpdateGoalReflection(index: int, reflection: string, now: int)
      requires Valid()
      modifies this
      ensures loadedYearId == old(loadedYearId)
      ensures Valid()
      ensures 0 <= index < |old(localGoals)| ==> (localGoals == SetReflection(old(localGoals), index, reflection)
        && stored == Some(Save(old(stored), old(localGoals), [], SetGoals(localGoals), yearId, now)))
      ensures !(0 <= index < |old(localGoals)|) ==> localGoals == old(localGoals) && stored == old(stored)
    {
      Commit(SetReflection(localGoals, index, reflection), 0 <= index < |localGoals|, now);
    }
  }
}
