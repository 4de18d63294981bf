/** The monthly page's record edits (src/MonthlyView.tsx): the month id, `saveEntry` and the
    goal list. A handler is the function from the stored entry to the record it saves; new
    ids and `Date.now()` are parameters. */
module MonthlyView {
  import opened Wrappers
  import opened Text
  import opened Lists
  import opened Records
  import Items

  /** `${year}-${String(month).padStart(2, '0')}` for the month 1..12 of the selected date. */
  function MonthId(year: int, month: int): string {
    IntToString(year) + "-" + PadStart2(IntToString(month))
  }

  /** The month id is the year, a dash and exactly two digits that read back as the month. */
  lemma MonthIdParts(year: nat, month: int)
    requires 1 <= month <= 12
    ensures var parts := Split(MonthId(year, month), '-');
      && parts == [NatToString(year), PadStart2(NatToString(month))]
      && |parts[1]| == 2 && AllDigits(parts[1])
      && ParseInt(parts[0]) == Some(year as int) && ParseInt(parts[1]) == Some(month)
  {
    var m := PadStart2(NatToString(month));
    PaddedNatRoundTrip(month);
    ShortNat(month);
    assert MonthId(year, month) == NatToString(year) + ['-'] + m;
    SplitDigitPair(NatToString(year), '-', m);
  }

  /** Different months (of years from 0 on) get different ids. */
  lemma MonthIdInjective(y1: nat, m1: int, y2: nat, m2: int)
    requires 1 <= m1 <= 12 && 1 <= m2 <= 12
    requires MonthId(y1, m1) == MonthId(y2, m2)
    ensures y1 == y2 && m1 == m2
  {
    MonthIdParts(y1, m1);
    MonthIdParts(y2, m2);
  }

  /** The one field each call of `saveEntry` passes. */
  datatype MonthlyUpdate = SetIntention(intention: string) | SetGoals(goals: seq<CheckItem>) | SetReflection(reflection: string)

  /** `saveEntry(updates)`: `{ ...(entry || defaults), ...updates, updatedAt: Date.now() }`. */
  function SaveEntry(entry: Option<MonthlyEntry>, u: MonthlyUpdate, monthId: string, now: int): (e: MonthlyEntry)
    ensures e.updatedAt == now
    ensures e.id == if entry.Some? then entry.value.id else monthId
  {
    var c := entry.GetOr(MonthlyEntry(monthId, "", [], "", now));
    var patched := match u
      case SetIntention(t) => c.(intention := t)
      case SetGoals(gs) => c.(goals := gs)
      case SetReflection(t) => c.(reflection := t)
      ;
    patched.(updatedAt := now)
  }

  /** The update's field takes the update's value; the other fields are the stored ones, or
      empty when nothing is stored. */
  lemma SaveEntryMerge(entry: Option<MonthlyEntry>, u: MonthlyUpdate, monthId: string, now: int)
    ensures var e, c := SaveEntry(entry, u, monthId, now), entry.GetOr(MonthlyEntry(monthId, "", [], "", now));
      && e.intention == (if u.SetIntention? then u.intention else c.intention)
      && e.goals == (if u.SetGoals? then u.goals else c.goals)
      && e.reflection == (if u.SetReflection? then u.reflection else c.reflection)
      && (entry.None? ==> (!u.SetGoals? ==> e.goals == []) && (!u.SetIntention? ==> e.intention == ""))
  {
  }

  /** Saving a record's own field again only refreshes the timestamp. */
  lemma ResaveOnlyTouchesClock(e: MonthlyEntry, monthId: string, now: int)
    ensures SaveEntry(Some(e), SetGoals(e.goals), monthId, now) == e.(updatedAt := now)
    ensures SaveEntry(Some(e), SetIntention(e.intention), monthId, now) == e.(updatedAt := now)
  {
  }

  /** `entry?.goals || []` */
  function GoalsOf(entry: Option<MonthlyEntry>): seq<CheckItem> {
    if entry.Some? then entry.value.goals else []
  }

  function AddGoal(entry: Option<MonthlyEntry>, newId: string, monthId: string, now: int): MonthlyEntry {
    SaveEntry(entry, SetGoals(GoalsOf(entry) + [CheckItem(newId, "", false)]), monthId, now)
  }

  function UpdateGoal(entry: Option<MonthlyEntry>, id: string, text: string, monthId: string, now: int): MonthlyEntry {
    SaveEntry(entry, SetGoals(Items.SetItemText(GoalsOf(entry), id, text)), monthId, now)
  }

  function ToggleGoal(entry: Option<MonthlyEntry>, id: string, monthId: string, now: int): MonthlyEntry {
    SaveEntry(entry, SetGoals(Items.ToggleItem(GoalsOf(entry), id)), monthId, now)
  }

  /** The copy `deleteGoal` makes of the matching goals before filtering: `{ ...g }`. */
  function CopyMatching(goals: seq<CheckItem>, id: string): seq<CheckItem> {
    Map(goals, (g: CheckItem) => if g.id == id then CheckItem(g.id, g.text, g.completed) else g)
  }

  function DeleteGoal(entry: Option<MonthlyEntry>, id: string, monthId: string, now: int): MonthlyEntry {
    SaveEntry(entry, SetGoals(Items.DeleteItem(CopyMatching(GoalsOf(entry), id), id)), monthId, now)
  }

  /** `addGoal` appends exactly one empty, open goal. */
  lemma AddGoalAppends(entry: Option<MonthlyEntry>, newId: string, monthId: string, now: int)
    ensures AddGoal(entry, newId, monthId, now).goals == GoalsOf(entry) + [CheckItem(newId, "", false)]
  {
  }

  /** The map before `deleteGoal`'s filter copies values unchanged, so it is the identity,
      and the handler keeps exactly the goals with another id, in order. */
  lemma DeleteGoalExact(entry: Option<MonthlyEntry>, id: string, monthId: string, now: int, g: CheckItem)
    ensures CopyMatching(GoalsOf(entry), id) == GoalsOf(entry)
    ensures DeleteGoal(entry, id, monthId, now).goals == Items.DeleteItem(GoalsOf(entry), id)
    ensures g in DeleteGoal(entry, id, monthId, now).goals <==> g in GoalsOf(entry) && g.id != id
  {
    assert CopyMatching(GoalsOf(entry), id) == GoalsOf(entry);
    Items.DeleteItemExact(GoalsOf(entry), [], id, g);
  }

  /** Updating and toggling keep the list's length, order and ids, changing only the
      matching goals' text or mark; toggling twice restores it. */
  lemma EditGoalKeepsShape(entry: Option<MonthlyEntry>, id: string, text: string, monthId: string, now: int)
    ensures var before, upd, tog := GoalsOf(entry), UpdateGoal(entry, id, text, monthId, now).goals, ToggleGoal(entry, id, monthId, now).goals;
      && |upd| == |before| && |tog| == |before|
      && (forall i :: 0 <= i < |before| ==>
            upd[i].id == before[i].id && upd[i].completed == before[i].completed
            && upd[i].text == (if before[i].id == id then text else before[i].text))
      && (forall i :: 0 <= i < |before| ==>
            tog[i].id == before[i].id && tog[i].text == before[i].text
            && tog[i].completed == (before[i].completed != (before[i].id == id)))
    ensures ToggleGoal(Some(ToggleGoal(entry, id, monthId, now)), id, monthId, now).goals == GoalsOf(entry)
  {
    Items.ToggleItemTwice(GoalsOf(entry), id);
  }
}
