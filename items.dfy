/** The by-id list edits the planning views share: `list.map(x => x.id === id ? {...x, ...} : x)`
    and `list.filter(x => x.id !== id)`, over the weekly tasks (weekly tasks and next week's
    goals in src/WeeklyView.tsx) and over the `{ id, text, completed }` items (the weekly
    goal actions and the monthly goals in src/MonthlyView.tsx). */
module Items {
  import opened Lists
  import opened Records

  // ---------------------------------------------------------------- weekly tasks

  /** `tasks.map(t => t.id === id ? { ...t, text } : t)` */
  function SetTaskText(tasks: seq<WeeklyTask>, id: string, text: string): (r: seq<WeeklyTask>)
    ensures |r| == |tasks|
    ensures forall i :: 0 <= i < |r| ==>
      r[i] == if tasks[i].id == id then tasks[i].(text := text) else tasks[i]
  {
    Map(tasks, (t: WeeklyTask) => if t.id == id then t.(text := text) else t)
  }

  /** `tasks.map(t => t.id === id ? { ...t, completed: !t.completed } : t)` */
  function ToggleTask(tasks: seq<WeeklyTask>, id: string): (r: seq<WeeklyTask>)
    ensures |r| == |tasks|
    ensures forall i :: 0 <= i < |r| ==>
      r[i] == if tasks[i].id == id then tasks[i].(completed := !tasks[i].completed) else tasks[i]
  {
    Map(tasks, (t: WeeklyTask) => if t.id == id then t.(completed := !t.completed) else t)
  }

  /** `tasks.filter(t => t.id !== id)` */
  function DeleteTask(tasks: seq<WeeklyTask>, id: string): (r: seq<WeeklyTask>)
    ensures |r| <= |tasks|
    ensures forall t :: t in r ==> t.id != id
  {
    var keep := (t: WeeklyTask) => t.id != id;
    forall t | t in Filter(tasks, keep) ensures t.id != id {
      FilterMembers(tasks, keep, t);
    }
    Filter(tasks, keep)
  }

  /** An edit keeps every task's id, its priority and its position, and touches only the
      tasks with that id, in only the field it names. */
  lemma TaskEditsKeepShape(tasks: seq<WeeklyTask>, id: string, text: string, i: nat)
    requires i < |tasks|
    ensures SetTaskText(tasks, id, text)[i].id == tasks[i].id
    ensures ToggleTask(tasks, id)[i].id == tasks[i].id
    ensures SetTaskText(tasks, id, text)[i].completed == tasks[i].completed
    ensures SetTaskText(tasks, id, text)[i].priority == tasks[i].priority
    ensures ToggleTask(tasks, id)[i].text == tasks[i].text
    ensures ToggleTask(tasks, id)[i].priority == tasks[i].priority
    ensures ToggleTask(tasks, id)[i].completed == (tasks[i].completed != (tasks[i].id == id))
    ensures tasks[i].id != id ==> SetTaskText(tasks, id, text)[i] == tasks[i]
  {
  }

  /** Toggling twice restores the list. */
  lemma ToggleTaskTwice(tasks: seq<WeeklyTask>, id: string)
    ensures ToggleTask(ToggleTask(tasks, id), id) == tasks
  {
    var r := ToggleTask(ToggleTask(tasks, id), id);
    assert forall i :: 0 <= i < |tasks| ==> r[i] == tasks[i];
  }

  /** Saving the same text twice is saving it once. */
  lemma SetTaskTextIdempotent(tasks: seq<WeeklyTask>, id: string, text: string)
    ensures SetTaskText(SetTaskText(tasks, id, text), id, text) == SetTaskText(tasks, id, text)
  {
  }

  /** Deleting keeps exactly the tasks with another id, each as often as before, and keeps
      their order: it works element by element over a concatenation. */
  lemma DeleteTaskExact(tasks: seq<WeeklyTask>, more: seq<WeeklyTask>, id: string, t: WeeklyTask)
    ensures multiset(DeleteTask(tasks, id))[t] == if t.id == id then 0 else multiset(tasks)[t]
    ensures t in DeleteTask(tasks, id) <==> t in tasks && t.id != id
    ensures DeleteTask(tasks + more, id) == DeleteTask(tasks, id) + DeleteTask(more, id)
    ensures DeleteTask([t], id) == if t.id == id then [] else [t]
  {
    var keep := (t: WeeklyTask) => t.id != id;
    FilterCount(tasks, keep, t);
    FilterMembers(tasks, keep, t);
    FilterAppend(tasks, more, keep);
    assert Filter([t], keep) == (if keep(t) then [t] else []) + Filter([], keep);
  }

  // ---------------------------------------------------------------- `{ id, text, completed }` items

  /** `items.map(a => a.id === id ? { ...a, text } : a)` */
  function SetItemText(items: seq<CheckItem>, id: string, text: string): (r: seq<CheckItem>)
    ensures |r| == |items|
    ensures forall i :: 0 <= i < |r| ==>
      r[i] == if items[i].id == id then items[i].(text := text) else items[i]
  {
    Map(items, (a: CheckItem) => if a.id == id then a.(text := text) else a)
  }

  /** `items.map(a => a.id === id ? { ...a, completed: !a.completed } : a)` */
  function ToggleItem(items: seq<CheckItem>, id: string): (r: seq<CheckItem>)
    ensures |r| == |items|
    ensures forall i :: 0 <= i < |r| ==>
      r[i] == if items[i].id == id then items[i].(completed := !items[i].completed) else items[i]
  {
    Map(items, (a: CheckItem) => if a.id == id then a.(completed := !a.completed) else a)
  }

  /** `items.filter(a => a.id !== id)` */
  function DeleteItem(items: seq<CheckItem>, id: string): (r: seq<CheckItem>)
    ensures |r| <= |items|
    ensures forall a :: a in r ==> a.id != id
  {
    var keep := (a: CheckItem) => a.id != id;
    forall a | a in Filter(items, keep) ensures a.id != id {
      FilterMembers(items, keep, a);
    }
    Filter(items, keep)
  }

  /** An edit keeps ids and positions and changes only the named field of matching items. */
  lemma ItemEditsKeepShape(items: seq<CheckItem>, id: string, text: string, i: nat)
    requires i < |items|
    ensures SetItemText(items, id, text)[i].id == items[i].id
    ensures ToggleItem(items, id)[i].id == items[i].id
    ensures SetItemText(items, id, text)[i].completed == items[i].completed
    ensures ToggleItem(items, id)[i].text == items[i].text
    ensures ToggleItem(items, id)[i].completed == (items[i].completed != (items[i].id == id))
    ensures SetItemText(items, id, text)[i].text == (if items[i].id == id then text else items[i].text)
  {
  }

  lemma ToggleItemTwice(items: seq<CheckItem>, id: string)
    ensures ToggleItem(ToggleItem(items, id), id) == items
  {
    var r := ToggleItem(ToggleItem(items, id), id);
    assert forall i :: 0 <= i < |items| ==> r[i] == items[i];
  }

  lemma DeleteItemExact(items: seq<CheckItem>, more: seq<CheckItem>, id: string, a: CheckItem)
    ensures multiset(DeleteItem(items, id))[a] == if a.id == id then 0 else multiset(items)[a]
    ensures a in DeleteItem(items, id) <==> a in items && a.id != id
    ensures DeleteItem(items + more, id) == DeleteItem(items, id) + DeleteItem(more, id)
    ensures DeleteItem([a], id) == if a.id == id then [] else [a]
  {
    var keep := (a: CheckItem) => a.id != id;
    FilterCount(items, keep, a);
    FilterMembers(items, keep, a);
    FilterAppend(items, more, keep);
    assert Filter([a], keep) == (if keep(a) then [a] else []) + Filter([], keep);
  }
}
