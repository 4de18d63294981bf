/** The mandala chart (src/MandalaView.tsx): a main goal, eight sub-goals around it and eight
    items around each sub-goal, drawn as 3×3 grids. The page holds the chart being edited
    (`localEntry`); every edit changes it in place and asks the store to write it. The
    database declares no `mandalaEntries` table (src/db.ts), so that write never lands; the
    model records the request. */
module MandalaView {
  import opened Wrappers
  import opened Records

  const MandalaId: string := "main"

  /** Sub-goals per chart and items per sub-goal. */
  const Ring: nat := 8

  /** `createEmptyEntry()` */
  function CreateEmptyEntry(now: int): (e: MandalaEntry)
    ensures e.id == MandalaId && e.mainGoal == "" && e.updatedAt == now
    ensures |e.subGoals| == Ring
    ensures forall i :: 0 <= i < Ring ==>
      e.subGoals[i].text == "" && |e.subGoals[i].items| == Ring
      && forall k :: 0 <= k < Ring ==> e.subGoals[i].items[k] == ""
  {
    MandalaEntry(MandalaId, "", seq(Ring, _ => SubGoal("", seq(Ring, _ => ""))), now)
  }

  // ---------------------------------------------------------------- the 3×3 grid

  /** `indices`: for each of the nine cells, row by row, the ring position it shows
      (-1 for the centre). */
  const Indices: seq<int> := [0, 1, 2, 7, -1, 3, 6, 5, 4]

  /** The cell that shows ring position `k`: the inverse of `Indices`. */
  function CellOf(k: int): (g: int)
    requires 0 <= k < Ring
    ensures 0 <= g < 9
  {
    [0, 1, 2, 5, 8, 7, 6, 3][k]
  }

  /** `surroundingItems[k]`: `undefined` (`None`) past the end of a short list. */
  function At<T>(items: seq<T>, k: nat): Option<T> {
    if k < |items| then Some(items[k]) else None
  }

  /** `gridItems`: the items placed cell by cell, `null` (`None`) in the centre. */
  function GridItems<T>(items: seq<T>): seq<Option<T>> {
    [At(items, 0), At(items, 1), At(items, 2),
     At(items, 7), None, At(items, 3),
     At(items, 6), At(items, 5), At(items, 4)]
  }

  /** What one cell renders: the centre content, or the item with its ring position. */
  datatype Cell<T> = Centre | Around(position: nat, item: Option<T>)

  /** `render3x3`'s nine cells. */
  function Render3x3<T>(items: seq<T>): (cells: seq<Cell<T>>)
    ensures |cells| == 9
  {
    seq(9, g requires 0 <= g < 9 =>
      if Indices[g] == -1 then Centre else Around(Indices[g], GridItems(items)[g]))
  }

  /** The two hand-written tables agree: the centre cell (row 2, column 2) is the only one
      without a ring position, every other cell shows exactly the item `indices` names, and
      every ring position is shown by exactly one cell. */
  lemma Render3x3Mapping<T>(items: seq<T>)
    ensures forall g :: 0 <= g < 9 ==> (Indices[g] == -1 <==> g == 4)
    ensures forall g :: 0 <= g < 9 && g != 4 ==> 0 <= Indices[g] < Ring && GridItems(items)[g] == At(items, Indices[g])
    ensures forall g :: 0 <= g < 9 && g != 4 ==> Render3x3(items)[g] == Around(Indices[g], At(items, Indices[g]))
    ensures Render3x3(items)[4] == Centre
    ensures forall k :: 0 <= k < Ring ==> Indices[CellOf(k)] == k
    ensures forall g :: 0 <= g < 9 && g != 4 ==> CellOf(Indices[g]) == g
  {
  }

  /** The positions run clockwise round the centre from the top-left corner: consecutive
      positions (and 7 back to 0) are in touching cells, and none is the centre. */
  lemma RingIsClockwise(k: int)
    requires 0 <= k < Ring
    ensures var a, b := CellOf(k), CellOf((k + 1) % Ring);
      && a != 4 && b != 4
      && -1 <= a / 3 - b / 3 <= 1 && -1 <= a % 3 - b % 3 <= 1 && a != b
  {
  }

  // ---------------------------------------------------------------- the chart being edited

  /** Every sub-goal index addresses one of the eight sub-goals, every item index one of its
      eight items. */
  predicate WellShaped(e: MandalaEntry) {
    |e.subGoals| == Ring && forall i :: 0 <= i < Ring ==> |e.subGoals[i].items| == Ring
  }

  class MandalaBoard {
    /** `localEntry` */
    var entry: MandalaEntry
    /** The record last handed to `db.mandalaEntries.put`, if any. The table is not
        declared, so this is the write the page asked for, not what the store holds. */
    var saved: Option<MandalaEntry>

    predicate Valid()
      reads this
    {
      WellShaped(entry)
    }

    /** The page opens on an empty chart. */
    constructor(now: int)
      ensures Valid() && entry == CreateEmptyEntry(now) && saved == None
    {
      entry := CreateEmptyEntry(now);
      saved := None;
    }

    /** `saveEntry(next)`: the write request for the chart with the current time. */
    method Store(now: int)
      modifies this
      ensures entry == old(entry) && saved == Some(entry.(updatedAt := now))
    {
      saved := Some(entry.(updatedAt := now));
    }

    /** `handleMainGoalChange(val)` */
    method MainGoalChange(val: string, now: int)
      requires Valid()
      modifies this
      ensures Valid()
      ensures entry == old(entry).(mainGoal := val) && saved == Some(entry.(updatedAt := now))
    {
      entry := entry.(mainGoal := val);
      Store(now);
    }

    /** `handleSubGoalTextChange(index, val)`; an index with no sub-goal makes the source
        throw (`undefined.text`), which leaves everything as it was (`ok` false). */
    method SubGoalTextChange(index: int, val: string, now: int) returns (ok: bool)
      requires Valid()
      modifies this
      ensures Valid()
      ensures ok <==> 0 <= index < Ring
      ensures ok ==> (entry == old(entry).(subGoals := old(entry).subGoals[index := old(entry).subGoals[index].(text := val)])
        && saved == Some(entry.(updatedAt := now)))
      ensures !ok ==> entry == old(entry) && saved == old(saved)
    {
      ok := 0 <= index < |entry.subGoals|;
      if ok {
        entry := entry.(subGoals := entry.subGoals[index := entry.subGoals[index].(text := val)]);
        Store(now);
      }
    }

    /** `handleSubGoalItemChange(subGoalIndex, itemIndex, val)`; a sub-goal index with no
        sub-goal throws and changes nothing. */
    method SubGoalItemChange(subGoalIndex: int, itemIndex: int, val: string, now: int) returns (ok: bool)
      requires Valid()
      modifies this
      ensures Valid()
      ensures ok <==> 0 <= subGoalIndex < Ring && 0 <= itemIndex < Ring
      ensures ok ==>
        var s := old(entry).subGoals[subGoalIndex];
        && entry == old(entry).(subGoals := old(entry).subGoals[subGoalIndex := s.(items := s.items[itemIndex := val])])
        && saved == Some(entry.(updatedAt := now))
      ensures !ok ==> entry == old(entry) && saved == old(saved)
    {
      ok := 0 <= subGoalIndex < |entry.subGoals| && 0 <= itemIndex < |entry.subGoals[subGoalIndex].items|;
      if ok {
        var s := entry.subGoals[subGoalIndex];
        entry := entry.(subGoals := entry.subGoals[subGoalIndex := s.(items := s.items[itemIndex := val])]);
        Store(now);
      }
    }

    /** The Reset Chart button: after the confirmation, an empty chart locally and in the store. */
    method Reset(confirmed: bool, now: int)
      requires Valid()
      modifies this
      ensures Valid()
      ensures confirmed ==> entry == CreateEmptyEntry(now) && saved == Some(CreateEmptyEntry(now))
      ensures !confirmed ==> entry == old(entry) && saved == old(saved)
    {
      if confirmed {
        entry := CreateEmptyEntry(now);
        Store(now);
      }
    }
  }

  /** An item edit changes that one item: the main goal, every sub-goal's text, every other
      sub-goal and every other item are as before. */
  lemma ItemEditIsLocal(e: MandalaEntry, s: int, k: int, val: string, i: int, j: int)
    requires WellShaped(e) && 0 <= s < Ring && 0 <= k < Ring && 0 <= i < Ring && 0 <= j < Ring
    ensures var sg := e.subGoals[s];
      var r := e.(subGoals := e.subGoals[s := sg.(items := sg.items[k := val])]);
      && WellShaped(r) && r.mainGoal == e.mainGoal && r.id == e.id
      && r.subGoals[i].text == e.subGoals[i].text
      && r.subGoals[i].items[j] == (if i == s && j == k then val else e.subGoals[i].items[j])
  {
  }

  /** A sub-goal text edit keeps every item, every other sub-goal and the main goal. */
  lemma SubGoalTextEditIsLocal(e: MandalaEntry, s: int, val: string, i: int)
    requires WellShaped(e) && 0 <= s < Ring && 0 <= i < Ring
    ensures var r := e.(subGoals := e.subGoals[s := e.subGoals[s].(text := val)]);
      && WellShaped(r) && r.mainGoal == e.mainGoal
      && r.subGoals[i].items == e.subGoals[i].items
      && r.subGoals[i].text == (if i == s then val else e.subGoals[i].text)
  {
  }
}
