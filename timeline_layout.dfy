/** The timeline's overlap layout (`positionedEvents` in src/components/Timeline.tsx):
    sort the day's events by start, cut the sorted list into clusters with a running
    maximum end, give each event the first column of its cluster whose last event has
    ended, and place it at `idx / colCount` with width `1 / colCount`.

    The specification is a set of left folds (`ClusterScan`, `Columns`, `EmitColumns`,
    `LayoutGroups`) that follow the source's loops step by step; `PositionEvents` runs
    those loops and is proved to compute `Layout`. */
module TimelineLayout {
  import opened Wrappers
  import opened Lists
  import opened Records
  import opened TimelineClock

  /** An event together with `timeToMinutes` of its start and end. */
  datatype Slot = Slot(event: TimelineEvent, start: int, end: int)

  /** One laid-out event: every field of the event, plus its horizontal placement as
      fractions of the strip's width. */
  datatype PositionedEvent = PositionedEvent(event: TimelineEvent, leftOffset: real, widthPct: real)

  /** Both times of the event convert to numbers. */
  predicate Timed(e: TimelineEvent) {
    TimeToMinutes(e.startTime).Some? && TimeToMinutes(e.endTime).Some?
  }

  function ToSlot(e: TimelineEvent): (s: Slot)
    requires Timed(e)
    ensures s.event == e
  {
    Slot(e, TimeToMinutes(e.startTime).value, TimeToMinutes(e.endTime).value)
  }

  function ToSlots(events: seq<TimelineEvent>): (r: seq<Slot>)
    requires forall e :: e in events ==> Timed(e)
    ensures |r| == |events| && forall i :: 0 <= i < |r| ==> r[i] == ToSlot(events[i])
  {
    seq(|events|, i requires 0 <= i < |events| => ToSlot(events[i]))
  }

  function StartOf(s: Slot): int {
    s.start
  }

  function EventOf(s: Slot): TimelineEvent {
    s.event
  }

  function Max(a: int, b: int): int {
    if a >= b then a else b
  }

  /** `[...events].sort((a, b) => timeToMinutes(a.startTime) - timeToMinutes(b.startTime))` */
  function SortByStart(slots: seq<Slot>): seq<Slot> {
    SortBy(slots, StartOf)
  }

  // ---------------------------------------------------------------- clusters

  /** The state of the grouping loop: the closed groups, `currentGroup` and `lastEnd`. */
  datatype ClusterState = ClusterState(groups: seq<seq<Slot>>, current: seq<Slot>, lastEnd: int)

  /** One turn of the grouping loop: an event starting at or after `lastEnd` closes the
      current group (when non-empty) and opens a new one; otherwise it joins it. */
  function ClusterStep(st: ClusterState, s: Slot): ClusterState {
    if s.start >= st.lastEnd then
      ClusterState(if |st.current| > 0 then st.groups + [st.current] else st.groups, [s], Max(st.lastEnd, s.end))
    else
      ClusterState(st.groups, st.current + [s], Max(st.lastEnd, s.end))
  }

  /** The grouping loop run over a list, starting from no groups and `lastEnd = 0`. */
  function ClusterScan(s: seq<Slot>): ClusterState {
    if s == [] then ClusterState([], [], 0)
    else ClusterStep(ClusterScan(s[..|s| - 1]), s[|s| - 1])
  }

  /** The groups after the loop, the last open group included. */
  function Clusters(s: seq<Slot>): seq<seq<Slot>> {
    var st := ClusterScan(s);
    if |st.current| > 0 then st.groups + [st.current] else st.groups
  }

  // ---------------------------------------------------------------- columns

  predicate NonEmptyColumns(cols: seq<seq<Slot>>) {
    forall c :: 0 <= c < |cols| ==> |cols[c]| > 0
  }

  function LastEnd(col: seq<Slot>): int
    requires |col| > 0
  {
    col[|col| - 1].end
  }

  /** The first column from `i` on whose last event ends at or before `start`;
      `|cols|` when there is none. */
  function FirstFit(cols: seq<seq<Slot>>, start: int, i: nat): (k: nat)
    requires NonEmptyColumns(cols) && i <= |cols|
    ensures i <= k <= |cols|
    ensures k < |cols| ==> start >= LastEnd(cols[k])
    ensures forall c :: i <= c < k ==> start < LastEnd(cols[c])
    decreases |cols| - i
  {
    if i == |cols| then i
    else if start >= LastEnd(cols[i]) then i
    else FirstFit(cols, start, i + 1)
  }

  /** Consecutive events of a column do not overlap: each starts at or after the
      previous one's end. */
  predicate Chained(col: seq<Slot>) {
    forall m :: 0 <= m < |col| - 1 ==> col[m + 1].start >= col[m].end
  }

  /** Placing one event: append it to the first fitting column, or open a new column. */
  function Place(cols: seq<seq<Slot>>, s: Slot): (r: seq<seq<Slot>>)
    requires NonEmptyColumns(cols)
    ensures NonEmptyColumns(r)
  {
    var k := FirstFit(cols, s.start, 0);
    if k < |cols| then cols[k := cols[k] + [s]] else cols + [[s]]
  }

  /** The columns of a group after placing its events in order. */
  function Columns(group: seq<Slot>): (cols: seq<seq<Slot>>)
    ensures NonEmptyColumns(cols)
    ensures |group| > 0 ==> |cols| > 0
    ensures |cols| <= |group|
    ensures forall c :: 0 <= c < |cols| ==> Chained(cols[c])
  {
    if group == [] then []
    else
      var prev := Columns(group[..|group| - 1]);
      var s := group[|group| - 1];
      var k := FirstFit(prev, s.start, 0);
      assert k < |prev| ==> Chained(prev[k] + [s]);
      Place(prev, s)
  }

  // ---------------------------------------------------------------- placement

  /** The events of column `idx`, placed at `idx / colCount` with width `1 / colCount`. */
  function EmitColumn(col: seq<Slot>, idx: nat, colCount: nat): (r: seq<PositionedEvent>)
    requires colCount > 0
    ensures |r| == |col|
  {
    seq(|col|, k requires 0 <= k < |col| =>
      PositionedEvent(col[k].event, idx as real / colCount as real, 1.0 / colCount as real))
  }

  /** `columns.forEach((col, idx) => col.forEach(...push...))` over the first `|cols|` columns. */
  function EmitColumns(cols: seq<seq<Slot>>, colCount: nat): seq<PositionedEvent>
    requires colCount > 0
  {
    if cols == [] then []
    else EmitColumns(cols[..|cols| - 1], colCount) + EmitColumn(cols[|cols| - 1], |cols| - 1, colCount)
  }

  /** The output of one group: its columns emitted with its own column count. */
  function EmitGroup(group: seq<Slot>): seq<PositionedEvent> {
    var cols := Columns(group);
    if |cols| == 0 then [] else EmitColumns(cols, |cols|)
  }

  function LayoutGroups(groups: seq<seq<Slot>>): seq<PositionedEvent> {
    if groups == [] then []
    else LayoutGroups(groups[..|groups| - 1]) + EmitGroup(groups[|groups| - 1])
  }

  /** `positionedEvents` for a list of events whose times all convert to numbers. */
  function Layout(events: seq<TimelineEvent>): seq<PositionedEvent>
    requires forall e :: e in events ==> Timed(e)
  {
    LayoutGroups(Clusters(SortByStart(ToSlots(events))))
  }

  /** Dropping the last open-ended column from the emitted prefix. */
  lemma EmitColumnsPrefix(cols: seq<seq<Slot>>, idx: nat, colCount: nat)
    requires colCount > 0 && idx < |cols|
    ensures EmitColumns(cols[..idx + 1], colCount)
         == EmitColumns(cols[..idx], colCount) + EmitColumn(cols[idx], idx, colCount)
  {
    assert cols[..idx + 1][..idx] == cols[..idx];
  }

  /** The grouping loop (`sorted.forEach(...)` and the final push). */
  method GroupSorted(sorted: seq<Slot>) returns (groups: seq<seq<Slot>>)
    ensures groups == Clusters(sorted)
  {
    groups := [];
    var currentGroup: seq<Slot> := [];
    var lastEnd := 0;
    var i := 0;
    while i < |sorted|
      invariant 0 <= i <= |sorted|
      invariant ClusterState(groups, currentGroup, lastEnd) == ClusterScan(sorted[..i])
    {
      var event := sorted[i];
      assert sorted[..i + 1][..i] == sorted[..i];
      var start := event.start;
      if start >= lastEnd {
        if |currentGroup| > 0 {
          groups := groups + [currentGroup];
        }
        currentGroup := [event];
      } else {
        currentGroup := currentGroup + [event];
      }
      lastEnd := Max(lastEnd, event.end);
      i := i + 1;
    }
    assert sorted[..i] == sorted;
    if |currentGroup| > 0 {
      groups := groups + [currentGroup];
    }
  }

  /** One event of the column loop: the `for` loop with its early `break`, then a new
      column when no column fitted. */
  method PlaceEvent(columns: seq<seq<Slot>>, event: Slot) returns (r: seq<seq<Slot>>)
    requires NonEmptyColumns(columns)
    ensures r == Place(columns, event)
  {
    r := columns;
    var placed := false;
    var start := event.start;
    var i := 0;
    while i < |r|
      invariant 0 <= i <= |r|
      invariant r == columns && !placed
      invariant FirstFit(columns, start, i) == FirstFit(columns, start, 0)
    {
      var lastInCol := r[i][|r[i]| - 1];
      if start >= lastInCol.end {
        r := r[i := r[i] + [event]];
        placed := true;
        break;
      }
      i := i + 1;
    }
    if !placed {
      r := r + [[event]];
    }
  }

  /** `group.forEach(...)`: the columns of one group. */
  method AssignColumns(group: seq<Slot>) returns (columns: seq<seq<Slot>>)
    ensures columns == Columns(group)
  {
    columns := [];
    var j := 0;
    while j < |group|
      invariant 0 <= j <= |group|
      invariant columns == Columns(group[..j])
    {
      assert group[..j + 1][..j] == group[..j];
      columns := PlaceEvent(columns, group[j]);
      j := j + 1;
    }
    assert group[..j] == group;
  }

  /** `columns.forEach((col, idx) => col.forEach(event => positioned.push(...)))` */
  method EmitPlaced(columns: seq<seq<Slot>>) returns (out: seq<PositionedEvent>)
    requires |columns| > 0
    ensures out == EmitColumns(columns, |columns|)
  {
    var colCount := |columns|;
    out := [];
    var idx := 0;
    while idx < |columns|
      invariant 0 <= idx <= |columns|
      invariant out == EmitColumns(columns[..idx], colCount)
    {
      var col := columns[idx];
      ghost var outer := out;
      var k := 0;
      while k < |col|
        invariant 0 <= k <= |col|
        invariant out == outer + EmitColumn(col[..k], idx, colCount)
      {
        out := out + [PositionedEvent(col[k].event, idx as real / colCount as real, 1.0 / colCount as real)];
        k := k + 1;
      }
      assert col[..k] == col;
      EmitColumnsPrefix(columns, idx, colCount);
      idx := idx + 1;
    }
    assert columns[..idx] == columns;
  }

  /** The layout of one more group is the layout so far followed by that group's boxes. */
  lemma LayoutGroupsStep(groups: seq<seq<Slot>>, g: nat)
    requires g < |groups|
    ensures LayoutGroups(groups[..g + 1]) == LayoutGroups(groups[..g]) + EmitGroup(groups[g])
  {
    assert groups[..g + 1][..g] == groups[..g];
  }

  /** One group's pass: its columns, then its boxes column by column. */
  method PlaceGroup(group: seq<Slot>) returns (out: seq<PositionedEvent>)
    ensures out == EmitGroup(group)
  {
    var columns := AssignColumns(group);
    out := [];
    if |columns| > 0 {
      out := EmitPlaced(columns);
    }
  }

  /** `positionedEvents`: the sort is the library's (`SortByStart`); the loops follow. */
  method PositionEvents(events: seq<TimelineEvent>) returns (positioned: seq<PositionedEvent>)
    requires forall e :: e in events ==> Timed(e)
    ensures positioned == Layout(events)
  {
    var sorted := SortByStart(ToSlots(events));
    var groups := GroupSorted(sorted);
    positioned := [];
    var g := 0;
    while g < |groups|
      invariant 0 <= g <= |groups|
      invariant positioned == LayoutGroups(groups[..g])
    {
      var out := PlaceGroup(groups[g]);
      LayoutGroupsStep(groups, g);
      positioned := positioned + out;
      g := g + 1;
    }
    assert groups[..g] == groups;
  }
}
