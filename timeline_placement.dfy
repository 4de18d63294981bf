/** What the column assignment and the emitted positions of the timeline layout
    guarantee (src/components/Timeline.tsx, lines 152-180): every event is laid out
    exactly once, every box lies inside the strip, two events of one column never
    overlap, all boxes of a cluster share one width, and an event alone in its
    cluster fills the strip. */
module TimelinePlacement {
  import opened Lists
  import opened Records
  import opened TimelineLayout
  import opened TimelineClusters

  function PosEvent(p: PositionedEvent): TimelineEvent {
    p.event
  }

  /** The events of a list of positioned boxes, in order. */
  function Events(ps: seq<PositionedEvent>): seq<TimelineEvent> {
    Map(ps, PosEvent)
  }

  // ---------------------------------------------------------------- every event once

  lemma {:induction false} FlattenUpdate(cols: seq<seq<Slot>>, k: nat, s: Slot)
    requires k < |cols|
    ensures multiset(Flatten(cols[k := cols[k] + [s]])) == multiset(Flatten(cols)) + multiset{s}
  {
    var u := cols[k := cols[k] + [s]];
    if k == 0 {
      assert u[1..] == cols[1..];
    } else {
      assert u[1..] == cols[1..][k - 1 := cols[k] + [s]];
      FlattenUpdate(cols[1..], k - 1, s);
    }
  }

  /** Placing an event adds exactly that event to the columns. */
  lemma PlaceAddsEvent(cols: seq<seq<Slot>>, s: Slot)
    requires NonEmptyColumns(cols)
    ensures multiset(Flatten(Place(cols, s))) == multiset(Flatten(cols)) + multiset{s}
  {
    var k := FirstFit(cols, s.start, 0);
    if k < |cols| {
      FlattenUpdate(cols, k, s);
    } else {
      FlattenAppend(cols, [s]);
    }
  }

  /** The columns of a group hold exactly the group's events. */
  lemma {:induction false} ColumnsPermutation(group: seq<Slot>)
    ensures multiset(Flatten(Columns(group))) == multiset(group)
  {
    if group != [] {
      var p := group[..|group| - 1];
      assert group == p + [group[|group| - 1]];
      ColumnsPermutation(p);
      PlaceAddsEvent(Columns(p), group[|group| - 1]);
    }
  }

  lemma EmitColumnEvents(col: seq<Slot>, idx: nat, colCount: nat)
    requires colCount > 0
    ensures Events(EmitColumn(col, idx, colCount)) == Map(col, EventOf)
  {
  }

  /** Emitting columns lists their events column by column. */
  lemma {:induction false} EmitColumnsEvents(cols: seq<seq<Slot>>, colCount: nat)
    requires colCount > 0
    ensures Events(EmitColumns(cols, colCount)) == Map(Flatten(cols), EventOf)
  {
    if cols != [] {
      var p, c := cols[..|cols| - 1], cols[|cols| - 1];
      assert cols == p + [c];
      EmitColumnsEvents(p, colCount);
      EmitColumnEvents(c, |cols| - 1, colCount);
      MapAppend(EmitColumns(p, colCount), EmitColumn(c, |cols| - 1, colCount), PosEvent);
      FlattenAppend(p, c);
      MapAppend(Flatten(p), c, EventOf);
    }
  }

  /** A group's boxes carry exactly the group's events. */
  lemma EmitGroupEvents(group: seq<Slot>)
    ensures multiset(Events(EmitGroup(group))) == multiset(Map(group, EventOf))
  {
    var cols := Columns(group);
    ColumnsPermutation(group);
    MultisetMap(Flatten(cols), group, EventOf);
    if |cols| > 0 {
      EmitColumnsEvents(cols, |cols|);
    } else {
      assert group == [];
    }
  }

  lemma {:induction false} LayoutGroupsEvents(groups: seq<seq<Slot>>)
    ensures multiset(Events(LayoutGroups(groups))) == multiset(Map(Flatten(groups), EventOf))
  {
    if groups != [] {
      var p, g := groups[..|groups| - 1], groups[|groups| - 1];
      assert groups == p + [g];
      LayoutGroupsEvents(p);
      EmitGroupEvents(g);
      MapAppend(LayoutGroups(p), EmitGroup(g), PosEvent);
      FlattenAppend(p, g);
      MapAppend(Flatten(p), g, EventOf);
    }
  }

  /** `positionedEvents` lays out every event of the day exactly once: its boxes carry
      the same events, with the same multiplicities, as the input. */
  lemma LayoutPermutation(events: seq<TimelineEvent>)
    requires forall e :: e in events ==> Timed(e)
    ensures multiset(Events(Layout(events))) == multiset(events)
  {
    var slots := ToSlots(events);
    var sorted := SortByStart(slots);
    LayoutGroupsEvents(Clusters(sorted));
    ClustersPartition(sorted);
    MultisetMap(sorted, slots, EventOf);
    assert Map(slots, EventOf) == events;
  }

  // ---------------------------------------------------------------- geometry

  /** A box lies in the strip: it starts at or right of the left edge, has positive width
      and ends at or left of the right edge. */
  predicate InStrip(p: PositionedEvent) {
    0.0 <= p.leftOffset && 0.0 < p.widthPct && p.leftOffset + p.widthPct <= 1.0
  }

  lemma EmitColumnInStrip(col: seq<Slot>, idx: nat, colCount: nat)
    requires idx < colCount
    ensures forall p :: p in EmitColumn(col, idx, colCount) ==> InStrip(p) && p.widthPct == 1.0 / colCount as real
  {
    var n := colCount as real;
    assert idx as real / n + 1.0 / n == (idx as real + 1.0) / n;
    assert (idx as real + 1.0) <= n;
  }

  lemma {:induction false} EmitColumnsInStrip(cols: seq<seq<Slot>>, colCount: nat)
    requires 0 < colCount && |cols| <= colCount
    ensures forall p :: p in EmitColumns(cols, colCount) ==> InStrip(p) && p.widthPct == 1.0 / colCount as real
  {
    if cols != [] {
      EmitColumnsInStrip(cols[..|cols| - 1], colCount);
      EmitColumnInStrip(cols[|cols| - 1], |cols| - 1, colCount);
    }
  }

  /** Every box of a group lies in the strip, and all share the width `1 / colCount`. */
  lemma EmitGroupInStrip(group: seq<Slot>)
    ensures forall p :: p in EmitGroup(group) ==> InStrip(p) && p.widthPct == 1.0 / |Columns(group)| as real
  {
    var cols := Columns(group);
    if |cols| > 0 {
      EmitColumnsInStrip(cols, |cols|);
    }
  }

  lemma {:induction false} LayoutGroupsInStrip(groups: seq<seq<Slot>>)
    ensures forall p :: p in LayoutGroups(groups) ==> InStrip(p)
  {
    if groups != [] {
      LayoutGroupsInStrip(groups[..|groups| - 1]);
      EmitGroupInStrip(groups[|groups| - 1]);
    }
  }

  /** No box of the day's layout leaves the strip. */
  lemma LayoutInStrip(events: seq<TimelineEvent>)
    requires forall e :: e in events ==> Timed(e)
    ensures forall p :: p in Layout(events) ==> InStrip(p)
  {
    LayoutGroupsInStrip(Clusters(SortByStart(ToSlots(events))));
  }

  /** An event alone in its cluster fills the whole strip. */
  lemma SingletonFullWidth(x: Slot)
    ensures EmitGroup([x]) == [PositionedEvent(x.event, 0.0, 1.0)]
  {
    assert [x][..0] == [];
    assert FirstFit([], x.start, 0) == 0;
    assert Columns([x]) == [[x]];
    assert [[x]][..0] == [];
    var e := EmitColumn([x], 0, 1);
    assert e[0] == PositionedEvent(x.event, 0.0, 1.0);
    assert EmitColumns([[x]], 1) == e;
  }

  /** A cluster's boxes all appear in the day's layout. */
  lemma {:induction false} LayoutGroupsContains(groups: seq<seq<Slot>>, b: nat)
    requires b < |groups|
    ensures forall p :: p in EmitGroup(groups[b]) ==> p in LayoutGroups(groups)
  {
    if b < |groups| - 1 {
      LayoutGroupsContains(groups[..|groups| - 1], b);
    }
  }

  /** An event of non-negative start and positive length that overlaps no other event of
      its cluster is drawn at the left edge across the full width. */
  lemma IsolatedEventFullWidth(events: seq<TimelineEvent>, b: nat, k: nat)
    requires forall e :: e in events ==> Timed(e)
    requires forall x :: x in ToSlots(events) ==> 0 <= x.start < x.end
    requires var cs := Clusters(SortByStart(ToSlots(events)));
      b < |cs| && k < |cs[b]| &&
      forall m :: 0 <= m < |cs[b]| && m != k ==> !Overlap(cs[b][k], cs[b][m])
    ensures PositionedEvent(Clusters(SortByStart(ToSlots(events)))[b][k].event, 0.0, 1.0) in Layout(events)
  {
    var s := SortByStart(ToSlots(events));
    var cs := Clusters(s);
    assert forall x :: x in s ==> x in ToSlots(events) by {
      forall x | x in s ensures x in ToSlots(events) {
        assert x in multiset(s);
      }
    }
    var x := cs[b][k];
    IsolatedEventAlone(s, b, k);
    SingletonFullWidth(x);
    assert PositionedEvent(x.event, 0.0, 1.0) in EmitGroup(cs[b]);
    LayoutGroupsContains(cs, b);
    assert Layout(events) == LayoutGroups(cs);
  }

  // ---------------------------------------------------------------- columns

  /** Placing an event that starts no earlier than any placed event keeps every column
      sorted by start. */
  lemma PlaceKeepsSorted(cols: seq<seq<Slot>>, s: Slot)
    requires NonEmptyColumns(cols)
    requires forall c :: 0 <= c < |cols| ==> SortedBy(cols[c], StartOf)
    requires forall c, i :: 0 <= c < |cols| && 0 <= i < |cols[c]| ==> cols[c][i].start <= s.start
    ensures forall c :: 0 <= c < |Place(cols, s)| ==> SortedBy(Place(cols, s)[c], StartOf)
  {
    var k := FirstFit(cols, s.start, 0);
    if k < |cols| {
      assert forall i :: 0 <= i < |cols[k]| ==> StartOf(cols[k][i]) <= StartOf(s);
      assert SortedBy(cols[k] + [s], StartOf);
    }
  }

  /** Every event placed in the columns of a group is an event of the group. */
  lemma ColumnsMembers(group: seq<Slot>, c: nat, i: nat)
    requires c < |Columns(group)| && i < |Columns(group)[c]|
    ensures Columns(group)[c][i] in group
  {
    ColumnsPermutation(group);
    FlattenMember(Columns(group), c, i);
    assert Columns(group)[c][i] in multiset(Flatten(Columns(group)));
  }

  /** The columns of a group sorted by start are themselves sorted by start: an event is
      appended to a column whose events all started no later. */
  lemma {:induction false} ColumnsSorted(group: seq<Slot>)
    requires SortedBy(group, StartOf)
    ensures forall c :: 0 <= c < |Columns(group)| ==> SortedBy(Columns(group)[c], StartOf)
  {
    if group != [] {
      var p := group[..|group| - 1];
      var s: Slot := group[|group| - 1];
      assert group == p + [s];
      SortedSplit(p, [s], StartOf);
      ColumnsSorted(p);
      var cols: seq<seq<Slot>> := Columns(p);
      forall c: nat, i: nat | c < |cols| && i < |cols[c]| ensures cols[c][i].start <= s.start {
        ColumnsMembers(p, c, i);
      }
      PlaceKeepsSorted(cols, s);
    }
  }

  /** In a column sorted by start, an event starts at or after the end of every earlier
      event of the column, whatever the events' lengths. */
  lemma ChainedApart(col: seq<Slot>, m: nat, n: nat)
    requires Chained(col) && SortedBy(col, StartOf) && m < n < |col|
    ensures col[n].start >= col[m].end
  {
    assert StartOf(col[m + 1]) <= StartOf(col[n]);
  }

  /** Two events sharing a column of a group sorted by start never overlap, even when an
      event ends before it starts. */
  lemma ColumnsDisjoint(group: seq<Slot>, c: nat, m: nat, n: nat)
    requires SortedBy(group, StartOf)
    requires c < |Columns(group)| && m < n < |Columns(group)[c]|
    ensures Columns(group)[c][n].start >= Columns(group)[c][m].end
    ensures !Overlap(Columns(group)[c][m], Columns(group)[c][n])
  {
    ColumnsSorted(group);
    ChainedApart(Columns(group)[c], m, n);
  }

  /** In the layout of a day, two events placed in the same column of the same cluster
      never overlap, whatever times the events carry. */
  lemma LayoutColumnsDisjoint(events: seq<TimelineEvent>, b: nat, c: nat, m: nat, n: nat)
    requires forall e :: e in events ==> Timed(e)
    requires var cs := Clusters(SortByStart(ToSlots(events)));
      b < |cs| && c < |Columns(cs[b])| && m < n < |Columns(cs[b])[c]|
    ensures var col := Columns(Clusters(SortByStart(ToSlots(events)))[b])[c];
      col[n].start >= col[m].end && !Overlap(col[m], col[n])
  {
    var cs := Clusters(SortByStart(ToSlots(events)));
    ClustersSorted(SortByStart(ToSlots(events)));
    ColumnsDisjoint(cs[b], c, m, n);
  }
}
