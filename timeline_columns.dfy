/** The column count of a cluster is as small as it can be: first-fit placement of events
    sorted by start opens exactly as many columns as the largest number of the cluster's
    events in progress at one moment (src/components/Timeline.tsx, lines 152-170). */
module TimelineColumns {
  import opened Lists
  import opened Records
  import opened TimelineLayout
  import opened TimelineClusters

  function Ind(b: bool): nat {
    if b then 1 else 0
  }

  /** The event is in progress at minute `t`. */
  predicate Covers(x: Slot, t: int) {
    x.start <= t < x.end
  }

  /** How many events of the list are in progress at minute `t`. */
  function Depth(s: seq<Slot>, t: int): (d: nat)
    ensures d <= |s|
  {
    if s == [] then 0 else Depth(s[..|s| - 1], t) + Ind(Covers(s[|s| - 1], t))
  }

  /** How many columns are still occupied at minute `t`: their last event ends after it. */
  function Busy(cols: seq<seq<Slot>>, t: int): (b: nat)
    requires NonEmptyColumns(cols)
    ensures b <= |cols|
  {
    if cols == [] then 0 else Busy(cols[..|cols| - 1], t) + Ind(LastEnd(cols[|cols| - 1]) > t)
  }

  lemma {:induction false} BusyUpdate(cols: seq<seq<Slot>>, k: nat, x: Slot, t: int)
    requires NonEmptyColumns(cols) && k < |cols|
    ensures NonEmptyColumns(cols[k := cols[k] + [x]])
    ensures Busy(cols[k := cols[k] + [x]], t) + Ind(LastEnd(cols[k]) > t) == Busy(cols, t) + Ind(x.end > t)
  {
    var u := cols[k := cols[k] + [x]];
    var n := |cols| - 1;
    if k < n {
      assert u[..n] == cols[..n][k := cols[k] + [x]];
      BusyUpdate(cols[..n], k, x, t);
    } else {
      assert u[..n] == cols[..n];
    }
  }

  lemma {:induction false} BusyAll(cols: seq<seq<Slot>>, t: int)
    requires NonEmptyColumns(cols)
    requires forall c :: 0 <= c < |cols| ==> LastEnd(cols[c]) > t
    ensures Busy(cols, t) == |cols|
  {
    if cols != [] {
      BusyAll(cols[..|cols| - 1], t);
    }
  }

  /** From the last start on, the events in progress are exactly the occupied columns. */
  lemma {:induction false} DepthIsBusy(g: seq<Slot>, t: int)
    requires SortedBy(g, StartOf)
    requires g != [] ==> t >= g[|g| - 1].start
    ensures Depth(g, t) == Busy(Columns(g), t)
  {
    if g != [] {
      var p, x := g[..|g| - 1], g[|g| - 1];
      assert g == p + [x];
      SortedSplit(p, [x], StartOf);
      if p != [] {
        assert p[|p| - 1] in p;
      }
      DepthIsBusy(p, t);
      PlaceLastKeepsBusy(g, t);
    }
  }

  /** Placing the last event, at or before `t`, adds one event in progress at `t` exactly
      when it adds one occupied column. */
  lemma PlaceLastKeepsBusy(g: seq<Slot>, t: int)
    requires g != [] && t >= g[|g| - 1].start
    requires Depth(g[..|g| - 1], t) == Busy(Columns(g[..|g| - 1]), t)
    ensures Depth(g, t) == Busy(Columns(g), t)
  {
    var p, x := g[..|g| - 1], g[|g| - 1];
    var cols := Columns(p);
    var k := FirstFit(cols, x.start, 0);
    assert Depth(g, t) == Depth(p, t) + Ind(Covers(x, t));
    if k < |cols| {
      assert Columns(g) == cols[k := cols[k] + [x]];
      BusyUpdate(cols, k, x, t);
    } else {
      assert Columns(g) == cols + [[x]];
      assert (cols + [[x]])[..|cols|] == cols;
    }
  }

  lemma {:induction false} ColumnsGrow(g: seq<Slot>)
    requires g != []
    ensures |Columns(g[..|g| - 1])| <= |Columns(g)|
  {
  }

  /** No moment has more events of a sorted cluster in progress than it has columns. */
  lemma {:induction false} DepthAtMostColumns(g: seq<Slot>, t: int)
    requires SortedBy(g, StartOf)
    ensures Depth(g, t) <= |Columns(g)|
  {
    if g != [] {
      var p, x := g[..|g| - 1], g[|g| - 1];
      if t >= x.start {
        DepthIsBusy(g, t);
      } else {
        assert g == p + [x];
        SortedSplit(p, [x], StartOf);
        DepthAtMostColumns(p, t);
        ColumnsGrow(g);
      }
    }
  }

  /** Opening a new column for the last event: every older column is occupied at its
      start, and so is the new one. */
  lemma OpenedAtLastStart(g: seq<Slot>)
    requires SortedBy(g, StartOf) && g != [] && g[|g| - 1].start < g[|g| - 1].end
    requires var x := g[|g| - 1]; FirstFit(Columns(g[..|g| - 1]), x.start, 0) == |Columns(g[..|g| - 1])|
    ensures Depth(g, g[|g| - 1].start) == |Columns(g)|
  {
    var p, x := g[..|g| - 1], g[|g| - 1];
    var cols := Columns(p);
    DepthIsBusy(g, x.start);
    BusyAll(cols, x.start);
    assert Columns(g) == cols + [[x]];
    assert (cols + [[x]])[..|cols|] == cols;
  }

  /** Placing the last event in an open column keeps the column count, so a moment of the
      earlier events at which every column was occupied still is one. */
  lemma FullMomentCarriesOver(g: seq<Slot>, j: nat)
    requires SortedBy(g, StartOf) && g != [] && j < |g| - 1
    requires var p, x := g[..|g| - 1], g[|g| - 1]; FirstFit(Columns(p), x.start, 0) < |Columns(p)|
    requires Depth(g[..|g| - 1], g[j].start) == |Columns(g[..|g| - 1])|
    ensures Depth(g, g[j].start) == |Columns(g)|
  {
    DepthAtMostColumns(g, g[j].start);
  }

  /** When every event has positive length, some event's start has as many events in
      progress as the cluster has columns. */
  lemma {:induction false} ColumnsAttained(g: seq<Slot>)
    requires SortedBy(g, StartOf) && g != []
    requires forall i :: 0 <= i < |g| ==> g[i].start < g[i].end
    ensures exists j :: 0 <= j < |g| && Depth(g, g[j].start) == |Columns(g)|
  {
    var p, x := g[..|g| - 1], g[|g| - 1];
    if FirstFit(Columns(p), x.start, 0) < |Columns(p)| {
      assert g == p + [x];
      SortedSplit(p, [x], StartOf);
      assert forall i :: 0 <= i < |p| ==> p[i] == g[i];
      ColumnsAttained(p);
      var j :| 0 <= j < |p| && Depth(p, p[j].start) == |Columns(p)|;
      FullMomentCarriesOver(g, j);
    } else {
      OpenedAtLastStart(g);
    }
  }

  /** The number of columns of a sorted cluster of positive-length events is the largest
      number of its events in progress at one moment. */
  lemma ColumnCountIsMaxDepth(g: seq<Slot>)
    requires SortedBy(g, StartOf) && g != []
    requires forall i :: 0 <= i < |g| ==> g[i].start < g[i].end
    ensures forall t :: Depth(g, t) <= |Columns(g)|
    ensures exists j :: 0 <= j < |g| && Depth(g, g[j].start) == |Columns(g)|
  {
    forall t ensures Depth(g, t) <= |Columns(g)| {
      DepthAtMostColumns(g, t);
    }
    ColumnsAttained(g);
  }

  /** The indices of the events in progress at minute `t`. */
  ghost function CoveringAt(g: seq<Slot>, t: int): set<nat> {
    set i: nat | i < |g| && Covers(g[i], t)
  }

  lemma {:induction false} CoveringAtCount(g: seq<Slot>, t: int)
    ensures |CoveringAt(g, t)| == Depth(g, t)
  {
    if g != [] {
      var p := g[..|g| - 1];
      CoveringAtCount(p, t);
      if Covers(g[|g| - 1], t) {
        assert CoveringAt(g, t) == CoveringAt(p, t) + {|g| - 1};
      } else {
        assert CoveringAt(g, t) == CoveringAt(p, t);
      }
    }
  }

  /** The columns an assignment gives the events with indices in `ix`. */
  ghost function ColumnsOf(col: seq<nat>, ix: set<nat>): set<nat>
    requires forall i :: i in ix ==> i < |col|
  {
    set i | i in ix :: col[i]
  }

  /** Every column an assignment uses. */
  ghost function Used(col: seq<nat>): set<nat> {
    set i | 0 <= i < |col| :: col[i]
  }

  lemma {:induction false} InjectiveImage(col: seq<nat>, ix: set<nat>)
    requires forall i :: i in ix ==> i < |col|
    requires forall i, j :: i in ix && j in ix && i != j ==> col[i] != col[j]
    ensures |ColumnsOf(col, ix)| == |ix|
    decreases |ix|
  {
    if ix != {} {
      var i :| i in ix;
      var rest := ix - {i};
      InjectiveImage(col, rest);
      assert ColumnsOf(col, ix) == ColumnsOf(col, rest) + {col[i]};
    }
  }

  lemma SubsetCard(a: set<nat>, b: set<nat>)
    requires a <= b
    ensures |a| <= |b|
  {
    assert b == a + (b - a);
  }

  /** First fit is optimal: any assignment of columns to a sorted cluster of
      positive-length events that keeps overlapping events apart uses at least as many
      columns as first fit opens. */
  lemma FirstFitFewestColumns(g: seq<Slot>, col: seq<nat>)
    requires SortedBy(g, StartOf) && g != []
    requires forall i :: 0 <= i < |g| ==> g[i].start < g[i].end
    requires |col| == |g|
    requires forall i, j :: 0 <= i < |g| && 0 <= j < |g| && i != j && Overlap(g[i], g[j]) ==> col[i] != col[j]
    ensures |Used(col)| >= |Columns(g)|
  {
    ColumnsAttained(g);
    var j :| 0 <= j < |g| && Depth(g, g[j].start) == |Columns(g)|;
    var t := g[j].start;
    var busy := CoveringAt(g, t);
    CoveringAtCount(g, t);
    forall i, k | i in busy && k in busy && i != k ensures col[i] != col[k] {
      assert Overlap(g[i], g[k]);
    }
    InjectiveImage(col, busy);
    SubsetCard(ColumnsOf(col, busy), Used(col));
  }

  /** An event of zero length still takes a column though it is never in progress. */
  lemma ZeroLengthTakesAColumn(x: Slot)
    requires x.start == x.end
    ensures |Columns([x])| == 1 && forall t :: Depth([x], t) == 0
  {
    assert [x][..0] == [];
    assert FirstFit([], x.start, 0) == 0;
  }

  /** Every cluster of the day's layout has as many columns as it has events in progress
      at its busiest moment, when every event has positive length. */
  lemma ClusterColumnsMinimal(events: seq<TimelineEvent>, b: nat)
    requires forall e :: e in events ==> Timed(e)
    requires forall x :: x in ToSlots(events) ==> x.start < x.end
    requires b < |Clusters(SortByStart(ToSlots(events)))|
    ensures var g := Clusters(SortByStart(ToSlots(events)))[b];
      && (forall t :: Depth(g, t) <= |Columns(g)|)
      && exists j :: 0 <= j < |g| && Depth(g, g[j].start) == |Columns(g)|
  {
    var s := SortByStart(ToSlots(events));
    var g := Clusters(s)[b];
    ClustersSorted(s);
    ClustersPartition(s);
    forall i | 0 <= i < |g| ensures g[i].start < g[i].end {
      FlattenMember(Clusters(s), b, i);
      assert g[i] in multiset(s);
    }
    ColumnCountIsMaxDepth(g);
  }
}
