/** What the grouping loop of the timeline layout guarantees (src/components/Timeline.tsx,
    lines 136-150): its groups are the sorted list cut into pieces, later groups start
    after every earlier group has ended, no group can be cut further, and an event that
    overlaps nothing is a group of its own. */
module TimelineClusters {
  import opened Lists
  import opened TimelineLayout

  /** `lastEnd` after a list: the largest end, or 0. */
  function MaxEnd(s: seq<Slot>): (r: int)
    ensures r >= 0
    ensures forall i :: 0 <= i < |s| ==> s[i].end <= r
    ensures r == 0 || exists i :: 0 <= i < |s| && s[i].end == r
  {
    if s == [] then 0 else Max(MaxEnd(s[..|s| - 1]), s[|s| - 1].end)
  }

  lemma {:induction false} MaxEndAppend(a: seq<Slot>, b: seq<Slot>)
    ensures MaxEnd(a + b) == Max(MaxEnd(a), MaxEnd(b))
    decreases |b|
  {
    if b == [] {
      assert a + b == a;
    } else {
      assert (a + b)[..|a + b| - 1] == a + b[..|b| - 1];
      MaxEndAppend(a, b[..|b| - 1]);
    }
  }

  /** Two events overlap when each starts before the other ends. */
  predicate Overlap(x: Slot, y: Slot) {
    x.start < y.end && y.start < x.end
  }

  /** Every event of a later group starts at or after the end of every event of an
      earlier group. */
  ghost predicate Separated(groups: seq<seq<Slot>>) {
    forall a, b, i, j :: 0 <= a < b < |groups| && 0 <= i < |groups[a]| && 0 <= j < |groups[b]| ==>
      groups[b][j].start >= groups[a][i].end
  }

  /** Every event after the first starts before the latest end among those before it,
      so the group cannot be cut in two. */
  ghost predicate Linked(g: seq<Slot>) {
    forall k :: 0 < k < |g| ==> g[k].start < MaxEnd(g[..k])
  }

  lemma {:induction false} FlattenMember(ss: seq<seq<Slot>>, a: nat, i: nat)
    requires a < |ss| && i < |ss[a]|
    ensures ss[a][i] in Flatten(ss)
  {
    if a > 0 {
      FlattenMember(ss[1..], a - 1, i);
    }
  }

  /** The scan's bookkeeping: closed groups then the open group rebuild the list, closed
      groups are never empty, and the open group is empty only before the first event. */
  lemma {:induction false} ScanRebuild(s: seq<Slot>)
    ensures Flatten(ClusterScan(s).groups) + ClusterScan(s).current == s
    ensures forall a :: 0 <= a < |ClusterScan(s).groups| ==> |ClusterScan(s).groups[a]| > 0
    ensures s != [] ==> ClusterScan(s).current != []
  {
    if s != [] {
      var p, x := s[..|s| - 1], s[|s| - 1];
      assert s == p + [x];
      ScanRebuild(p);
      var st := ClusterScan(p);
      assert ClusterScan(s) == ClusterStep(st, x);
      if x.start >= st.lastEnd {
        if |st.current| > 0 {
          FlattenAppend(st.groups, st.current);
          assert Flatten(st.groups + [st.current]) + [x] == p + [x];
        } else {
          assert Flatten(st.groups) == p;
        }
      } else {
        assert Flatten(st.groups) + (st.current + [x]) == p + [x];
      }
    }
  }

  /** `lastEnd` is the running maximum end. */
  lemma {:induction false} ScanLastEnd(s: seq<Slot>)
    ensures ClusterScan(s).lastEnd == MaxEnd(s)
  {
    if s != [] {
      ScanLastEnd(s[..|s| - 1]);
    }
  }

  lemma ScanFacts(s: seq<Slot>)
    ensures var st := ClusterScan(s);
      && Flatten(st.groups) + st.current == s
      && (forall a :: 0 <= a < |st.groups| ==> |st.groups[a]| > 0)
      && (s != [] ==> st.current != [])
      && st.lastEnd == MaxEnd(s)
  {
    ScanRebuild(s);
    ScanLastEnd(s);
  }

  /** The groups, concatenated, are the list itself; none is empty. */
  lemma ClustersPartition(s: seq<Slot>)
    ensures Flatten(Clusters(s)) == s
    ensures forall b :: 0 <= b < |Clusters(s)| ==> |Clusters(s)[b]| > 0
  {
    ScanFacts(s);
    var st := ClusterScan(s);
    FlattenAppend(st.groups, st.current);
    if |st.current| == 0 {
      assert Flatten(st.groups) + st.current == Flatten(st.groups);
    }
  }

  /** Every event of the open group starts at or after the end of every closed event. */
  ghost predicate OpenAfterClosed(groups: seq<seq<Slot>>, current: seq<Slot>) {
    forall a, i, j :: 0 <= a < |groups| && 0 <= i < |groups[a]| && 0 <= j < |current| ==>
      current[j].start >= groups[a][i].end
  }

  /** Every element of the groups ends by `t`. */
  ghost predicate EndsBy(groups: seq<seq<Slot>>, t: int) {
    forall a, i :: 0 <= a < |groups| && 0 <= i < |groups[a]| ==> groups[a][i].end <= t
  }

  lemma EndsByMaxEnd(groups: seq<seq<Slot>>)
    ensures EndsBy(groups, MaxEnd(Flatten(groups)))
  {
    forall a, i | 0 <= a < |groups| && 0 <= i < |groups[a]|
      ensures groups[a][i].end <= MaxEnd(Flatten(groups))
    {
      FlattenMember(groups, a, i);
      var f := Flatten(groups);
      var n :| 0 <= n < |f| && f[n] == groups[a][i];
    }
  }

  /** The step that opens a new group keeps the groups separated. */
  lemma OpenStepSeparated(st: ClusterState, x: Slot)
    requires Separated(st.groups) && OpenAfterClosed(st.groups, st.current)
    requires EndsBy(st.groups + [st.current], st.lastEnd) && x.start >= st.lastEnd
    ensures Separated(ClusterStep(st, x).groups)
    ensures OpenAfterClosed(ClusterStep(st, x).groups, ClusterStep(st, x).current)
  {
    if |st.current| > 0 {
      var g: seq<seq<Slot>> := st.groups + [st.current];
      forall a, b, i, j | 0 <= a < b < |g| && 0 <= i < |g[a]| && 0 <= j < |g[b]|
        ensures g[b][j].start >= g[a][i].end
      {
        if b < |st.groups| {
          assert g[a] == st.groups[a] && g[b] == st.groups[b];
        } else {
          assert g[a] == st.groups[a] && g[b] == st.current;
        }
      }
      forall a, i | 0 <= a < |g| && 0 <= i < |g[a]| ensures x.start >= g[a][i].end {
      }
    } else {
      forall a, i | 0 <= a < |st.groups| && 0 <= i < |st.groups[a]| ensures x.start >= st.groups[a][i].end {
        assert (st.groups + [st.current])[a] == st.groups[a];
      }
    }
  }

  /** The step that joins the open group keeps the groups separated, when the new event
      starts no earlier than the open group's first. */
  lemma JoinStepSeparated(st: ClusterState, x: Slot)
    requires Separated(st.groups) && OpenAfterClosed(st.groups, st.current)
    requires |st.groups| > 0 ==> |st.current| > 0 && st.current[0].start <= x.start
    requires x.start < st.lastEnd
    ensures Separated(ClusterStep(st, x).groups)
    ensures OpenAfterClosed(ClusterStep(st, x).groups, ClusterStep(st, x).current)
  {
    var cur := st.current + [x];
    forall a, i, j | 0 <= a < |st.groups| && 0 <= i < |st.groups[a]| && 0 <= j < |cur|
      ensures cur[j].start >= st.groups[a][i].end
    {
      if j < |st.current| {
        assert cur[j] == st.current[j];
      } else {
        assert st.current[0].start >= st.groups[a][i].end;
      }
    }
  }

  lemma {:induction false} ScanSeparated(s: seq<Slot>)
    requires SortedBy(s, StartOf)
    ensures Separated(ClusterScan(s).groups)
    ensures OpenAfterClosed(ClusterScan(s).groups, ClusterScan(s).current)
  {
    if s != [] {
      var p, x := s[..|s| - 1], s[|s| - 1];
      assert s == p + [x];
      SortedSplit(p, [x], StartOf);
      ScanSeparated(p);
      assert ClusterScan(s) == ClusterStep(ClusterScan(p), x);
      ScanStepSeparated(p, x);
    }
  }

  /** One step of the scan, after events that all start no later than the new one, keeps
      the groups separated. */
  lemma ScanStepSeparated(p: seq<Slot>, x: Slot)
    requires forall y :: y in p ==> y.start <= x.start
    requires Separated(ClusterScan(p).groups) && OpenAfterClosed(ClusterScan(p).groups, ClusterScan(p).current)
    ensures Separated(ClusterStep(ClusterScan(p), x).groups)
    ensures OpenAfterClosed(ClusterStep(ClusterScan(p), x).groups, ClusterStep(ClusterScan(p), x).current)
  {
    ScanFacts(p);
    var st := ClusterScan(p);
    if x.start >= st.lastEnd {
      FlattenAppend(st.groups, st.current);
      EndsByMaxEnd(st.groups + [st.current]);
      OpenStepSeparated(st, x);
    } else {
      if |st.groups| > 0 {
        assert st.current[0] in p;
      }
      JoinStepSeparated(st, x);
    }
  }

  /** Clusters never overlap in time: a later cluster starts once every earlier one has ended. */
  lemma ClustersSeparated(s: seq<Slot>)
    requires SortedBy(s, StartOf)
    ensures Separated(Clusters(s))
  {
    ScanSeparated(s);
  }

  /** The scan's invariant for linkage: every group so far is linked, and the closed
      groups all end by the time the open group starts. */
  ghost predicate LinkedState(st: ClusterState) {
    && (forall a :: 0 <= a < |st.groups| ==> Linked(st.groups[a]))
    && Linked(st.current)
    && (|st.groups| > 0 ==> |st.current| > 0 && MaxEnd(Flatten(st.groups)) <= st.current[0].start)
  }

  lemma OpenStepLinked(st: ClusterState, x: Slot)
    requires LinkedState(st)
    requires MaxEnd(Flatten(st.groups + [st.current])) <= x.start && x.start >= st.lastEnd
    ensures LinkedState(ClusterStep(st, x))
  {
    var g := ClusterStep(st, x).groups;
    if |st.current| == 0 {
      FlattenAppend(st.groups, st.current);
      assert Flatten(st.groups) + st.current == Flatten(st.groups);
    }
    forall a | 0 <= a < |g| ensures Linked(g[a]) {
      if a < |st.groups| {
        assert g[a] == st.groups[a];
      } else {
        assert g[a] == st.current;
      }
    }
  }

  lemma JoinStepLinked(st: ClusterState, x: Slot)
    requires LinkedState(st)
    requires st.lastEnd == Max(MaxEnd(Flatten(st.groups)), MaxEnd(st.current))
    requires |st.groups| > 0 ==> st.current[0].start <= x.start
    requires x.start < st.lastEnd
    ensures LinkedState(ClusterStep(st, x))
  {
    var cur := st.current + [x];
    forall k | 0 < k < |cur| ensures cur[k].start < MaxEnd(cur[..k]) {
      if k < |st.current| {
        assert cur[..k] == st.current[..k];
        assert cur[k] == st.current[k];
      } else {
        assert cur[..k] == st.current;
      }
    }
  }

  lemma {:induction false} ScanLinked(s: seq<Slot>)
    requires SortedBy(s, StartOf)
    ensures LinkedState(ClusterScan(s))
  {
    if s != [] {
      var p, x := s[..|s| - 1], s[|s| - 1];
      assert s == p + [x];
      SortedSplit(p, [x], StartOf);
      ScanLinked(p);
      assert ClusterScan(s) == ClusterStep(ClusterScan(p), x);
      ScanStepLinked(p, x);
    }
  }

  /** One step of the scan, after events that all start no later than the new one, keeps
      every group linked. */
  lemma ScanStepLinked(p: seq<Slot>, x: Slot)
    requires forall y :: y in p ==> y.start <= x.start
    requires LinkedState(ClusterScan(p))
    ensures LinkedState(ClusterStep(ClusterScan(p), x))
  {
    ScanFacts(p);
    var st := ClusterScan(p);
    MaxEndAppend(Flatten(st.groups), st.current);
    if x.start >= st.lastEnd {
      FlattenAppend(st.groups, st.current);
      OpenStepLinked(st, x);
    } else {
      if |st.groups| > 0 {
        assert st.current[0] in p;
      }
      JoinStepLinked(st, x);
    }
  }

  /** No cluster can be split: each event after a cluster's first starts before some
      earlier event of the same cluster has ended. */
  lemma ClustersLinked(s: seq<Slot>)
    requires SortedBy(s, StartOf)
    ensures forall b :: 0 <= b < |Clusters(s)| ==> Linked(Clusters(s)[b])
  {
    ScanLinked(s);
    var st := ClusterScan(s);
    forall b | 0 <= b < |Clusters(s)| ensures Linked(Clusters(s)[b]) {
      if b < |st.groups| {
        assert Clusters(s)[b] == st.groups[b];
      }
    }
  }

  lemma {:induction false} FlattenSorted(gs: seq<seq<Slot>>)
    requires SortedBy(Flatten(gs), StartOf)
    ensures forall b :: 0 <= b < |gs| ==> SortedBy(gs[b], StartOf)
  {
    if gs != [] {
      SortedSplit(gs[0], Flatten(gs[1..]), StartOf);
      FlattenSorted(gs[1..]);
      assert forall b :: 1 <= b < |gs| ==> gs[b] == gs[1..][b - 1];
    }
  }

  /** Each cluster of a sorted list is sorted. */
  lemma ClustersSorted(s: seq<Slot>)
    requires SortedBy(s, StartOf)
    ensures forall b :: 0 <= b < |Clusters(s)| ==> SortedBy(Clusters(s)[b], StartOf)
  {
    ClustersPartition(s);
    FlattenSorted(Clusters(s));
  }

  /** An event that overlaps no other event of its cluster is alone in it, provided events
      have positive length and do not start before midnight. */
  lemma IsolatedEventAlone(s: seq<Slot>, b: nat, k: nat)
    requires SortedBy(s, StartOf)
    requires forall x :: x in s ==> 0 <= x.start < x.end
    requires b < |Clusters(s)| && k < |Clusters(s)[b]|
    requires forall m :: 0 <= m < |Clusters(s)[b]| && m != k ==> !Overlap(Clusters(s)[b][k], Clusters(s)[b][m])
    ensures Clusters(s)[b] == [Clusters(s)[b][k]]
  {
    var g := Clusters(s)[b];
    ClustersPartition(s);
    ClustersLinked(s);
    ClustersSorted(s);
    forall m | 0 <= m < |g| ensures 0 <= g[m].start < g[m].end {
      FlattenMember(Clusters(s), b, m);
    }
    OverlapPartner(g, k);
  }

  /** In a sorted, linked group of two or more positive-length events from midnight on,
      every event overlaps another one. */
  lemma OverlapPartner(g: seq<Slot>, k: nat)
    requires SortedBy(g, StartOf) && Linked(g) && k < |g|
    requires forall m :: 0 <= m < |g| ==> 0 <= g[m].start < g[m].end
    ensures |g| > 1 ==> exists m :: 0 <= m < |g| && m != k && Overlap(g[k], g[m])
  {
    if |g| > 1 {
      if k > 0 {
        assert g[k].start < MaxEnd(g[..k]);
        var m :| 0 <= m < k && g[..k][m].end == MaxEnd(g[..k]);
        assert Overlap(g[k], g[m]);
      } else {
        assert g[1].start < MaxEnd(g[..1]);
        assert g[..1][0] == g[0];
        assert Overlap(g[0], g[1]);
      }
    }
  }
}
