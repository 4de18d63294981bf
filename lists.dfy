/** The JavaScript array operations the journal uses on its record lists:
    `filter`, flattening nested arrays and the stable `sort` with a key comparator. */
module Lists {

  /** `s.filter(keep)`: the elements satisfying `keep`, in their original order. */
  function Filter<T>(s: seq<T>, keep: T -> bool): (r: seq<T>)
    ensures |r| <= |s|
  {
    if s == [] then []
    else (if keep(s[0]) then [s[0]] else []) + Filter(s[1..], keep)
  }

  /** The filter keeps every passing element as often as it occurs, and nothing else. */
  lemma {:induction false} FilterCount<T>(s: seq<T>, keep: T -> bool, x: T)
    ensures multiset(Filter(s, keep))[x] == if keep(x) then multiset(s)[x] else 0
  {
    if s != [] {
      assert s == [s[0]] + s[1..];
      FilterCount(s[1..], keep, x);
    }
  }

  lemma {:induction false} FilterMembers<T>(s: seq<T>, keep: T -> bool, x: T)
    ensures x in Filter(s, keep) <==> x in s && keep(x)
  {
    FilterCount(s, keep, x);
    assert x in Filter(s, keep) <==> multiset(Filter(s, keep))[x] > 0;
    assert x in s <==> multiset(s)[x] > 0;
  }

  lemma {:induction false} FilterAppend<T>(a: seq<T>, b: seq<T>, keep: T -> bool)
    ensures Filter(a + b, keep) == Filter(a, keep) + Filter(b, keep)
  {
    if a == [] {
      assert a + b == b;
    } else {
      var ab := a + b;
      assert ab != [] && ab[0] == a[0] && ab[1..] == a[1..] + b;
      FilterAppend(a[1..], b, keep);
      var head := if keep(a[0]) then [a[0]] else [];
      assert Filter(ab, keep) == head + Filter(a[1..] + b, keep);
      assert Filter(a, keep) == head + Filter(a[1..], keep);
    }
  }

  /** Filtering keeps a list unchanged when every element passes. */
  lemma {:induction false} FilterKeepsAll<T>(s: seq<T>, keep: T -> bool)
    requires forall x :: x in s ==> keep(x)
    ensures Filter(s, keep) == s
  {
    if s != [] {
      assert forall x :: x in s[1..] ==> x in s;
      FilterKeepsAll(s[1..], keep);
    }
  }

  /** Filtering empties a list when no element passes. */
  lemma {:induction false} FilterDropsAll<T>(s: seq<T>, keep: T -> bool)
    requires forall x :: x in s ==> !keep(x)
    ensures Filter(s, keep) == []
  {
    if s != [] {
      assert forall x :: x in s[1..] ==> x in s;
      FilterDropsAll(s[1..], keep);
    }
  }

  /** Concatenation of a list of lists, in order. */
  function Flatten<T>(ss: seq<seq<T>>): seq<T> {
    if ss == [] then [] else ss[0] + Flatten(ss[1..])
  }

  lemma {:induction false} FlattenAppend<T>(ss: seq<seq<T>>, s: seq<T>)
    ensures Flatten(ss + [s]) == Flatten(ss) + s
  {
    if ss != [] {
      assert (ss + [s])[1..] == ss[1..] + [s];
      FlattenAppend(ss[1..], s);
    }
  }

  predicate SortedBy<T>(s: seq<T>, key: T -> int) {
    forall i, j :: 0 <= i < j < |s| ==> key(s[i]) <= key(s[j])
  }

  /** Puts `x` after every element whose key is at most `key(x)`; that is where the
      stable sort leaves a later element of equal key. */
  function Insert<T>(sorted: seq<T>, x: T, key: T -> int): (r: seq<T>)
    requires SortedBy(sorted, key)
    ensures SortedBy(r, key)
    ensures multiset(r) == multiset(sorted) + multiset{x}
    ensures forall y :: y in r ==> y in sorted || y == x
    decreases |sorted|
  {
    if sorted == [] || key(sorted[|sorted| - 1]) <= key(x) then sorted + [x]
    else
      var init, last := sorted[..|sorted| - 1], sorted[|sorted| - 1];
      assert sorted == init + [last];
      var r := Insert(init, x, key);
      InsertBeforeLast(init, last, r, x, key);
      r + [last]
  }

  /** The inductive step of `Insert` when `x` goes before the last element. */
  lemma InsertBeforeLast<T>(init: seq<T>, last: T, r: seq<T>, x: T, key: T -> int)
    requires SortedBy(init + [last], key) && key(x) < key(last)
    requires SortedBy(r, key) && multiset(r) == multiset(init) + multiset{x}
    requires forall y :: y in r ==> y in init || y == x
    ensures SortedBy(r + [last], key)
    ensures multiset(r + [last]) == multiset(init + [last]) + multiset{x}
    ensures forall y :: y in r + [last] ==> y in init + [last] || y == x
  {
    SortedSplit(init, [last], key);
    forall i, j | 0 <= i < j < |r| + 1 ensures key((r + [last])[i]) <= key((r + [last])[j]) {
      if j == |r| {
        assert r[i] in r;
      } else {
        assert (r + [last])[i] == r[i] && (r + [last])[j] == r[j];
      }
    }
  }

  /** `[...s].sort((a, b) => key(a) - key(b))`: ascending by key; the sort is stable. */
  function SortBy<T>(s: seq<T>, key: T -> int): (r: seq<T>)
    ensures SortedBy(r, key)
    ensures multiset(r) == multiset(s)
  {
    if s == [] then []
    else
      assert s == s[..|s| - 1] + [s[|s| - 1]];
      Insert(SortBy(s[..|s| - 1], key), s[|s| - 1], key)
  }

  /** The test "has key `v`". */
  function HasKey<T>(key: T -> int, v: int): T -> bool {
    x => key(x) == v
  }

  /** Elements with key `v`, in order. */
  function WithKey<T>(s: seq<T>, key: T -> int, v: int): seq<T> {
    Filter(s, HasKey(key, v))
  }

  lemma {:induction false} InsertStable<T>(sorted: seq<T>, x: T, key: T -> int, v: int)
    requires SortedBy(sorted, key)
    ensures WithKey(Insert(sorted, x, key), key, v) == WithKey(sorted, key, v) + WithKey([x], key, v)
    decreases |sorted|
  {
    var eq := HasKey(key, v);
    if sorted == [] || key(sorted[|sorted| - 1]) <= key(x) {
      FilterAppend(sorted, [x], eq);
    } else {
      var init, last := sorted[..|sorted| - 1], sorted[|sorted| - 1];
      assert sorted == init + [last];
      assert Insert(sorted, x, key) == Insert(init, x, key) + [last];
      InsertStable(init, x, key, v);
      assert !(eq(x) && eq(last));
      FilterLastStep(Insert(init, x, key), init, x, last, eq);
    }
  }

  /** Appending an element that cannot pass alongside `x` keeps "`r` filters like `a`, then `x`". */
  lemma FilterLastStep<T>(r: seq<T>, a: seq<T>, x: T, last: T, keep: T -> bool)
    requires Filter(r, keep) == Filter(a, keep) + Filter([x], keep)
    requires !(keep(x) && keep(last))
    ensures Filter(r + [last], keep) == Filter(a + [last], keep) + Filter([x], keep)
  {
    FilterAppend(r, [last], keep);
    FilterSwapLast(a, x, last, keep);
  }

  /** Of two elements that cannot both pass, the order in which they are filtered does not matter. */
  lemma FilterSwapLast<T>(a: seq<T>, x: T, last: T, keep: T -> bool)
    requires !(keep(x) && keep(last))
    ensures Filter(a, keep) + Filter([x], keep) + Filter([last], keep) == Filter(a + [last], keep) + Filter([x], keep)
  {
    FilterAppend(a, [last], keep);
    var fx, fl := Filter([x], keep), Filter([last], keep);
    assert fx == (if keep(x) then [x] else []) + Filter([], keep);
    assert fl == (if keep(last) then [last] else []) + Filter([], keep);
    assert Filter(a, keep) + fx + fl == Filter(a, keep) + fl + fx;
  }

  /** Stability: for every key value, the elements with that key keep their input order. */
  lemma {:induction false} SortByStable<T>(s: seq<T>, key: T -> int, v: int)
    ensures WithKey(SortBy(s, key), key, v) == WithKey(s, key, v)
  {
    if s != [] {
      var init := s[..|s| - 1];
      assert s == init + [s[|s| - 1]];
      SortByStable(init, key, v);
      InsertStable(SortBy(init, key), s[|s| - 1], key, v);
      FilterAppend(init, [s[|s| - 1]], HasKey(key, v));
    }
  }

  /** `s.map(f)` */
  function Map<A, B>(s: seq<A>, f: A -> B): (r: seq<B>)
    ensures |r| == |s| && forall i :: 0 <= i < |s| ==> r[i] == f(s[i])
  {
    seq(|s|, i requires 0 <= i < |s| => f(s[i]))
  }

  lemma MapAppend<A, B>(a: seq<A>, b: seq<A>, f: A -> B)
    ensures Map(a + b, f) == Map(a, f) + Map(b, f)
  {
  }

  /** Mapping first changes nothing a filter keeps when the map fixes every kept element
      and keeps every dropped one dropped. */
  lemma {:induction false} FilterAfterMap<T>(s: seq<T>, f: T -> T, keep: T -> bool)
    requires forall x :: keep(x) ==> f(x) == x
    requires forall x :: !keep(x) ==> !keep(f(x))
    ensures Filter(Map(s, f), keep) == Filter(s, keep)
  {
    if s != [] {
      var m := Map(s, f);
      assert m[0] == f(s[0]) && m[1..] == Map(s[1..], f);
      FilterAfterMap(s[1..], f, keep);
    }
  }

  /** Mapping two permutations of each other gives permutations of each other. */
  lemma {:induction false} MultisetMap<A, B>(a: seq<A>, b: seq<A>, f: A -> B)
    requires multiset(a) == multiset(b)
    ensures multiset(Map(a, f)) == multiset(Map(b, f))
  {
    if a == [] {
      assert |b| == |multiset(b)| == 0;
      assert b == a;
    } else {
      var x := a[0];
      assert x in multiset(b);
      var k :| 0 <= k < |b| && b[k] == x;
      var rest := b[..k] + b[k + 1..];
      RemoveAt(a, b, k);
      MultisetMap(a[1..], rest, f);
      MultisetMapStep(a, b, k, f);
    }
  }

  /** The step of `MultisetMap`: the head of `a`, found at `k` in `b`, maps to the same value. */
  lemma MultisetMapStep<A, B>(a: seq<A>, b: seq<A>, k: int, f: A -> B)
    requires a != [] && 0 <= k < |b| && b[k] == a[0]
    requires multiset(Map(a[1..], f)) == multiset(Map(b[..k] + b[k + 1..], f))
    ensures multiset(Map(a, f)) == multiset(Map(b, f))
  {
    MapRemoveAt(b, k, f);
    MapHead(a, f);
  }

  lemma MapHead<A, B>(a: seq<A>, f: A -> B)
    requires a != []
    ensures multiset(Map(a, f)) == multiset{f(a[0])} + multiset(Map(a[1..], f))
  {
    assert Map(a, f) == [f(a[0])] + Map(a[1..], f);
  }

  /** Taking the head of `a` out of `b` where it sits leaves a permutation of the tail. */
  lemma RemoveAt<T>(a: seq<T>, b: seq<T>, k: int)
    requires a != [] && 0 <= k < |b| && b[k] == a[0] && multiset(a) == multiset(b)
    ensures multiset(a[1..]) == multiset(b[..k] + b[k + 1..])
  {
    var x, l, r := a[0], b[..k], b[k + 1..];
    assert b == l + [x] + r;
    assert a == [x] + a[1..];
    assert multiset(b) == multiset(l) + multiset{x} + multiset(r);
    assert multiset(a[1..]) == multiset(a) - multiset{x};
    assert multiset(l + r) == multiset(l) + multiset(r);
  }

  /** Mapping a list gives its element at `k` mapped, plus the rest mapped. */
  lemma MapRemoveAt<A, B>(b: seq<A>, k: int, f: A -> B)
    requires 0 <= k < |b|
    ensures multiset(Map(b, f)) == multiset{f(b[k])} + multiset(Map(b[..k] + b[k + 1..], f))
  {
    assert b == b[..k] + [b[k]] + b[k + 1..];
    MapAppend(b[..k] + [b[k]], b[k + 1..], f);
    MapAppend(b[..k], [b[k]], f);
    MapAppend(b[..k], b[k + 1..], f);
  }

  /** Both halves of a sorted list are sorted, and the first half lies below the second. */
  lemma SortedSplit<T>(a: seq<T>, b: seq<T>, key: T -> int)
    requires SortedBy(a + b, key)
    ensures SortedBy(a, key) && SortedBy(b, key)
    ensures forall x, y :: x in a && y in b ==> key(x) <= key(y)
  {
    forall i, j | 0 <= i < j < |a| ensures key(a[i]) <= key(a[j]) {
      assert a[i] == (a + b)[i] && a[j] == (a + b)[j];
    }
    forall i, j | 0 <= i < j < |b| ensures key(b[i]) <= key(b[j]) {
      assert b[i] == (a + b)[|a| + i] && b[j] == (a + b)[|a| + j];
    }
    forall x, y | x in a && y in b ensures key(x) <= key(y) {
      var i :| 0 <= i < |a| && a[i] == x;
      var j :| 0 <= j < |b| && b[j] == y;
      assert (a + b)[i] == x && (a + b)[|a| + j] == y;
    }
  }
}
