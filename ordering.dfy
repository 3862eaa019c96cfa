/**
 * The two list algorithms the search strategies rely on: the stable sort of
 * Collections.sort by an integer key (ascending, or descending as with
 * Collections.reverseOrder), and the scan of minimax and alphaBeta that keeps
 * the first child with the best value.
 */
module Ordering {

  // ---------------------------------------------------------------- stable sort

  /** Index i must come strictly before index j: its key is smaller (larger when descending). */
  predicate Precedes(keys: seq<int>, i: int, j: int, descending: bool)
    requires 0 <= i < |keys| && 0 <= j < |keys|
  {
    if descending then keys[i] > keys[j] else keys[i] < keys[j]
  }

  predicate InRange(order: seq<int>, n: int) {
    forall k :: 0 <= k < |order| ==> 0 <= order[k] < n
  }

  /** No index of order should have been placed after a later one. */
  predicate SortedBy(keys: seq<int>, order: seq<int>, descending: bool)
    requires InRange(order, |keys|)
  {
    forall a, b :: 0 <= a < b < |order| ==> !Precedes(keys, order[b], order[a], descending)
  }

  /** Indices with equal keys keep their original order. */
  predicate Stable(keys: seq<int>, order: seq<int>)
    requires InRange(order, |keys|)
  {
    forall a, b :: 0 <= a < b < |order| && keys[order[a]] == keys[order[b]] ==> order[a] < order[b]
  }

  /** Insert index j in front of the first index whose key j must precede. */
  function Insert(keys: seq<int>, order: seq<int>, j: int, descending: bool): (r: seq<int>)
    requires 0 <= j < |keys| && InRange(order, |keys|)
    ensures InRange(r, |keys|) && |r| == |order| + 1
  {
    if order == [] then [j]
    else if Precedes(keys, j, order[0], descending) then [j] + order
    else [order[0]] + Insert(keys, order[1..], j, descending)
  }

  /** The order in which a stable sort lists the first n indices of keys. */
  function SortOrder(keys: seq<int>, n: int, descending: bool): (r: seq<int>)
    requires 0 <= n <= |keys|
    ensures InRange(r, |keys|) && |r| == n
  {
    if n == 0 then [] else Insert(keys, SortOrder(keys, n - 1, descending), n - 1, descending)
  }

  /** Insert adds j and keeps every other index. */
  lemma {:induction false} InsertMembers(keys: seq<int>, order: seq<int>, j: int, descending: bool)
    requires 0 <= j < |keys| && InRange(order, |keys|)
    ensures var r := Insert(keys, order, j, descending);
      multiset(r) == multiset(order) + multiset{j} &&
      forall x :: x in r <==> x == j || x in order
    decreases |order|
  {
    if order != [] && !Precedes(keys, j, order[0], descending) {
      InsertMembers(keys, order[1..], j, descending);
      assert order == [order[0]] + order[1..];
    }
  }

  /** No index of what Insert makes of a sorted list's tail must precede the list's head, when j need not. */
  lemma HeadFirst(keys: seq<int>, order: seq<int>, j: int, descending: bool, x: int)
    requires 0 <= j < |keys| && InRange(order, |keys|) && SortedBy(keys, order, descending)
    requires order != [] && !Precedes(keys, j, order[0], descending)
    requires x in Insert(keys, order[1..], j, descending)
    ensures 0 <= x < |keys| && !Precedes(keys, x, order[0], descending)
  {
    InsertMembers(keys, order[1..], j, descending);
    if x != j {
      var k :| 0 <= k < |order[1..]| && order[1..][k] == x;
      assert order[k + 1] == x;
    }
  }

  /** Insert keeps a key-ordered list key-ordered. */
  lemma {:induction false} InsertSorted(keys: seq<int>, order: seq<int>, j: int, descending: bool)
    requires 0 <= j < |keys| && InRange(order, |keys|) && SortedBy(keys, order, descending)
    ensures SortedBy(keys, Insert(keys, order, j, descending), descending)
    decreases |order|
  {
    if order != [] && !Precedes(keys, j, order[0], descending) {
      var rest := Insert(keys, order[1..], j, descending);
      InsertSorted(keys, order[1..], j, descending);
      InsertMembers(keys, order[1..], j, descending);
      var r := [order[0]] + rest;
      forall a, b | 0 <= a < b < |r|
        ensures !Precedes(keys, r[b], r[a], descending)
      {
        if a == 0 {
          HeadFirst(keys, order, j, descending, r[b]);
        } else {
          assert r[a] == rest[a - 1] && r[b] == rest[b - 1];
        }
      }
    }
  }

  /** Putting j in front of a sorted list whose head it must precede creates no tie with j. */
  lemma FrontStable(keys: seq<int>, order: seq<int>, j: int, descending: bool)
    requires 0 <= j < |keys| && InRange(order, j) && SortedBy(keys, order, descending) && Stable(keys, order)
    requires order != [] && Precedes(keys, j, order[0], descending)
    ensures Stable(keys, [j] + order)
  {
    var r := [j] + order;
    forall b | 0 < b < |r|
      ensures keys[r[b]] != keys[j]
    {
      assert r[b] == order[b - 1];
      if b > 1 {
        assert !Precedes(keys, order[b - 1], order[0], descending);
      }
    }
  }

  /** The tail of a sorted, stable list of indices below n is one too. */
  lemma TailFacts(keys: seq<int>, order: seq<int>, n: int, descending: bool)
    requires order != [] && n <= |keys| && InRange(order, n) && SortedBy(keys, order, descending) && Stable(keys, order)
    ensures InRange(order[1..], n) && SortedBy(keys, order[1..], descending) && Stable(keys, order[1..])
  {
  }

  /**
   * A stable list rest keeps its ties in order behind a head x that is
   * smaller than j and tied in order with every other index of rest.
   */
  lemma HeadStable(keys: seq<int>, x: int, tail: seq<int>, rest: seq<int>, j: int)
    requires 0 <= x < j < |keys| && InRange(tail, j) && InRange(rest, |keys|) && Stable(keys, rest)
    requires Stable(keys, [x] + tail)
    requires forall y :: y in rest <==> y == j || y in tail
    ensures Stable(keys, [x] + rest)
  {
    var r := [x] + rest;
    forall b | 0 < b < |r| && keys[x] == keys[r[b]]
      ensures x < r[b]
    {
      assert r[b] in rest;
      if r[b] != j {
        var k :| 0 <= k < |tail| && tail[k] == r[b];
        var xt := [x] + tail;
        assert xt[0] == x && xt[k + 1] == r[b];
        assert keys[xt[0]] == keys[xt[k + 1]];
      }
    }
    forall a, b | 0 < a < b < |r|
      ensures r[a] == rest[a - 1] && r[b] == rest[b - 1]
    {
    }
  }

  /** Insert of an index larger than all others keeps ties in index order. */
  lemma {:induction false} InsertStable(keys: seq<int>, order: seq<int>, j: int, descending: bool)
    requires 0 <= j < |keys| && InRange(order, j) && SortedBy(keys, order, descending) && Stable(keys, order)
    ensures Stable(keys, Insert(keys, order, j, descending))
    decreases |order|
  {
    if order != [] {
      if Precedes(keys, j, order[0], descending) {
        FrontStable(keys, order, j, descending);
      } else {
        var tail := order[1..];
        TailFacts(keys, order, j, descending);
        InsertStable(keys, tail, j, descending);
        InsertMembers(keys, tail, j, descending);
        HeadStable(keys, order[0], tail, Insert(keys, tail, j, descending), j);
      }
    }
  }

  /** Inserting the next index n - 1 into a sorted, stable list of the indices below it keeps it so. */
  lemma InsertNext(keys: seq<int>, order: seq<int>, j: int, descending: bool)
    requires 0 <= j < |keys| && InRange(order, j) && SortedBy(keys, order, descending) && Stable(keys, order)
    ensures var r := Insert(keys, order, j, descending);
      InRange(r, j + 1) && SortedBy(keys, r, descending) && Stable(keys, r)
  {
    InsertSorted(keys, order, j, descending);
    InsertStable(keys, order, j, descending);
    InsertMembers(keys, order, j, descending);
    var r := Insert(keys, order, j, descending);
    forall k | 0 <= k < |r|
      ensures 0 <= r[k] < j + 1
    {
      assert r[k] in r;
    }
  }

  /** Sorting one more index keeps the sorted list sorted and stable. */
  lemma SortOrderStep(keys: seq<int>, n: int, descending: bool)
    requires 0 < n <= |keys|
    requires var r := SortOrder(keys, n - 1, descending);
      InRange(r, n - 1) && SortedBy(keys, r, descending) && Stable(keys, r)
    ensures var r := SortOrder(keys, n, descending);
      InRange(r, n) && SortedBy(keys, r, descending) && Stable(keys, r)
  {
    InsertNext(keys, SortOrder(keys, n - 1, descending), n - 1, descending);
  }

  /**
   * The sort of Collections.sort: SortOrder(keys, n) lists indices below n
   * in key order, with ties in their original order (SortPermutes adds that
   * each index appears once; StableSortUnique adds that every other stable
   * sort of the same indices yields this very list).
   */
  lemma {:induction false} SortOrderFacts(keys: seq<int>, n: int, descending: bool)
    requires 0 <= n <= |keys|
    ensures var r := SortOrder(keys, n, descending);
      InRange(r, n) && SortedBy(keys, r, descending) && Stable(keys, r)
  {
    if n > 0 {
      SortOrderFacts(keys, n - 1, descending);
      SortOrderStep(keys, n, descending);
    }
  }

  /** Where a stable sort must put index i before index j: a key that comes first, or a tie and the smaller index. */
  predicate Earlier(keys: seq<int>, i: int, j: int, descending: bool)
    requires 0 <= i < |keys| && 0 <= j < |keys|
  {
    Precedes(keys, i, j, descending) || (keys[i] == keys[j] && i < j)
  }

  /** Every entry of order comes Earlier than every entry after it. */
  predicate Increasing(keys: seq<int>, order: seq<int>, descending: bool)
    requires InRange(order, |keys|)
  {
    forall a, b :: 0 <= a < b < |order| ==> Earlier(keys, order[a], order[b], descending)
  }

  /** A sorted, stable list of indices is Increasing: key order and, among ties, index order. */
  lemma SortedStableIncreasing(keys: seq<int>, order: seq<int>, descending: bool)
    requires InRange(order, |keys|) && SortedBy(keys, order, descending) && Stable(keys, order)
    ensures Increasing(keys, order, descending)
  {
  }

  lemma HeadMember(ys: seq<int>)
    requires ys != []
    ensures ys[0] in ys
  {
  }

  /** Two Increasing lists with the same members are the same list. */
  lemma {:induction false} IncreasingUnique(keys: seq<int>, xs: seq<int>, ys: seq<int>, descending: bool)
    requires InRange(xs, |keys|) && InRange(ys, |keys|)
    requires Increasing(keys, xs, descending) && Increasing(keys, ys, descending)
    requires forall x :: x in xs <==> x in ys
    ensures xs == ys
    decreases |xs|
  {
    if xs == [] {
      if ys != [] {
        HeadMember(ys);
        assert false;
      }
    } else {
      assert xs[0] in ys;
      assert ys != [];
      assert ys[0] in xs;
      var i :| 0 <= i < |xs| && xs[i] == ys[0];
      var j :| 0 <= j < |ys| && ys[j] == xs[0];
      // ys[0] == xs[i] and xs[0] == ys[j]: were i > 0, each would come Earlier than the other
      assert xs[0] == ys[0];
      forall x
        ensures x in xs[1..] <==> x in ys[1..]
      {
        if x in xs[1..] {
          var k :| 0 <= k < |xs[1..]| && xs[1..][k] == x;
          assert xs[k + 1] == x && Earlier(keys, xs[0], xs[k + 1], descending);
          assert x in ys;
          var m :| 0 <= m < |ys| && ys[m] == x;
          assert ys[1..][m - 1] == x;
        }
        if x in ys[1..] {
          var k :| 0 <= k < |ys[1..]| && ys[1..][k] == x;
          assert ys[k + 1] == x && Earlier(keys, ys[0], ys[k + 1], descending);
          assert x in xs;
          var m :| 0 <= m < |xs| && xs[m] == x;
          assert xs[1..][m - 1] == x;
        }
      }
      IncreasingUnique(keys, xs[1..], ys[1..], descending);
      assert xs == [xs[0]] + xs[1..] && ys == [ys[0]] + ys[1..];
    }
  }

  /** SortOrder(keys, n) holds exactly the indices below n. */
  lemma {:induction false} SortOrderMembers(keys: seq<int>, n: int, descending: bool)
    requires 0 <= n <= |keys|
    ensures forall x :: x in SortOrder(keys, n, descending) <==> 0 <= x < n
  {
    if n > 0 {
      SortOrderMembers(keys, n - 1, descending);
      InsertMembers(keys, SortOrder(keys, n - 1, descending), n - 1, descending);
    }
  }

  /**
   * A stable sort has one possible result: any list of the indices below n,
   * sorted by key with ties in index order, is SortOrder(keys, n). So
   * Collections.sort, whatever algorithm it runs, lists them as SortOrder does.
   */
  lemma StableSortUnique(keys: seq<int>, order: seq<int>, n: int, descending: bool)
    requires 0 <= n <= |keys| && InRange(order, |keys|)
    requires forall x :: x in order <==> 0 <= x < n
    requires SortedBy(keys, order, descending) && Stable(keys, order)
    ensures order == SortOrder(keys, n, descending)
  {
    var r := SortOrder(keys, n, descending);
    SortOrderFacts(keys, n, descending);
    SortOrderMembers(keys, n, descending);
    SortedStableIncreasing(keys, order, descending);
    SortedStableIncreasing(keys, r, descending);
    IncreasingUnique(keys, order, r, descending);
  }

  /** The list xs rearranged as order says: the k-th entry is xs[order[k]]. */
  function Arrange<T>(xs: seq<T>, order: seq<int>): (r: seq<T>)
    requires InRange(order, |xs|)
    ensures |r| == |order| && forall k :: 0 <= k < |order| ==> r[k] == xs[order[k]]
  {
    seq(|order|, k requires 0 <= k < |order| => xs[order[k]])
  }

  lemma ArrangeCons<T>(xs: seq<T>, a: int, order: seq<int>)
    requires 0 <= a < |xs| && InRange(order, |xs|)
    ensures InRange([a] + order, |xs|)
    ensures Arrange(xs, [a] + order) == [xs[a]] + Arrange(xs, order)
  {
  }

  lemma {:induction false} ArrangeInsert<T>(xs: seq<T>, keys: seq<int>, order: seq<int>, j: int, descending: bool)
    requires |xs| == |keys| && 0 <= j < |keys| && InRange(order, |keys|)
    ensures multiset(Arrange(xs, Insert(keys, order, j, descending))) == multiset(Arrange(xs, order)) + multiset{xs[j]}
    decreases |order|
  {
    if order == [] {
      assert Arrange(xs, [j]) == [xs[j]];
    } else if Precedes(keys, j, order[0], descending) {
      ArrangeCons(xs, j, order);
    } else {
      var rest := Insert(keys, order[1..], j, descending);
      ArrangeInsert(xs, keys, order[1..], j, descending);
      ArrangeCons(xs, order[0], order[1..]);
      ArrangeCons(xs, order[0], rest);
      assert order == [order[0]] + order[1..];
    }
  }

  /** Sorting one more entry adds that entry to the sorted list. */
  lemma SortAddsOne<T>(xs: seq<T>, keys: seq<int>, n: int, descending: bool)
    requires |xs| == |keys| && 0 < n <= |keys|
    ensures multiset(Arrange(xs, SortOrder(keys, n, descending))) ==
      multiset(Arrange(xs, SortOrder(keys, n - 1, descending))) + multiset{xs[n - 1]}
  {
    ArrangeInsert(xs, keys, SortOrder(keys, n - 1, descending), n - 1, descending);
  }

  /** Sorting the first n entries of xs by keys permutes them. */
  lemma {:induction false} SortPermutes<T>(xs: seq<T>, keys: seq<int>, n: int, descending: bool)
    requires |xs| == |keys| && 0 <= n <= |keys|
    ensures multiset(Arrange(xs, SortOrder(keys, n, descending))) == multiset(xs[..n])
  {
    if n == 0 {
      assert Arrange(xs, SortOrder(keys, 0, descending)) == [];
    } else {
      SortPermutes(xs, keys, n - 1, descending);
      SortAddsOne(xs, keys, n, descending);
      assert xs[..n] == xs[..n - 1] + [xs[n - 1]];
    }
  }

  // ---------------------------------------------------------------- best-first scan

  /** v replaces the best so far: strictly greater (maximize) or strictly smaller. */
  predicate Beats(v: int, best: int, maximize: bool) {
    if maximize then v > best else v < best
  }

  /**
   * The loop of minimax and alphaBeta without its prune: walking vals, whose
   * first entry has index off, any value that beats the best so far becomes
   * the best and its index is kept; the kept index is returned.
   */
  function Scan(vals: seq<int>, off: int, maximize: bool, best: int, bestIndex: int): (r: int)
    ensures r == bestIndex || off <= r < off + |vals|
    decreases |vals|
  {
    if vals == [] then bestIndex
    else if Beats(vals[0], best, maximize) then Scan(vals[1..], off + 1, maximize, vals[0], off)
    else Scan(vals[1..], off + 1, maximize, best, bestIndex)
  }

  /**
   * r is the index a scan of vals keeps: bestIndex when no entry beats best,
   * otherwise that of the first entry that beats best and that no entry beats.
   */
  predicate KeepsFirstBest(vals: seq<int>, off: int, maximize: bool, best: int, bestIndex: int, r: int) {
    ((forall j :: 0 <= j < |vals| ==> !Beats(vals[j], best, maximize)) ==> r == bestIndex) &&
    ((exists j :: 0 <= j < |vals| && Beats(vals[j], best, maximize)) ==>
      off <= r < off + |vals| && Beats(vals[r - off], best, maximize) &&
      (forall j :: 0 <= j < |vals| ==> !Beats(vals[j], vals[r - off], maximize)) &&
      (forall j :: 0 <= j < r - off ==> Beats(vals[r - off], vals[j], maximize)))
  }

  /** Scan keeps the first best entry. */
  lemma {:induction false} ScanFirstBest(vals: seq<int>, off: int, maximize: bool, best: int, bestIndex: int)
    ensures KeepsFirstBest(vals, off, maximize, best, bestIndex, Scan(vals, off, maximize, best, bestIndex))
    decreases |vals|
  {
    if vals != [] {
      var tail := vals[1..];
      if Beats(vals[0], best, maximize) {
        ScanFirstBest(tail, off + 1, maximize, vals[0], off);
        TakeFirst(vals, off, maximize, best, bestIndex, Scan(tail, off + 1, maximize, vals[0], off));
      } else {
        ScanFirstBest(tail, off + 1, maximize, best, bestIndex);
        SkipFirst(vals, off, maximize, best, bestIndex, Scan(tail, off + 1, maximize, best, bestIndex));
      }
    }
  }

  /** A first entry that beats best becomes the best for the rest of the scan. */
  lemma TakeFirst(vals: seq<int>, off: int, maximize: bool, best: int, bestIndex: int, r: int)
    requires vals != [] && Beats(vals[0], best, maximize)
    requires KeepsFirstBest(vals[1..], off + 1, maximize, vals[0], off, r)
    ensures KeepsFirstBest(vals, off, maximize, best, bestIndex, r)
  {
    var tail := vals[1..];
    if exists j :: 0 <= j < |tail| && Beats(tail[j], vals[0], maximize) {
      forall j | 0 <= j < |vals|
        ensures !Beats(vals[j], vals[r - off], maximize)
      {
        if j > 0 { assert vals[j] == tail[j - 1]; }
      }
    } else {
      forall j | 0 <= j < |vals|
        ensures !Beats(vals[j], vals[0], maximize)
      {
        if j > 0 { assert vals[j] == tail[j - 1]; }
      }
    }
  }

  /** A first entry that does not beat best is passed over. */
  lemma SkipFirst(vals: seq<int>, off: int, maximize: bool, best: int, bestIndex: int, r: int)
    requires vals != [] && !Beats(vals[0], best, maximize)
    requires KeepsFirstBest(vals[1..], off + 1, maximize, best, bestIndex, r)
    ensures KeepsFirstBest(vals, off, maximize, best, bestIndex, r)
  {
    var tail := vals[1..];
    if exists j :: 0 <= j < |vals| && Beats(vals[j], best, maximize) {
      var j :| 0 <= j < |vals| && Beats(vals[j], best, maximize);
      assert tail[j - 1] == vals[j];
    }
  }

  /** The first index whose value is best, when scanning from a bound every value beats. */
  lemma FirstBest(vals: seq<int>, maximize: bool, bound: int)
    requires vals != [] && forall j :: 0 <= j < |vals| ==> Beats(vals[j], bound, maximize)
    ensures var k := Scan(vals, 0, maximize, bound, -1);
      0 <= k < |vals| &&
      (forall j :: 0 <= j < |vals| ==> !Beats(vals[j], vals[k], maximize)) &&
      (forall j :: 0 <= j < k ==> Beats(vals[k], vals[j], maximize))
  {
    ScanFirstBest(vals, 0, maximize, bound, -1);
    assert Beats(vals[0], bound, maximize);
  }

  /** What remains of the scan when it reaches entry i of vals with the best so far: the invariant of the loop that walks vals. */
  function ScanFrom(vals: seq<int>, i: int, maximize: bool, best: int, bestIndex: int): int
    requires 0 <= i <= |vals|
  {
    Scan(vals[i..], i, maximize, best, bestIndex)
  }

  /** One step of Scan: value, entry i of vals, either beats the best so far and replaces it, or is passed over. */
  lemma ScanStep(vals: seq<int>, i: int, value: int, maximize: bool, best: int, bestIndex: int)
    requires 0 <= i < |vals| && vals[i] == value
    ensures ScanFrom(vals, i, maximize, best, bestIndex) ==
      if Beats(value, best, maximize) then ScanFrom(vals, i + 1, maximize, value, i)
      else ScanFrom(vals, i + 1, maximize, best, bestIndex)
  {
    assert vals[i..][0] == value && vals[i..][1..] == vals[i + 1..];
  }

  /** Past the last entry the scan returns the best index so far. */
  lemma ScanEnd(vals: seq<int>, maximize: bool, best: int, bestIndex: int)
    ensures ScanFrom(vals, |vals|, maximize, best, bestIndex) == bestIndex
  {
    assert vals[|vals|..] == [];
  }
}
