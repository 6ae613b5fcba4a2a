/**
 The bottom-up merge sort of utlist.h on sequences of nodes: what a merge, a pass and the whole
 sort produce, and that the result is sorted, stable and a permutation.
 */
module SortSpec {

  class Node<T> {
    var next: Node?<T>
    var prev: Node?<T>
    const data: T

    constructor (data: T)
      ensures this.data == data && next == null && prev == null
    {
      this.data := data;
      next, prev := null, null;
    }
  }

  /** Two sorted runs into one; on a tie the element of the left run comes first. */
  function Merge<T>(cmp: (T, T) -> int, a: seq<Node<T>>, b: seq<Node<T>>): (r: seq<Node<T>>)
    ensures |r| == |a| + |b|
    decreases |a| + |b|
  {
    if a == [] then b
    else if b == [] then a
    else if cmp(a[0].data, b[0].data) <= 0 then [a[0]] + Merge(cmp, a[1..], b)
    else [b[0]] + Merge(cmp, a, b[1..])
  }

  function Min(a: int, b: int): int {
    if a <= b then a else b
  }

  /** One pass: neighbouring runs of length w are merged. */
  function Pass<T>(cmp: (T, T) -> int, w: nat, s: seq<Node<T>>): (r: seq<Node<T>>)
    requires w > 0
    ensures |r| == |s|
    decreases |s|
  {
    if s == [] then []
    else
      var mid, hi := Min(w, |s|), Min(2 * w, |s|);
      Merge(cmp, s[..mid], s[mid..hi]) + Pass(cmp, w, s[hi..])
  }

  /** Passes of doubling run length until one merge covers everything. */
  function Sort<T>(cmp: (T, T) -> int, w: nat, s: seq<Node<T>>): seq<Node<T>>
    requires w > 0
    decreases |s| - w
  {
    if |s| <= 2 * w then Pass(cmp, w, s) else Sort(cmp, 2 * w, Pass(cmp, w, s))
  }

  function Passes(w: nat, n: nat): (r: nat)
    requires w > 0
    ensures r >= 1
    decreases n - w
  {
    if n <= 2 * w then 1 else 1 + Passes(2 * w, n)
  }

  function Sum(costs: seq<nat>): nat {
    if costs == [] then 0 else costs[0] + Sum(costs[1..])
  }

  /** Passes of at most n comparisons each: with PassesIsLog, O(n log n) comparisons for the sort. */
  lemma {:induction false} CostBound(costs: seq<nat>, n: nat)
    requires forall k :: 0 <= k < |costs| ==> costs[k] <= n
    ensures Sum(costs) <= |costs| * n
  {
    if costs != [] {
      CostBound(costs[1..], n);
      assert |costs| * n == n + |costs[1..]| * n;
    }
  }

  function Pow2(k: nat): (r: nat)
    ensures r > 0
  {
    if k == 0 then 1 else 2 * Pow2(k - 1)
  }

  /** Sorting n nodes takes the least p >= 1 with n <= 2^p passes: max(1, ceil(log2 n)). */
  lemma {:induction false} PassesIsLog(w: nat, n: nat)
    requires w > 0
    ensures n <= w * Pow2(Passes(w, n))
    ensures Passes(w, n) > 1 ==> w * Pow2(Passes(w, n) - 1) < n
    decreases n - w
  {
    if n > 2 * w {
      PassesIsLog(2 * w, n);
      var p := Passes(2 * w, n);
      assert w * Pow2(p + 1) == 2 * w * Pow2(p);
      assert w * Pow2(p) == 2 * w * Pow2(p - 1);
    } else {
      assert Pow2(1) == 2 * Pow2(0);
    }
  }

  // ---------- permutation ----------

  lemma {:induction false} MergePermutes<T>(cmp: (T, T) -> int, a: seq<Node<T>>, b: seq<Node<T>>)
    ensures multiset(Merge(cmp, a, b)) == multiset(a) + multiset(b)
    decreases |a| + |b|
  {
    if a != [] && b != [] {
      assert a == [a[0]] + a[1..] && b == [b[0]] + b[1..];
      if cmp(a[0].data, b[0].data) <= 0 {
        MergePermutes(cmp, a[1..], b);
      } else {
        MergePermutes(cmp, a, b[1..]);
      }
    }
  }

  lemma PassStep<T>(cmp: (T, T) -> int, w: nat, s: seq<Node<T>>, mid: nat, hi: nat)
    requires w > 0 && s != [] && mid == Min(w, |s|) && hi == Min(2 * w, |s|)
    ensures Pass(cmp, w, s) == Merge(cmp, s[..mid], s[mid..hi]) + Pass(cmp, w, s[hi..])
  {
  }

  lemma {:induction false} PassPermutes<T>(cmp: (T, T) -> int, w: nat, s: seq<Node<T>>)
    requires w > 0
    ensures multiset(Pass(cmp, w, s)) == multiset(s)
    decreases |s|
  {
    if s != [] {
      var mid, hi := Min(w, |s|), Min(2 * w, |s|);
      MergePermutes(cmp, s[..mid], s[mid..hi]);
      PassPermutes(cmp, w, s[hi..]);
      ThreeParts(s, mid, hi);
    }
  }

  lemma ThreeParts<T>(s: seq<Node<T>>, i: nat, j: nat)
    requires i <= j <= |s|
    ensures multiset(s) == multiset(s[..i]) + multiset(s[i..j]) + multiset(s[j..])
  {
    assert s == s[..i] + s[i..j] + s[j..];
  }

  // ---------- order ----------

  ghost predicate TotalPreorder<T(!new)>(cmp: (T, T) -> int) {
    && (forall a, b :: cmp(a, b) <= 0 || cmp(b, a) <= 0)
    && (forall a, b, c :: cmp(a, b) <= 0 && cmp(b, c) <= 0 ==> cmp(a, c) <= 0)
  }

  lemma Transitive<T(!new)>(cmp: (T, T) -> int, a: T, b: T, c: T)
    requires TotalPreorder(cmp)
    ensures cmp(a, b) <= 0 && cmp(b, c) <= 0 ==> cmp(a, c) <= 0
  {
  }

  ghost predicate Sorted<T>(cmp: (T, T) -> int, s: seq<Node<T>>) {
    forall i, j :: 0 <= i < j < |s| ==> cmp(s[i].data, s[j].data) <= 0
  }

  /** Every aligned block of w elements is sorted. */
  ghost predicate RunsSorted<T>(cmp: (T, T) -> int, w: nat, s: seq<Node<T>>)
    requires w > 0
    decreases |s|
  {
    s == [] || (Sorted(cmp, s[..Min(w, |s|)]) && RunsSorted(cmp, w, s[Min(w, |s|)..]))
  }

  ghost predicate Below<T>(cmp: (T, T) -> int, x: T, s: seq<Node<T>>) {
    forall i :: 0 <= i < |s| ==> cmp(x, s[i].data) <= 0
  }

  lemma {:induction false} MergeBelow<T>(cmp: (T, T) -> int, x: T, a: seq<Node<T>>, b: seq<Node<T>>)
    requires Below(cmp, x, a) && Below(cmp, x, b)
    ensures Below(cmp, x, Merge(cmp, a, b))
    decreases |a| + |b|
  {
    if a != [] && b != [] {
      if cmp(a[0].data, b[0].data) <= 0 { MergeBelow(cmp, x, a[1..], b); } else { MergeBelow(cmp, x, a, b[1..]); }
    }
  }

  lemma {:induction false} MergeSorts<T(!new)>(cmp: (T, T) -> int, a: seq<Node<T>>, b: seq<Node<T>>)
    requires TotalPreorder(cmp) && Sorted(cmp, a) && Sorted(cmp, b)
    ensures Sorted(cmp, Merge(cmp, a, b))
    decreases |a| + |b|
  {
    if a != [] && b != [] {
      if cmp(a[0].data, b[0].data) <= 0 {
        MergeSorts(cmp, a[1..], b);
        assert Below(cmp, a[0].data, b);
        MergeBelow(cmp, a[0].data, a[1..], b);
      } else {
        MergeSorts(cmp, a, b[1..]);
        assert cmp(b[0].data, a[0].data) <= 0;
        assert Below(cmp, b[0].data, a);
        MergeBelow(cmp, b[0].data, a, b[1..]);
      }
    }
  }

  lemma {:induction false} PassSortsRuns<T(!new)>(cmp: (T, T) -> int, w: nat, s: seq<Node<T>>)
    requires w > 0 && TotalPreorder(cmp) && RunsSorted(cmp, w, s)
    ensures RunsSorted(cmp, 2 * w, Pass(cmp, w, s))
    decreases |s|
  {
    if s != [] {
      var mid, hi := Min(w, |s|), Min(2 * w, |s|);
      SecondRun(cmp, w, s);
      MergeSorts(cmp, s[..mid], s[mid..hi]);
      PassSortsRuns(cmp, w, s[hi..]);
      var r := Pass(cmp, w, s);
      assert r[..hi] == Merge(cmp, s[..mid], s[mid..hi]) && r[hi..] == Pass(cmp, w, s[hi..]);
    }
  }

  lemma SecondRun<T>(cmp: (T, T) -> int, w: nat, s: seq<Node<T>>)
    requires w > 0 && s != [] && RunsSorted(cmp, w, s)
    ensures var mid, hi := Min(w, |s|), Min(2 * w, |s|);
      Sorted(cmp, s[mid..hi]) && RunsSorted(cmp, w, s[hi..])
  {
    var mid, hi := Min(w, |s|), Min(2 * w, |s|);
    var t := s[mid..];
    assert t[..Min(w, |t|)] == s[mid..hi] && t[Min(w, |t|)..] == s[hi..];
  }

  lemma {:induction false} SingleRuns<T>(cmp: (T, T) -> int, s: seq<Node<T>>)
    ensures RunsSorted(cmp, 1, s)
    decreases |s|
  {
    if s != [] { SingleRuns(cmp, s[1..]); }
  }

  // ---------- stability ----------

  ghost predicate Tie<T>(cmp: (T, T) -> int, x: T, e: Node<T>) {
    cmp(e.data, x) <= 0 && cmp(x, e.data) <= 0
  }

  /** The elements that tie with x, in their order. */
  ghost function Ties<T>(cmp: (T, T) -> int, x: T, s: seq<Node<T>>): seq<Node<T>> {
    if s == [] then []
    else (if Tie(cmp, x, s[0]) then [s[0]] else []) + Ties(cmp, x, s[1..])
  }

  lemma {:induction false} TiesConcat<T>(cmp: (T, T) -> int, x: T, a: seq<Node<T>>, b: seq<Node<T>>)
    ensures Ties(cmp, x, a + b) == Ties(cmp, x, a) + Ties(cmp, x, b)
    decreases |a|
  {
    if a == [] {
      assert a + b == b;
    } else {
      assert (a + b)[1..] == a[1..] + b;
      TiesConcat(cmp, x, a[1..], b);
    }
  }

  lemma TiesSplit<T>(cmp: (T, T) -> int, x: T, s: seq<Node<T>>, i: nat, j: nat)
    requires i <= j <= |s|
    ensures Ties(cmp, x, s) == Ties(cmp, x, s[..i]) + Ties(cmp, x, s[i..j]) + Ties(cmp, x, s[j..])
  {
    Joined(s, i, j);
    TiesConcat(cmp, x, s[..i], s[i..j]);
    TiesConcat(cmp, x, s[..j], s[j..]);
  }

  lemma Joined<X>(s: seq<X>, i: nat, j: nat)
    requires i <= j <= |s|
    ensures s[..i] + s[i..j] == s[..j] && s[..j] + s[j..] == s
  {
  }

  /** Nothing in a sorted run whose first element exceeds x's tie ties with x. */
  lemma {:induction false} NoTies<T(!new)>(cmp: (T, T) -> int, x: T, y: T, a: seq<Node<T>>)
    requires TotalPreorder(cmp) && cmp(y, x) <= 0 && cmp(x, y) <= 0
    requires forall i :: 0 <= i < |a| ==> cmp(a[i].data, y) > 0
    ensures Ties(cmp, x, a) == []
    decreases |a|
  {
    if a != [] {
      Transitive(cmp, a[0].data, x, y);
      NoTies(cmp, x, y, a[1..]);
    }
  }

  lemma AllExceed<T(!new)>(cmp: (T, T) -> int, x: T, y: T, a: seq<Node<T>>)
    requires TotalPreorder(cmp) && Sorted(cmp, a) && a != [] && cmp(a[0].data, y) > 0
    requires cmp(y, x) <= 0 && cmp(x, y) <= 0
    ensures Ties(cmp, x, a) == []
  {
    forall i | 0 <= i < |a| ensures cmp(a[i].data, y) > 0 {
      if i > 0 { Transitive(cmp, a[0].data, a[i].data, y); }
    }
    NoTies(cmp, x, y, a);
  }

  lemma TiesCons<T>(cmp: (T, T) -> int, x: T, e: Node<T>, s: seq<Node<T>>)
    ensures Ties(cmp, x, [e] + s) == (if Tie(cmp, x, e) then [e] else []) + Ties(cmp, x, s)
  {
    assert ([e] + s)[1..] == s;
  }

  lemma LeftStable<T>(cmp: (T, T) -> int, x: T, a: seq<Node<T>>, b: seq<Node<T>>, rest: seq<Node<T>>)
    requires a != [] && Ties(cmp, x, rest) == Ties(cmp, x, a[1..]) + Ties(cmp, x, b)
    ensures Ties(cmp, x, [a[0]] + rest) == Ties(cmp, x, a) + Ties(cmp, x, b)
  {
    TiesCons(cmp, x, a[0], rest);
  }

  /** An element of the right run goes first only if no element of the left run ties with it. */
  lemma RightStable<T>(cmp: (T, T) -> int, x: T, a: seq<Node<T>>, b: seq<Node<T>>, rest: seq<Node<T>>)
    requires b != [] && Ties(cmp, x, rest) == Ties(cmp, x, a) + Ties(cmp, x, b[1..])
    requires Tie(cmp, x, b[0]) ==> Ties(cmp, x, a) == []
    ensures Ties(cmp, x, [b[0]] + rest) == Ties(cmp, x, a) + Ties(cmp, x, b)
  {
    TiesCons(cmp, x, b[0], rest);
    PutFirst(if Tie(cmp, x, b[0]) then [b[0]] else [], Ties(cmp, x, a), Ties(cmp, x, b[1..]));
  }

  lemma PutFirst<X>(first: seq<X>, a: seq<X>, b: seq<X>)
    requires first == [] || a == []
    ensures first + (a + b) == a + (first + b)
  {
  }

  lemma {:induction false} MergeStable<T(!new)>(cmp: (T, T) -> int, x: T, a: seq<Node<T>>, b: seq<Node<T>>)
    requires TotalPreorder(cmp) && Sorted(cmp, a)
    ensures Ties(cmp, x, Merge(cmp, a, b)) == Ties(cmp, x, a) + Ties(cmp, x, b)
    decreases |a| + |b|
  {
    if a != [] && b != [] {
      if cmp(a[0].data, b[0].data) <= 0 {
        MergeStable(cmp, x, a[1..], b);
        LeftStable(cmp, x, a, b, Merge(cmp, a[1..], b));
      } else {
        MergeStable(cmp, x, a, b[1..]);
        if Tie(cmp, x, b[0]) { AllExceed(cmp, x, b[0].data, a); }
        RightStable(cmp, x, a, b, Merge(cmp, a, b[1..]));
      }
    }
  }

  lemma {:induction false} PassStable<T(!new)>(cmp: (T, T) -> int, w: nat, x: T, s: seq<Node<T>>)
    requires w > 0 && TotalPreorder(cmp) && RunsSorted(cmp, w, s)
    ensures Ties(cmp, x, Pass(cmp, w, s)) == Ties(cmp, x, s)
    decreases |s|
  {
    if s != [] {
      var mid, hi := Min(w, |s|), Min(2 * w, |s|);
      SecondRun(cmp, w, s);
      MergeStable(cmp, x, s[..mid], s[mid..hi]);
      PassStable(cmp, w, x, s[hi..]);
      TiesConcat(cmp, x, Merge(cmp, s[..mid], s[mid..hi]), Pass(cmp, w, s[hi..]));
      TiesSplit(cmp, x, s, mid, hi);
    }
  }

  // ---------- the sort ----------

  lemma {:induction false} SortPermutes<T>(cmp: (T, T) -> int, w: nat, s: seq<Node<T>>)
    requires w > 0
    ensures multiset(Sort(cmp, w, s)) == multiset(s)
    decreases |s| - w
  {
    PassPermutes(cmp, w, s);
    if |s| > 2 * w { SortPermutes(cmp, 2 * w, Pass(cmp, w, s)); }
  }

  lemma {:induction false} SortFromRuns<T(!new)>(cmp: (T, T) -> int, w: nat, s: seq<Node<T>>)
    requires w > 0 && TotalPreorder(cmp) && RunsSorted(cmp, w, s)
    ensures Sorted(cmp, Sort(cmp, w, s))
    ensures forall x :: Ties(cmp, x, Sort(cmp, w, s)) == Ties(cmp, x, s)
    decreases |s| - w
  {
    var r := Pass(cmp, w, s);
    PassSortsRuns(cmp, w, s);
    forall x ensures Ties(cmp, x, r) == Ties(cmp, x, s) { PassStable(cmp, w, x, s); }
    if |s| > 2 * w {
      SortFromRuns(cmp, 2 * w, r);
    } else {
      assert r[..|r|] == r;
    }
  }

  /** Sorting keeps exactly the nodes it got, for any comparison; for a total preorder it orders them stably. */
  lemma SortIsStableSort<T(!new)>(cmp: (T, T) -> int, s: seq<Node<T>>)
    ensures multiset(Sort(cmp, 1, s)) == multiset(s)
    ensures TotalPreorder(cmp) ==> Sorted(cmp, Sort(cmp, 1, s))
    ensures TotalPreorder(cmp) ==> forall x :: Ties(cmp, x, Sort(cmp, 1, s)) == Ties(cmp, x, s)
  {
    SortPermutes(cmp, 1, s);
    SingleRuns(cmp, s);
    if TotalPreorder(cmp) { SortFromRuns(cmp, 1, s); }
  }
}
