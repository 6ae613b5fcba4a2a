/**
 LL_SORT and DL_SORT: the bottom-up merge sort done by relinking nodes in the heap.  DL_SORT is
 LL_SORT plus the two lines that keep the prev pointers, so one body with a flag serves both.
 */
module ListSort {
  import opened SortSpec
  import opened Lists

  // ---------- merges and passes by position ----------

  /** The merge of positions i to mid and j to hi of s. */
  ghost function MergeAt<T>(cmp: (T, T) -> int, s: seq<Node<T>>, i: nat, mid: nat, j: nat, hi: nat): seq<Node<T>>
    requires i <= mid <= j <= hi <= |s|
    decreases mid - i + hi - j
  {
    if i == mid then s[j..hi]
    else if j == hi then s[i..mid]
    else if cmp(s[i].data, s[j].data) <= 0 then [s[i]] + MergeAt(cmp, s, i + 1, mid, j, hi)
    else [s[j]] + MergeAt(cmp, s, i, mid, j + 1, hi)
  }

  lemma {:induction false} MergeAtIsMerge<T>(cmp: (T, T) -> int, s: seq<Node<T>>, i: nat, mid: nat, j: nat, hi: nat)
    requires i <= mid <= j <= hi <= |s|
    ensures MergeAt(cmp, s, i, mid, j, hi) == Merge(cmp, s[i..mid], s[j..hi])
    decreases mid - i + hi - j
  {
    var a, b := s[i..mid], s[j..hi];
    if i < mid && j < hi {
      assert a[1..] == s[i + 1..mid] && b[1..] == s[j + 1..hi];
      if cmp(s[i].data, s[j].data) <= 0 {
        MergeAtIsMerge(cmp, s, i + 1, mid, j, hi);
      } else {
        MergeAtIsMerge(cmp, s, i, mid, j + 1, hi);
      }
    }
  }

  lemma MergeAtStep<T>(cmp: (T, T) -> int, s: seq<Node<T>>, i: nat, mid: nat, j: nat, hi: nat, left: bool)
    requires i <= mid <= j <= hi <= |s| && (if left then i < mid else j < hi)
    requires i < mid && j < hi ==> (left <==> cmp(s[i].data, s[j].data) <= 0)
    ensures left ==> MergeAt(cmp, s, i, mid, j, hi) == [s[i]] + MergeAt(cmp, s, i + 1, mid, j, hi)
    ensures !left ==> MergeAt(cmp, s, i, mid, j, hi) == [s[j]] + MergeAt(cmp, s, i, mid, j + 1, hi)
  {
    if left && j == hi {
      assert MergeAt(cmp, s, i + 1, mid, j, hi) == s[i + 1..mid];
    } else if !left && i == mid {
      assert MergeAt(cmp, s, i, mid, j + 1, hi) == s[j + 1..hi];
    }
  }

  /** Run ends for the merge at lo: the left run ends at Mid, the right one at Hi. */
  function Mid(lo: nat, w: nat, n: nat): nat
    requires lo <= n
  {
    lo + Min(w, n - lo)
  }

  function Hi(lo: nat, w: nat, n: nat): nat
    requires lo <= n
  {
    lo + Min(2 * w, n - lo)
  }

  /** The rest of a pass from position lo. */
  ghost function PassAt<T>(cmp: (T, T) -> int, w: nat, s: seq<Node<T>>, lo: nat): seq<Node<T>>
    requires w > 0 && lo <= |s|
    decreases |s| - lo
  {
    if lo == |s| then []
    else
      var mid, hi := Mid(lo, w, |s|), Hi(lo, w, |s|);
      MergeAt(cmp, s, lo, mid, mid, hi) + PassAt(cmp, w, s, hi)
  }

  lemma {:induction false} PassAtIsPass<T>(cmp: (T, T) -> int, w: nat, s: seq<Node<T>>, lo: nat)
    requires w > 0 && lo <= |s|
    ensures PassAt(cmp, w, s, lo) == Pass(cmp, w, s[lo..])
    decreases |s| - lo
  {
    if lo < |s| {
      var mid, hi := Mid(lo, w, |s|), Hi(lo, w, |s|);
      PassAtIsPass(cmp, w, s, hi);
      MergeAtIsMerge(cmp, s, lo, mid, mid, hi);
      PassSlice(cmp, w, s, lo, mid, hi);
    }
  }

  lemma PassSlice<T>(cmp: (T, T) -> int, w: nat, s: seq<Node<T>>, lo: nat, mid: nat, hi: nat)
    requires w > 0 && lo < |s| && mid == Mid(lo, w, |s|) && hi == Hi(lo, w, |s|)
    ensures Pass(cmp, w, s[lo..]) == Merge(cmp, s[lo..mid], s[mid..hi]) + Pass(cmp, w, s[hi..])
  {
    var rest, m, n := s[lo..], mid - lo, hi - lo;
    Slices(s, lo, mid, hi);
    assert m == Min(w, |rest|) && n == Min(2 * w, |rest|);
    assert rest[..m] == s[lo..mid] && rest[m..n] == s[mid..hi] && rest[n..] == s[hi..];
    PassStep(cmp, w, rest, m, n);
  }

  lemma Slices<X>(s: seq<X>, lo: nat, mid: nat, hi: nat)
    requires lo <= mid <= hi <= |s|
    ensures s[lo..][..mid - lo] == s[lo..mid] && s[lo..][mid - lo..hi - lo] == s[mid..hi] && s[lo..][hi - lo..] == s[hi..]
  {
  }

  lemma Assoc<X>(a: seq<X>, b: seq<X>, c: seq<X>)
    ensures (a + b) + c == a + (b + c)
  {
  }

  // ---------- the heap in the middle of a pass ----------

  type Positions<T> = map<Node<T>, int>

  /** pos gives each node of s its place in s; so the nodes of s are distinct. */
  ghost predicate Numbered<T>(s: seq<Node<T>>, pos: Positions<T>) {
    forall k :: 0 <= k < |s| ==> s[k] in pos && pos[s[k]] == k
  }

  /** The list built so far: linked up to its tail, whose next is still to be set. */
  ghost predicate Built<T>(out: seq<Node<T>>, list: Node?<T>, tail: Node?<T>, doubly: bool, pos: Positions<T>)
    reads pos.Keys
  {
    && list == At(out, 0)
    && tail == (if out == [] then null else out[|out| - 1])
    && Distinct(out)
    && (forall k :: 0 <= k < |out| ==> out[k] in pos)
    && (forall k :: 0 <= k < |out| - 1 ==> out[k].next == out[k + 1])
    && (doubly ==> forall k :: 0 < k < |out| ==> out[k].prev == out[k - 1])
  }

  /** Positions i to mid and from j on are still to be placed: linked as in s, and not in out. */
  ghost predicate Pending<T>(out: seq<Node<T>>, s: seq<Node<T>>, i: nat, mid: nat, j: nat, pos: Positions<T>)
    reads pos.Keys
  {
    && i <= mid <= j <= |s| && Numbered(s, pos)
    && (forall k :: i <= k < mid || j <= k < |s| ==> s[k].next == At(s, k + 1))
    && (forall k :: 0 <= k < |out| ==> out[k] in pos && (pos[out[k]] < i || mid <= pos[out[k]] < j))
  }

  /** e becomes the new tail. */
  method Place<T>(e: Node<T>, list: Node?<T>, tail: Node?<T>, doubly: bool, ghost out: seq<Node<T>>, ghost pos: Positions<T>)
    returns (list': Node?<T>)
    requires Built(out, list, tail, doubly, pos) && e !in out && e in pos
    modifies pos.Keys
    ensures Built(out + [e], list', e, doubly, pos)
    ensures forall n :: n in pos && n != tail ==> n.next == old(n.next)
  {
    list' := list;
    if tail != null {
      tail.next := e;
    } else {
      list' := e;
    }
    if doubly {
      e.prev := tail;
    }
  }

  /** How far a merge has come: p and q with psize and qsize stand for positions i and j of s. */
  ghost predicate Cursor<T>(p: Node?<T>, q: Node?<T>, psize: nat, qsize: nat,
                            s: seq<Node<T>>, i: nat, mid: nat, j: nat, hi: nat, insize: nat)
  {
    && i <= mid <= j <= hi == Min(mid + insize, |s|)
    && psize == mid - i && qsize == insize - (j - mid)
    && (i < mid ==> p == s[i]) && q == At(s, j)
  }

  /** Which run the next node comes from. */
  method Choose<T>(cmp: (T, T) -> int, p: Node?<T>, q: Node?<T>, psize: nat, qsize: nat,
                   ghost s: seq<Node<T>>, ghost i: nat, ghost mid: nat, ghost j: nat, ghost hi: nat, ghost insize: nat)
    returns (left: bool, ghost compares: nat)
    requires Cursor(p, q, psize, qsize, s, i, mid, j, hi, insize)
    requires psize > 0 || (qsize > 0 && q != null)
    ensures if left then i < mid else j < hi
    ensures i < mid && j < hi ==> (left <==> cmp(s[i].data, s[j].data) <= 0)
    ensures compares <= 1
  {
    compares := 0;
    if psize == 0 {
      left := false;
    } else if qsize == 0 || q == null {
      left := true;
    } else {
      compares := 1;
      left := cmp(p.data, q.data) <= 0;
    }
  }

  /** The next node of a merge, its run's cursor moved past it. */
  method Take<T>(cmp: (T, T) -> int, p: Node?<T>, q: Node?<T>, psize: nat, qsize: nat,
                 ghost s: seq<Node<T>>, ghost i: nat, ghost mid: nat, ghost j: nat, ghost hi: nat, ghost insize: nat)
    returns (e: Node<T>, p': Node?<T>, q': Node?<T>, psize': nat, qsize': nat, ghost left: bool, ghost compares: nat)
    requires Cursor(p, q, psize, qsize, s, i, mid, j, hi, insize)
    requires forall k :: i <= k < mid || j <= k < |s| ==> s[k].next == At(s, k + 1)
    requires psize > 0 || (qsize > 0 && q != null)
    ensures if left then i < mid && e == s[i] else j < hi && e == s[j]
    ensures Cursor(p', q', psize', qsize', s, if left then i + 1 else i, mid, if left then j else j + 1, hi, insize)
    ensures i < mid && j < hi ==> (left <==> cmp(s[i].data, s[j].data) <= 0)
    ensures compares <= 1
  {
    p', q', psize', qsize' := p, q, psize, qsize;
    var first;
    first, compares := Choose(cmp, p, q, psize, qsize, s, i, mid, j, hi, insize);
    if first {
      assert s[i].next == At(s, i + 1);
      e := p; p' := p.next; psize' := psize - 1;
    } else {
      assert s[j].next == At(s, j + 1);
      e := q; q' := q.next; qsize' := qsize - 1;
    }
    left := first;
  }

  /** One turn of the merge loop. */
  method MergeStep<T>(cmp: (T, T) -> int, p: Node?<T>, q: Node?<T>, psize: nat, qsize: nat, list: Node?<T>, tail: Node?<T>, doubly: bool,
                      ghost out: seq<Node<T>>, ghost s: seq<Node<T>>, ghost i: nat, ghost mid: nat, ghost j: nat, ghost hi: nat,
                      ghost insize: nat, ghost pos: Positions<T>)
    returns (e: Node<T>, p': Node?<T>, q': Node?<T>, psize': nat, qsize': nat, list': Node?<T>, ghost i': nat, ghost j': nat, ghost compares: nat)
    requires Cursor(p, q, psize, qsize, s, i, mid, j, hi, insize) && Pending(out, s, i, mid, j, pos) && Built(out, list, tail, doubly, pos)
    requires psize > 0 || (qsize > 0 && q != null)
    modifies pos.Keys
    ensures Cursor(p', q', psize', qsize', s, i', mid, j', hi, insize) && Built(out + [e], list', e, doubly, pos)
    ensures Pending(out + [e], s, i', mid, j', pos)
    ensures i <= i' && i' + j' == i + j + 1 && compares <= 1
    ensures MergeAt(cmp, s, i, mid, j, hi) == [e] + MergeAt(cmp, s, i', mid, j', hi)
  {
    ghost var left;
    e, p', q', psize', qsize', left, compares := Take(cmp, p, q, psize, qsize, s, i, mid, j, hi, insize);
    i', j' := if left then i + 1 else i, if left then j else j + 1;
    MergeAtStep(cmp, s, i, mid, j, hi, left);
    list' := Place(e, list, tail, doubly, out, pos);
  }

  /** One merge of two neighbouring runs. */
  method MergeRuns<T>(cmp: (T, T) -> int, insize: nat, p0: Node<T>, q0: Node?<T>, psize0: nat,
                      list0: Node?<T>, tail0: Node?<T>, doubly: bool,
                      ghost s: seq<Node<T>>, ghost lo: nat, ghost mid: nat, ghost hi: nat, ghost out0: seq<Node<T>>, ghost pos: Positions<T>)
    returns (q: Node?<T>, list: Node?<T>, tail: Node?<T>, ghost out: seq<Node<T>>, ghost compares: nat)
    requires Cursor(p0, q0, psize0, insize, s, lo, mid, mid, hi, insize) && lo < mid
    requires Built(out0, list0, tail0, doubly, pos) && Pending(out0, s, lo, mid, mid, pos)
    modifies pos.Keys
    ensures out == out0 + MergeAt(cmp, s, lo, mid, mid, hi)
    ensures Built(out, list, tail, doubly, pos) && Pending(out, s, hi, hi, hi, pos)
    ensures q == At(s, hi) && compares <= hi - lo
  {
    var p: Node?<T> := p0;
    q, list, tail := q0, list0, tail0;
    var psize, qsize: nat := psize0, insize;
    out, compares := out0, 0;
    ghost var i: nat, j: nat := lo, mid;
    while psize > 0 || (qsize > 0 && q != null)
      invariant Cursor(p, q, psize, qsize, s, i, mid, j, hi, insize) && lo <= i
      invariant Built(out, list, tail, doubly, pos) && Pending(out, s, i, mid, j, pos)
      invariant out + MergeAt(cmp, s, i, mid, j, hi) == out0 + MergeAt(cmp, s, lo, mid, mid, hi)
      invariant compares <= (i - lo) + (j - mid)
      decreases (mid - i) + (hi - j)
    {
      ghost var cost: nat, i': nat, j': nat;
      var e;
      ghost var rest := MergeAt(cmp, s, i, mid, j, hi);
      e, p, q, psize, qsize, list, i', j', cost := MergeStep(cmp, p, q, psize, qsize, list, tail, doubly, out, s, i, mid, j, hi, insize, pos);
      Assoc(out, [e], MergeAt(cmp, s, i', mid, j', hi));
      out, tail, i, j, compares := out + [e], e, i', j', compares + cost;
    }
    assert s[j..hi] == [];
  }

  /** Step over one run of at most insize nodes. */
  method StepOver<T>(p: Node<T>, insize: nat, ghost s: seq<Node<T>>, ghost lo: nat) returns (q: Node?<T>, psize: nat)
    requires insize > 0 && lo < |s| && p == s[lo] && Links(s, lo, |s|)
    ensures psize == Min(insize, |s| - lo) && q == At(s, lo + psize)
  {
    q, psize := p, 0;
    var i := 0;
    while i < insize
      invariant 0 <= i <= insize && psize == i && lo + i <= |s| && q == At(s, lo + i)
      invariant i < insize ==> lo + i < |s|
    {
      psize := psize + 1;
      q := q.next;
      if q == null { break; }
      i := i + 1;
    }
  }

  /** The two runs at lo are split off and merged onto the list. */
  method PassTurn<T>(cmp: (T, T) -> int, insize: nat, p: Node<T>, list: Node?<T>, tail: Node?<T>, doubly: bool,
                     ghost s: seq<Node<T>>, ghost lo: nat, ghost out: seq<Node<T>>, ghost pos: Positions<T>)
    returns (p': Node?<T>, list': Node?<T>, tail': Node?<T>, ghost hi: nat, ghost out': seq<Node<T>>, ghost compares: nat)
    requires insize > 0 && lo < |s| && p == s[lo]
    requires Built(out, list, tail, doubly, pos) && Pending(out, s, lo, lo, lo, pos)
    modifies pos.Keys
    ensures hi == Hi(lo, insize, |s|) && p' == At(s, hi) && compares <= hi - lo
    ensures Built(out', list', tail', doubly, pos) && Pending(out', s, hi, hi, hi, pos)
    ensures out' + PassAt(cmp, insize, s, hi) == out + PassAt(cmp, insize, s, lo)
  {
    var q, psize := StepOver(p, insize, s, lo);
    ghost var mid := Mid(lo, insize, |s|);
    hi := Hi(lo, insize, |s|);
    p', list', tail', out', compares := MergeRuns(cmp, insize, p, q, psize, list, tail, doubly, s, lo, mid, hi, out, pos);
    Assoc(out, MergeAt(cmp, s, lo, mid, mid, hi), PassAt(cmp, insize, s, hi));
  }

  /** All merges of a pass. */
  method MergeAll<T>(cmp: (T, T) -> int, insize: nat, head: Node<T>, doubly: bool, ghost s: seq<Node<T>>, ghost pos: Positions<T>)
    returns (list: Node?<T>, tail: Node?<T>, nmerges: nat, ghost out: seq<Node<T>>, ghost compares: nat)
    requires insize > 0 && s != [] && head == s[0] && Links(s, 0, |s|) && Numbered(s, pos)
    modifies pos.Keys
    ensures out == PassAt(cmp, insize, s, 0) && Built(out, list, tail, doubly, pos)
    ensures (nmerges <= 1 <==> |s| <= 2 * insize) && compares <= |s|
  {
    var p: Node?<T> := head;
    list, tail, nmerges, out, compares := null, null, 0, [], 0;
    ghost var lo: nat := 0;
    while p != null
      invariant lo <= |s| && p == At(s, lo) && compares <= lo
      invariant Built(out, list, tail, doubly, pos) && Pending(out, s, lo, lo, lo, pos)
      invariant out + PassAt(cmp, insize, s, lo) == PassAt(cmp, insize, s, 0)
      invariant (nmerges == 0 <==> lo == 0) && (nmerges == 1 ==> lo == Min(2 * insize, |s|)) && (nmerges > 1 ==> |s| > 2 * insize)
      decreases |s| - lo
    {
      nmerges := nmerges + 1;
      ghost var cost;
      p, list, tail, lo, out, cost := PassTurn(cmp, insize, p, list, tail, doubly, s, lo, out, pos);
      compares := compares + cost;
    }
  }

  /** The last node ends the list, and becomes the head's prev. */
  method EndPass<T>(list: Node<T>, tail: Node<T>, doubly: bool, ghost out: seq<Node<T>>, ghost pos: Positions<T>)
    requires Built(out, list, tail, doubly, pos)
    modifies pos.Keys
    ensures LL(list, out) && (doubly ==> DL(list, out))
  {
    if doubly {
      list.prev := tail;
    }
    tail.next := null;
  }

  /** One pass over the whole list. */
  method SortPass<T>(cmp: (T, T) -> int, insize: nat, head: Node<T>, doubly: bool, ghost s: seq<Node<T>>)
    returns (list: Node<T>, nmerges: nat, ghost out: seq<Node<T>>, ghost compares: nat)
    requires insize > 0 && LL(head, s)
    modifies s
    ensures out == Pass(cmp, insize, s) && LL(list, out) && (doubly ==> DL(list, out))
    ensures (nmerges <= 1 <==> |s| <= 2 * insize) && compares <= |s|
  {
    ghost var pos: Positions<T> := map k | 0 <= k < |s| :: s[k] := k;
    var list', tail;
    list', tail, nmerges, out, compares := MergeAll(cmp, insize, head, doubly, s, pos);
    PassAtIsPass(cmp, insize, s, 0);
    assert s[0..] == s;
    list := list';
    EndPass(list, tail, doubly, out, pos);
  }

  /** The outer loop is in front of a pass with runs of length w, or done: what it still has to do to s0. */
  ghost predicate Sorting<T>(cmp: (T, T) -> int, looping: bool, w: nat, out: seq<Node<T>>, s: seq<Node<T>>, npasses: nat)
  {
    && |out| == |s| > 0 && w > 0
    && (looping ==> Sort(cmp, w, out) == Sort(cmp, 1, s) && npasses + Passes(w, |s|) == Passes(1, |s|))
    && (!looping ==> out == Sort(cmp, 1, s) && npasses == Passes(1, |s|))
  }

  lemma SortingStep<T>(cmp: (T, T) -> int, w: nat, out: seq<Node<T>>, s: seq<Node<T>>, npasses: nat)
    requires w > 0 && Sorting(cmp, true, w, out, s, npasses)
    ensures Sorting(cmp, |s| > 2 * w, 2 * w, Pass(cmp, w, out), s, npasses + 1)
  {
  }

  lemma SortingStarts<T>(cmp: (T, T) -> int, s: seq<Node<T>>)
    requires s != []
    ensures Sorting(cmp, true, 1, s, s, 0)
  {
  }

  lemma SortEmpty<T>(cmp: (T, T) -> int, s: seq<Node<T>>)
    requires s == []
    ensures Sort(cmp, 1, s) == s
  {
  }

  lemma PassMembers<T>(cmp: (T, T) -> int, w: nat, out: seq<Node<T>>, s: seq<Node<T>>)
    requires w > 0 && forall k :: 0 <= k < |out| ==> out[k] in s
    ensures forall k :: 0 <= k < |out| ==> Pass(cmp, w, out)[k] in s
  {
    PassPermutes(cmp, w, out);
    var r := Pass(cmp, w, out);
    forall k | 0 <= k < |r| ensures r[k] in s { assert r[k] in multiset(r) && r[k] in multiset(out); }
  }

  /** One turn of the outer loop. */
  method SortTurn<T>(cmp: (T, T) -> int, insize: nat, list: Node<T>, doubly: bool,
                     ghost s: seq<Node<T>>, ghost out: seq<Node<T>>, ghost costs: seq<nat>)
    returns (list': Node<T>, looping: bool, ghost out': seq<Node<T>>, ghost costs': seq<nat>)
    requires insize > 0 && LL(list, out) && Sorting(cmp, true, insize, out, s, |costs|)
    requires forall k :: 0 <= k < |out| ==> out[k] in s
    requires forall k :: 0 <= k < |costs| ==> costs[k] <= |s|
    modifies s
    ensures LL(list', out') && (doubly ==> DL(list', out')) && Sorting(cmp, looping, 2 * insize, out', s, |costs'|)
    ensures looping ==> |s| > 2 * insize
    ensures costs' != [] && forall k :: 0 <= k < |costs'| ==> costs'[k] <= |s|
    ensures forall k :: 0 <= k < |out'| ==> out'[k] in s
  {
    SortingStep(cmp, insize, out, s, |costs|);
    PassMembers(cmp, insize, out, s);
    var nmerges;
    ghost var cost;
    list', nmerges, out', cost := SortPass(cmp, insize, list, doubly, out);
    looping := nmerges > 1;
    costs' := costs + [cost];
  }

  /**
   LL_SORT and DL_SORT: the list that comes out holds the nodes of Sort in order, and a doubly
   linked one has every prev pointer and head.prev again.  One cost per pass, at most |s| each.
   */
  method SortList<T>(cmp: (T, T) -> int, head: Node?<T>, doubly: bool, ghost s: seq<Node<T>>)
    returns (list: Node?<T>, ghost out: seq<Node<T>>, ghost costs: seq<nat>)
    requires LL(head, s)
    modifies s
    ensures out == Sort(cmp, 1, s) && LL(list, out) && (doubly ==> DL(list, out))
    ensures |costs| == (if s == [] then 0 else Passes(1, |s|)) && forall k :: 0 <= k < |costs| ==> costs[k] <= |s|
    ensures Sum(costs) <= Passes(1, |s|) * |s|
  {
    list, out, costs := head, s, [];
    if list != null {
      var insize: nat := 1;
      var looping := true;
      SortingStarts(cmp, s);
      while looping
        invariant insize > 0 && Sorting(cmp, looping, insize, out, s, |costs|)
        invariant LL(list, out) && list != null && (doubly && costs != [] ==> DL(list, out))
        invariant forall k :: 0 <= k < |out| ==> out[k] in s
        invariant forall k :: 0 <= k < |costs| ==> costs[k] <= |s|
        invariant !looping ==> costs != []
        decreases looping, |s| - insize
      {
        list, looping, out, costs := SortTurn(cmp, insize, list, doubly, s, out, costs);
        insize := 2 * insize;
      }
    } else {
      SortEmpty(cmp, s);
    }
    CostBound(costs, |s|);
  }

  /** The sort macros, with what the sorted order means: the same nodes, ordered, ties in their old order. */
  method SortListStably<T(!new)>(cmp: (T, T) -> int, head: Node?<T>, doubly: bool, ghost s: seq<Node<T>>)
    returns (list: Node?<T>, ghost out: seq<Node<T>>)
    requires LL(head, s) && TotalPreorder(cmp)
    modifies s
    ensures LL(list, out) && (doubly ==> DL(list, out))
    ensures multiset(out) == multiset(s) && Sorted(cmp, out)
    ensures forall x :: Ties(cmp, x, out) == Ties(cmp, x, s)
  {
    ghost var costs;
    list, out, costs := SortList(cmp, head, doubly, s);
    SortIsStableSort(cmp, s);
  }
}
