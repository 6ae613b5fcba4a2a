/**
 The linked-list macros of utlist.h on nodes in the heap: append, delete, concatenate and sort,
 for singly linked lists and for doubly linked ones whose head's prev is the tail.
 The ghost sequence that goes in and comes out is the list's content in order.
 */
module Lists {
  import opened SortSpec

  ghost function At<T>(s: seq<Node<T>>, k: nat): Node?<T> {
    if k < |s| then s[k] else null
  }

  ghost predicate Distinct<T>(s: seq<Node<T>>) {
    forall i, j :: 0 <= i < j < |s| ==> s[i] != s[j]
  }

  /** next pointers follow s on the positions a to b. */
  ghost predicate Links<T>(s: seq<Node<T>>, a: nat, b: nat)
    reads s
  {
    b <= |s| && forall k :: a <= k < b ==> s[k].next == At(s, k + 1)
  }

  /** A null-terminated singly linked list with exactly the nodes s. */
  ghost predicate LL<T>(head: Node?<T>, s: seq<Node<T>>)
    reads s
  {
    head == At(s, 0) && Distinct(s) && Links(s, 0, |s|)
  }

  ghost predicate Prevs<T>(s: seq<Node<T>>)
    reads s
  {
    forall k :: 0 < k < |s| ==> s[k].prev == s[k - 1]
  }

  /** A doubly linked list: prev pointers run back, and the head's is the tail. */
  ghost predicate DL<T>(head: Node?<T>, s: seq<Node<T>>)
    reads s
  {
    LL(head, s) && Prevs(s) && (s != [] ==> s[0].prev == s[|s| - 1])
  }

  ghost predicate Apart<T>(a: seq<Node<T>>, b: seq<Node<T>>) {
    forall i, j :: 0 <= i < |a| && 0 <= j < |b| ==> a[i] != b[j]
  }

  lemma DistinctConcat<T>(a: seq<Node<T>>, b: seq<Node<T>>)
    ensures Distinct(a + b) <==> Distinct(a) && Distinct(b) && Apart(a, b)
  {
    var r := a + b;
    if Distinct(r) {
      forall i, j | 0 <= i < |a| && 0 <= j < |b| ensures a[i] != b[j] {
        assert r[i] == a[i] && r[|a| + j] == b[j];
      }
      forall i, j | 0 <= i < j < |a| ensures a[i] != a[j] {
        assert r[i] == a[i] && r[j] == a[j];
      }
      forall i, j | 0 <= i < j < |b| ensures b[i] != b[j] {
        assert r[|a| + i] == b[i] && r[|a| + j] == b[j];
      }
    }
  }

  /** Where position i of a list without position k stands in the whole list. */
  function Skip(k: nat, i: nat): nat {
    if i < k then i else i + 1
  }

  /** r is s without position k. */
  ghost predicate Skips<T>(r: seq<Node<T>>, s: seq<Node<T>>, k: nat) {
    k < |s| && |r| == |s| - 1 && forall i: nat :: i < |r| ==> r[i] == s[Skip(k, i)]
  }

  lemma TakenOut<T>(s: seq<Node<T>>, k: nat)
    requires k < |s|
    ensures Skips(s[..k] + s[k + 1..], s, k)
  {
  }

  /** All next links but that of s[k] go past it. */
  ghost predicate NextPast<T>(s: seq<Node<T>>, k: nat)
    requires k < |s|
    reads s
  {
    forall i :: 0 <= i < |s| && i != k ==> s[i].next == At(s, if i + 1 == k then k + 1 else i + 1)
  }

  lemma BypassedNext<T>(head: Node?<T>, s: seq<Node<T>>, k: nat, r: seq<Node<T>>)
    requires Skips(r, s, k) && Distinct(s) && NextPast(s, k)
    requires head == if k == 0 then At(s, 1) else s[0]
    ensures LL(head, r)
  {
    forall i: nat | i < |r| ensures r[i].next == At(r, i + 1) {
      assert r[i] == s[Skip(k, i)];
    }
    forall i: nat, j: nat | i < j < |r| ensures r[i] != r[j] {
      assert r[i] == s[Skip(k, i)] && r[j] == s[Skip(k, j)];
    }
  }

  // ---------- singly linked lists ----------

  method LLAppend<T>(head: Node?<T>, add: Node<T>, ghost s: seq<Node<T>>) returns (head': Node?<T>)
    requires LL(head, s) && add !in s
    modifies s, add
    ensures LL(head', s + [add])
  {
    add.next := null;
    head' := head;
    if head != null {
      var tmp := head;
      ghost var k := 0;
      while tmp.next != null
        invariant 0 <= k < |s| && tmp == s[k]
        decreases |s| - k
      {
        tmp := tmp.next;
        k := k + 1;
      }
      tmp.next := add;
    } else {
      head' := add;
    }
  }

  /** Deleting takes a present node out, and leaves the list alone when the node is absent. */
  method LLDelete<T>(head: Node<T>, del: Node<T>, ghost s: seq<Node<T>>) returns (head': Node?<T>)
    requires LL(head, s)
    modifies s
    ensures forall k :: 0 <= k < |s| && s[k] == del ==> LL(head', s[..k] + s[k + 1..])
    ensures del !in s ==> LL(head', s)
  {
    if head == del {
      head' := head.next;
    } else {
      head' := head;
      var tmp := head;
      ghost var k := 0;
      while tmp.next != null && tmp.next != del
        invariant 0 <= k < |s| && tmp == s[k]
        invariant forall i :: 0 <= i <= k ==> s[i] != del
        decreases |s| - k
      {
        tmp := tmp.next;
        k := k + 1;
      }
      if tmp.next != null {
        tmp.next := del.next;
      }
    }
    forall k: nat | k < |s| && s[k] == del ensures LL(head', s[..k] + s[k + 1..]) {
      TakenOut(s, k);
      BypassedNext(head', s, k, s[..k] + s[k + 1..]);
    }
  }

  lemma LinksConcat<T>(s1: seq<Node<T>>, s2: seq<Node<T>>)
    requires s1 != [] && Links(s1, 0, |s1| - 1) && s1[|s1| - 1].next == At(s2, 0) && Links(s2, 0, |s2|)
    ensures Links(s1 + s2, 0, |s1 + s2|)
  {
    var r := s1 + s2;
    forall k | 0 <= k < |r| ensures r[k].next == At(r, k + 1) {
      if k >= |s1| { assert r[k] == s2[k - |s1|]; } else { assert r[k] == s1[k]; }
    }
  }

  method LLConcat<T>(head1: Node?<T>, head2: Node?<T>, ghost s1: seq<Node<T>>, ghost s2: seq<Node<T>>) returns (head': Node?<T>)
    requires LL(head1, s1) && LL(head2, s2) && Distinct(s1 + s2)
    modifies s1
    ensures LL(head', s1 + s2)
  {
    DistinctConcat(s1, s2);
    if head1 != null {
      head' := head1;
      var tmp := head1;
      ghost var k := 0;
      while tmp.next != null
        invariant 0 <= k < |s1| && tmp == s1[k]
        decreases |s1| - k
      {
        tmp := tmp.next;
        k := k + 1;
      }
      tmp.next := head2;
      LinksConcat(s1, s2);
    } else {
      head' := head2;
      assert s1 + s2 == s2;
    }
  }

  /** clFinish's step on the lists themselves: the head of a queue moves to the end of the ready list. */
  method MoveHead<T>(root: Node<T>, ready: Node?<T>, ghost queue: seq<Node<T>>, ghost done: seq<Node<T>>)
    returns (root': Node?<T>, ready': Node?<T>)
    requires LL(root, queue) && LL(ready, done) && Distinct(queue + done)
    modifies queue, done
    ensures LL(root', queue[1..]) && LL(ready', done + [queue[0]])
    ensures Distinct(queue[1..] + (done + [queue[0]]))
  {
    DistinctConcat(queue, done);
    DistinctConcat(queue[1..], done + [queue[0]]);
    root' := LLDelete(root, root, queue);
    assert queue[..0] + queue[1..] == queue[1..];
    assert LL(ready, done);
    ready' := LLAppend(ready, root, done);
    assert LL(root', queue[1..]);
  }

  // ---------- doubly linked lists ----------

  method DLAppend<T>(head: Node?<T>, add: Node<T>, ghost s: seq<Node<T>>) returns (head': Node)
    requires DL(head, s) && add !in s
    modifies s, add
    ensures DL(head', s + [add])
  {
    if head != null {
      head' := head;
      add.prev := head.prev;
      head.prev.next := add;
      head.prev := add;
      add.next := null;
    } else {
      head' := add;
      add.prev := add;
      add.next := null;
    }
  }

  method DLPrepend<T>(head: Node?<T>, add: Node<T>, ghost s: seq<Node<T>>) returns (head': Node)
    requires DL(head, s) && add !in s
    modifies s, add
    ensures DL(head', [add] + s)
  {
    add.next := head;
    if head != null {
      add.prev := head.prev;
      head.prev := add;
    } else {
      add.prev := add;
    }
    head' := add;
  }

  method DLConcat<T>(head1: Node?<T>, head2: Node?<T>, ghost s1: seq<Node<T>>, ghost s2: seq<Node<T>>) returns (head': Node?<T>)
    requires DL(head1, s1) && DL(head2, s2) && Distinct(s1 + s2)
    modifies s1, s2
    ensures DL(head', s1 + s2)
  {
    head' := head1;
    DistinctConcat(s1, s2);
    if head2 == null {
      assert s1 + s2 == s1;
    } else if head1 == null {
      assert s1 + s2 == s2;
    }
    if head2 != null {
      if head1 != null {
        var tmp := head2.prev;
        head2.prev := head1.prev;
        head1.prev.next := head2;
        head1.prev := tmp;
        LinksConcat(s1, s2);
      } else {
        head' := head2;
      }
    }
  }

  /** The prev links go past s[k], and the head's leads to the tail. */
  ghost predicate PrevPast<T>(s: seq<Node<T>>, k: nat)
    requires k < |s|
    reads s
  {
    && (forall i :: 0 < i < |s| && i != k && (k > 0 || i > 1) ==> s[i].prev == s[if i - 1 == k then k - 1 else i - 1])
    && (|s| > 1 ==> s[if k == 0 then 1 else 0].prev == s[if k == |s| - 1 then k - 1 else |s| - 1])
  }

  lemma BypassedPrev<T>(s: seq<Node<T>>, k: nat, r: seq<Node<T>>)
    requires Skips(r, s, k) && PrevPast(s, k)
    ensures Prevs(r) && (r != [] ==> r[0].prev == r[|r| - 1])
  {
    forall i: nat | 0 < i < |r| ensures r[i].prev == r[i - 1] {
      assert r[i] == s[Skip(k, i)] && r[i - 1] == s[Skip(k, i - 1)];
    }
    if r != [] { assert r[0] == s[Skip(k, 0)] && r[|r| - 1] == s[Skip(k, |r| - 1)]; }
  }

  /** That leaves the doubly linked list without it. */
  lemma Bypassed<T>(head: Node?<T>, s: seq<Node<T>>, k: nat)
    requires k < |s| && Distinct(s) && NextPast(s, k) && PrevPast(s, k)
    requires head == if k == 0 then At(s, 1) else s[0]
    ensures DL(head, s[..k] + s[k + 1..])
  {
    TakenOut(s, k);
    BypassedNext(head, s, k, s[..k] + s[k + 1..]);
    BypassedPrev(s, k, s[..k] + s[k + 1..]);
  }

  /** A node that is no longer in the list, with the links it had when it left it from position k. */
  ghost predicate JustLeft<T>(del: Node<T>, s: seq<Node<T>>, k: nat)
    reads del
  {
    && k <= |s| && del !in s && del.next == At(s, k)
    && del.prev == if s == [] then del else if k == 0 then s[|s| - 1] else s[k - 1]
  }

  /** next pointers follow s and lead from its end back to its beginning. */
  ghost predicate Circle<T>(head: Node?<T>, s: seq<Node<T>>)
    reads s
  {
    s != [] && head == s[0] && Distinct(s) && Prevs(s) && s[0].prev == s[|s| - 1]
    && forall i :: 0 <= i < |s| ==> s[i].next == if i + 1 < |s| then s[i + 1] else s[0]
  }

  /** The links between positions b and c, whatever lies between: one next link and one prev link change. */
  ghost predicate Joins<T>(s: seq<Node<T>>, b: nat, c: nat)
    requires b < |s| && c <= |s|
    reads s
  {
    s[b].next == At(s, c) && s[if c < |s| then c else 0].prev == s[b]
  }

  /** The assignments of the third branch, del standing between positions b and c. */
  method JoinNeighbours<T>(head: Node<T>, del: Node<T>, ghost s: seq<Node<T>>, ghost b: nat, ghost c: nat)
    requires b < |s| && c <= |s| && Distinct(s) && head == s[0] && del.prev == s[b] && del.next == At(s, c) && del.prev != del
    modifies s
    ensures Joins(s, b, c)
    ensures forall i :: 0 <= i < |s| && i != b ==> s[i].next == old(s[i].next)
    ensures forall i :: 0 <= i < |s| && i != (if c < |s| then c else 0) ==> s[i].prev == old(s[i].prev)
  {
    del.prev.next := del.next;
    if del.next != null {
      del.next.prev := del.prev;
    } else {
      head.prev := del.prev;
    }
  }

  /** The third branch: neither the head nor the only node, in the list or no longer. */
  method DLBypass<T>(head: Node<T>, del: Node<T>, ghost s: seq<Node<T>>, ghost k: nat)
    requires DL(head, s) && s != [] && ((0 < k < |s| && s[k] == del) || JustLeft(del, s, k))
    modifies s
    ensures del in s ==> NextPast(s, k) && PrevPast(s, k) && del.next == old(del.next) && del.prev == old(del.prev)
    ensures del !in s && k > 0 ==> DL(head, s)
    ensures del !in s && k == 0 ==> Circle(head, s)
  {
    if del in s { assert s[k].prev == s[k - 1]; }
    JoinNeighbours(head, del, s, if del in s || k > 0 then k - 1 else |s| - 1, if del in s then k + 1 else k);
  }

  /**
   Deleting a node takes it out, wherever it stands.  Deleting it once more leaves the list alone,
   unless it had been the head of several: then the end of the list is linked back to its beginning.
   */
  method DLDelete<T>(head: Node?<T>, del: Node<T>, ghost s: seq<Node<T>>, ghost k: nat) returns (head': Node?<T>)
    requires DL(head, s) && ((k < |s| && s[k] == del) || JustLeft(del, s, k))
    modifies s
    ensures del in s ==> DL(head', s[..k] + s[k + 1..]) && JustLeft(del, s[..k] + s[k + 1..], k)
    ensures del !in s && (k > 0 || s == []) ==> DL(head', s)
    ensures del !in s && k == 0 && s != [] ==> Circle(head', s)
  {
    head' := head;
    if del in s && k > 0 { assert s[k].prev == s[k - 1]; }
    if del.prev == del {
      head' := null;
    } else if del == head {
      del.next.prev := del.prev;
      head' := del.next;
    } else {
      DLBypass(head, del, s, k);
    }
    if del in s { Bypassed(head', s, k); }
  }
}
