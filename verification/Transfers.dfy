/**
 Buffer reads, writes and copies as block transfers between memories, as the basic device performs
 them, and when two of them may be run in either order.
 */
module Transfers {
  import opened Runtime
  import opened Ordering

  function Shift(l: Location, k: int): Location {
    match l
    case Host(a) => Host(a + k)
    case Device(d, a) => Device(d, a + k)
  }

  /** The distance from base to l inside one memory. */
  predicate SameMemory(base: Location, l: Location) {
    match base
    case Host(_) => l.Host?
    case Device(d, _) => l.Device? && l.dev == d
  }

  predicate InBlock(base: Location, size: nat, l: Location) {
    SameMemory(base, l) && base.addr <= l.addr < base.addr + size
  }

  /** A memcpy of size cells between blocks of allocated memory. */
  datatype Transfer = Transfer(src: Location, dst: Location, size: nat)

  function Cell(m: Memory, l: Location): int {
    if l in m then m[l] else 0
  }

  function Apply(t: Transfer, m: Memory): (r: Memory)
    ensures r.Keys == m.Keys
  {
    map l | l in m :: if InBlock(t.dst, t.size, l) then Cell(m, Shift(t.src, l.addr - t.dst.addr)) else m[l]
  }

  ghost predicate Disjoint(a: Location, n: nat, b: Location, k: nat) {
    SameMemory(a, b) ==> a.addr + n <= b.addr || b.addr + k <= a.addr
  }

  /** Neither transfer writes what the other reads or writes. */
  ghost predicate Independent(t: Transfer, u: Transfer) {
    && Disjoint(t.dst, t.size, u.dst, u.size)
    && Disjoint(t.dst, t.size, u.src, u.size)
    && Disjoint(u.dst, u.size, t.src, t.size)
  }

  lemma SourceUntouched(t: Transfer, u: Transfer, m: Memory, l: Location)
    requires Disjoint(u.dst, u.size, t.src, t.size) && InBlock(t.dst, t.size, l)
    ensures Cell(Apply(u, m), Shift(t.src, l.addr - t.dst.addr)) == Cell(m, Shift(t.src, l.addr - t.dst.addr))
  {
    assert !InBlock(u.dst, u.size, Shift(t.src, l.addr - t.dst.addr));
  }

  lemma IndependentCommute(t: Transfer, u: Transfer, m: Memory)
    requires Independent(t, u)
    ensures Apply(t, Apply(u, m)) == Apply(u, Apply(t, m))
  {
    var a, b := Apply(t, Apply(u, m)), Apply(u, Apply(t, m));
    forall l | l in m ensures a[l] == b[l] {
      if InBlock(t.dst, t.size, l) {
        assert !InBlock(u.dst, u.size, l);
        SourceUntouched(t, u, m, l);
      } else if InBlock(u.dst, u.size, l) {
        SourceUntouched(u, t, m, l);
      }
    }
  }

  ghost predicate Performs(op: Memory -> Memory, t: Transfer) {
    forall m :: op(m) == Apply(t, m)
  }

  lemma PerformedCommute(f: Memory -> Memory, g: Memory -> Memory, t: Transfer, u: Transfer)
    requires Performs(f, t) && Performs(g, u) && Independent(t, u)
    ensures Commute(f, g)
  {
    forall m ensures CommuteOn(f, g, m) {
      IndependentCommute(t, u, m);
    }
  }

  /** Every command that has not run is a transfer that a wait chain leads from, or one independent of t. */
  ghost predicate OrderedOrIndependent(s: State, q: QueueId, waits: seq<EventId>, kind: Kind, op: Memory -> Memory,
                                       transfers: seq<Transfer>, t: Transfer)
    requires Valid(s) && Enabled(s, Enqueue(q, waits, kind, op)) && |transfers| == |s.nodes|
  {
    NewWaits(s, q, waits);
    forall x :: 0 <= x < |s.nodes| && s.status[x] != Complete ==>
      || Leads(s.nodes, x, WaitList(s, q, waits), |s.nodes|)
      || (Performs(s.nodes[x].op, transfers[x]) && Independent(transfers[x], t))
  }

  /** So queueing a transfer is harmless when it touches nothing that an unordered pending transfer touches. */
  lemma IndependentIsHarmless(s: State, q: QueueId, waits: seq<EventId>, kind: Kind, op: Memory -> Memory,
                              transfers: seq<Transfer>, t: Transfer)
    requires Valid(s) && Enabled(s, Enqueue(q, waits, kind, op)) && |transfers| == |s.nodes|
    requires Performs(op, t) && OrderedOrIndependent(s, q, waits, kind, op, transfers, t)
    ensures Harmless(s, Enqueue(q, waits, kind, op))
  {
    NewWaits(s, q, waits);
    forall x | 0 <= x < |s.nodes| && s.status[x] != Complete
      ensures Leads(s.nodes, x, WaitList(s, q, waits), |s.nodes|) || Commute(s.nodes[x].op, op)
    {
      if !Leads(s.nodes, x, WaitList(s, q, waits), |s.nodes|) {
        PerformedCommute(s.nodes[x].op, op, transfers[x], t);
      }
    }
  }

  // ---------- copies ----------

  /** The basic device's copy: nothing at all when both buffers are the same. */
  function CopyOp(src: Location, srcOffset: int, dst: Location, dstOffset: int, size: nat, m: Memory): Memory {
    if src == dst then m else Apply(Transfer(Shift(src, srcOffset), Shift(dst, dstOffset), size), m)
  }

  /** The cells of a memory that a block of `size` cells from `base` on does not cover. */
  ghost predicate Outside(base: Location, size: nat, l: Location) {
    forall k :: 0 <= k < size ==> Shift(base, k) != l
  }

  /** A transfer brings cell k of its source to cell k of its destination, and changes nothing else. */
  lemma TransferCells(t: Transfer, m: Memory, l: Location)
    requires l in m
    ensures forall k :: 0 <= k < t.size && l == Shift(t.dst, k) ==> Apply(t, m)[l] == Cell(m, Shift(t.src, k))
    ensures Outside(t.dst, t.size, l) ==> Apply(t, m)[l] == m[l]
  {
    if InBlock(t.dst, t.size, l) { assert Shift(t.dst, l.addr - t.dst.addr) == l; }
  }

  /** A copy changes nothing outside its destination block, and allocates and frees nothing. */
  lemma CopyStaysInside(src: Location, srcOffset: int, dst: Location, dstOffset: int, size: nat, m: Memory, l: Location)
    requires Outside(Shift(dst, dstOffset), size, l)
    ensures CopyOp(src, srcOffset, dst, dstOffset, size, m).Keys == m.Keys
    ensures l in m ==> CopyOp(src, srcOffset, dst, dstOffset, size, m)[l] == m[l]
  {
    if l in m { TransferCells(Transfer(Shift(src, srcOffset), Shift(dst, dstOffset), size), m, l); }
  }

  ghost predicate Allocated(m: Memory, base: Location, size: nat) {
    forall k :: 0 <= k < size ==> Shift(base, k) in m
  }

  /** Cell k of the destination block receives what cell k of the source block held. */
  ghost predicate CellCopied(src: Location, srcOffset: int, dst: Location, dstOffset: int, size: nat, m: Memory, k: int) {
    Cell(CopyOp(src, srcOffset, dst, dstOffset, size, m), Shift(dst, dstOffset + k)) == Cell(m, Shift(src, srcOffset + k))
  }

  ghost predicate Copies(src: Location, srcOffset: int, dst: Location, dstOffset: int, size: nat, m: Memory) {
    forall k :: 0 <= k < size ==> CellCopied(src, srcOffset, dst, dstOffset, size, m, k)
  }

  lemma ShiftTwice(l: Location, a: int, b: int)
    ensures Shift(Shift(l, a), b) == Shift(l, a + b)
  {
  }

  lemma CopyBetween(src: Location, srcOffset: int, dst: Location, dstOffset: int, size: nat, m: Memory)
    requires src != dst && Allocated(m, Shift(dst, dstOffset), size)
    ensures Copies(src, srcOffset, dst, dstOffset, size, m)
  {
    forall k | 0 <= k < size ensures CellCopied(src, srcOffset, dst, dstOffset, size, m, k) {
      var l := Shift(Shift(dst, dstOffset), k);
      ShiftTwice(dst, dstOffset, k);
      ShiftTwice(src, srcOffset, k);
      assert l in m && InBlock(Shift(dst, dstOffset), size, l);
    }
  }

  /** A copy works for every memory iff it is between two buffers, or of a block onto itself, or empty. */
  lemma CopyWorksIff(src: Location, srcOffset: int, dst: Location, dstOffset: int, size: nat)
    ensures (forall m: Memory :: Allocated(m, Shift(dst, dstOffset), size) ==> Copies(src, srcOffset, dst, dstOffset, size, m))
            <==> (src != dst || srcOffset == dstOffset || size == 0)
  {
    if src != dst {
      forall m: Memory | Allocated(m, Shift(dst, dstOffset), size) ensures Copies(src, srcOffset, dst, dstOffset, size, m) {
        CopyBetween(src, srcOffset, dst, dstOffset, size, m);
      }
    } else if srcOffset != dstOffset && size > 0 {
      var m := SkippedCopy(src, srcOffset, dstOffset, size);
      assert !CellCopied(src, srcOffset, dst, dstOffset, size, m, 0);
    }
  }

  /** A memory in which a copy inside one buffer would show: the first source cell holds 1, the destination block 0. */
  lemma SkippedCopy(base: Location, srcOffset: int, dstOffset: int, size: nat) returns (m: Memory)
    requires srcOffset != dstOffset && size > 0
    ensures Allocated(m, Shift(base, dstOffset), size)
    ensures Cell(m, Shift(base, srcOffset)) == 1 && Cell(m, Shift(base, dstOffset)) == 0
  {
    var block := set k | 0 <= k < size :: Shift(Shift(base, dstOffset), k);
    m := (map l | l in block :: 0)[Shift(base, srcOffset) := 1];
    ShiftTwice(base, dstOffset, 0);
  }
}
