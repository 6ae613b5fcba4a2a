/**
 clEnqueueNDRangeKernel's work-group size: the search run when the caller gives no local size, the
 checks after it, and the numbering of work-items.  size_t products wrap at 2^64.
 */
module WorkGroup {
  import opened Common

  const SIZE := 0x1_0000_0000_0000_0000

  datatype Size = Size(x: int, y: int, z: int)

  ghost predicate Positive(s: Size) {
    s.x > 0 && s.y > 0 && s.z > 0
  }

  ghost predicate SizeT(s: Size) {
    Positive(s) && s.x < SIZE && s.y < SIZE && s.z < SIZE
  }

  function Volume(s: Size): int {
    s.x * s.y * s.z
  }

  /** What C computes for the volume. */
  function Wrapped(s: Size): (v: int)
    ensures 0 <= v < SIZE
  {
    Volume(s) % SIZE
  }

  ghost predicate DividesSize(l: Size, g: Size)
    requires Positive(l)
  {
    g.x % l.x == 0 && g.y % l.y == 0 && g.z % l.z == 0
  }

  // ---------- the search ----------

  /** A dimension that can be halved and stay a multiple of the preferred size. */
  predicate Halvable(n: int, p: int)
    requires p > 0
  {
    n > 1 && n % 2 == 0 && n / 2 % p == 0
  }

  predicate Ragged(n: int, p: int)
    requires p > 0
  {
    n > 1 && n % p != 0
  }

  /** One split: halve the first halvable dimension; else drop a ragged z or y; else drop from z down. */
  function Split(l: Size, p: int): Size
    requires p > 0
  {
    if Halvable(l.x, p) then l.(x := l.x / 2)
    else if Halvable(l.y, p) then l.(y := l.y / 2)
    else if Halvable(l.z, p) then l.(z := l.z / 2)
    else if Ragged(l.z, p) then l.(z := 1)
    else if Ragged(l.y, p) then l.(y := 1)
    else if l.z > 1 then l.(z := 1)
    else if l.y > 1 then l.(y := 1)
    else if l.x > 1 then l.(x := 1)
    else l
  }

  function Splits(g: Size, p: int, n: nat): Size
    requires p > 0
  {
    if n == 0 then g else Split(Splits(g, p, n - 1), p)
  }

  lemma Halving(l: int, g: int)
    requires l > 0 && g > 0 && l % 2 == 0 && g % l == 0
    ensures l / 2 > 0 && g % (l / 2) == 0
  {
    var half, k := l / 2, g / l;
    assert g == k * l;
    assert g == (2 * k) * half;
    Multiple(2 * k, half);
  }

  lemma AtLeast(d: int, n: int)
    requires d >= 1 && n > 0
    ensures d * n >= n
  {
  }

  /** Quotient and remainder are unique. */
  lemma DivUnique(m: int, n: int, q: int, r: int)
    requires n > 0 && m == q * n + r && 0 <= r < n
    ensures m / n == q && m % n == r
  {
    var q', r' := m / n, m % n;
    assert m == q' * n + r';
    assert (q' - q) * n == r - r' && (q - q') * n == r' - r;
    if q' > q {
      AtLeast(q' - q, n);
    } else if q > q' {
      AtLeast(q - q', n);
    }
  }

  lemma Multiple(k: int, n: int)
    requires n > 0
    ensures (k * n) % n == 0
  {
    DivUnique(k * n, n, k, 0);
  }

  lemma SplitDivides(l: Size, g: Size, p: int)
    requires p > 0 && Positive(l) && Positive(g) && DividesSize(l, g)
    ensures Positive(Split(l, p)) && DividesSize(Split(l, p), g)
  {
    if Halvable(l.x, p) { Halving(l.x, g.x); }
    else if Halvable(l.y, p) { Halving(l.y, g.y); }
    else if Halvable(l.z, p) { Halving(l.z, g.z); }
  }

  lemma SplitShrinks(l: Size, p: int)
    requires p > 0 && Positive(l)
    ensures l != Size(1, 1, 1) ==> Split(l, p).x + Split(l, p).y + Split(l, p).z < l.x + l.y + l.z
    ensures Split(Size(1, 1, 1), p) == Size(1, 1, 1)
    ensures Split(l, p).x <= l.x && Split(l, p).y <= l.y && Split(l, p).z <= l.z
  {
  }

  lemma {:induction false} SplitsDivide(g: Size, p: int, n: nat)
    requires p > 0 && Positive(g)
    ensures Positive(Splits(g, p, n)) && DividesSize(Splits(g, p, n), g)
  {
    if n > 0 {
      SplitsDivide(g, p, n - 1);
      SplitDivides(Splits(g, p, n - 1), g, p);
    }
  }

  /** n is g halved some number of times. */
  ghost predicate HalvedFrom(n: int, g: int, p: int)
    requires p > 0
    decreases g
  {
    n == g || (Halvable(g, p) && HalvedFrom(n, g / 2, p))
  }

  lemma {:induction false} HalvedAgain(n: int, g: int, p: int)
    requires p > 0 && HalvedFrom(n, g, p) && Halvable(n, p)
    ensures HalvedFrom(n / 2, g, p)
    decreases g
  {
    if n != g { HalvedAgain(n, g / 2, p); }
  }

  lemma {:induction false} HalvedKeepsMultiple(n: int, g: int, p: int)
    requires p > 0 && HalvedFrom(n, g, p) && n != g
    ensures n % p == 0
    decreases g
  {
    if n != g / 2 { HalvedKeepsMultiple(n, g / 2, p); }
  }

  /**
   The order of the search.  A dimension is only ever halved, staying a multiple of the preferred
   size, or dropped to 1; x is halved out before y is touched and y before z.  A dimension is dropped
   when none can be halved: first a ragged z, then a ragged y, then z, then y, and x last of all.
   */
  ghost predicate InOrder(l: Size, g: Size, p: int)
    requires p > 0
  {
    && (HalvedFrom(l.x, g.x, p) || l == Size(1, 1, 1))
    && (HalvedFrom(l.y, g.y, p) || (l.y == 1 && !Halvable(l.x, p) && !Halvable(l.z, p)))
    && (HalvedFrom(l.z, g.z, p) || (l.z == 1 && !Halvable(l.x, p) && !Halvable(l.y, p)))
    && (l.y != g.y ==> !Halvable(l.x, p))
    && (l.z != g.z ==> !Halvable(l.x, p) && !Halvable(l.y, p))
    && (!HalvedFrom(l.y, g.y, p) ==> l.z == 1 || (g.y % p != 0 && l.z % p == 0))
    && (!HalvedFrom(l.z, g.z, p) && g.z % p == 0 ==> l.y == 1 || l.y % p == 0)
  }

  lemma SplitKeepsOrder(l: Size, g: Size, p: int)
    requires p > 0 && Positive(l) && InOrder(l, g, p)
    ensures InOrder(Split(l, p), g, p)
  {
    if Halvable(l.x, p) { HalvedAgain(l.x, g.x, p); }
    else if Halvable(l.y, p) { HalvedAgain(l.y, g.y, p); }
    else if Halvable(l.z, p) { HalvedAgain(l.z, g.z, p); }
    else {
      if l.y > 1 && l.y != g.y { HalvedKeepsMultiple(l.y, g.y, p); }
      if l.z > 1 && l.z != g.z { HalvedKeepsMultiple(l.z, g.z, p); }
    }
  }

  lemma {:induction false} SplitsInOrder(g: Size, p: int, n: nat)
    requires p > 0 && Positive(g)
    ensures Positive(Splits(g, p, n)) && InOrder(Splits(g, p, n), g, p)
  {
    if n > 0 {
      SplitsInOrder(g, p, n - 1);
      SplitsDivide(g, p, n - 1);
      SplitsDivide(g, p, n);
      SplitKeepsOrder(Splits(g, p, n - 1), g, p);
    }
  }

  /** l is the first size, after at least one split, whose wrapped volume fits the device. */
  ghost predicate FirstFit(l: Size, g: Size, p: int, limit: int, n: nat)
    requires p > 0
  {
    n >= 1 && l == Splits(g, p, n) && Wrapped(l) <= limit && NoneFits(g, p, limit, n)
  }

  /** One turn of the loop, its branches in the order they are written; the third ragged test repeats z. */
  method SplitOnce(l: Size, preferred: int) returns (r: Size)
    requires preferred > 0
    ensures r == Split(l, preferred)
  {
    var x, y, z := l.x, l.y, l.z;
    if x > 1 && x % 2 == 0 && x / 2 % preferred == 0 {
      x := x / 2;
    } else if y > 1 && y % 2 == 0 && y / 2 % preferred == 0 {
      y := y / 2;
    } else if z > 1 && z % 2 == 0 && z / 2 % preferred == 0 {
      z := z / 2;
    } else if z > 1 && z % preferred != 0 {
      z := 1;
    } else if y > 1 && y % preferred != 0 {
      y := 1;
    } else if z > 1 && z % preferred != 0 {
      z := 1;
    } else if z > 1 {
      z := 1;
    } else if y > 1 {
      y := 1;
    } else if x > 1 {
      x := 1;
    }
    r := Size(x, y, z);
  }

  function Extent(l: Size): int {
    l.x + l.y + l.z
  }

  ghost predicate NoneFits(g: Size, p: int, limit: int, n: nat)
    requires p > 0
  {
    forall k: nat :: 1 <= k < n ==> Wrapped(Splits(g, p, k)) > limit
  }

  lemma {:induction false} SplitsShrink(g: Size, p: int, n: nat)
    requires p > 0 && Positive(g)
    ensures Positive(Splits(g, p, n))
    ensures Splits(g, p, n) != Size(1, 1, 1) ==> Extent(Splits(g, p, n + 1)) < Extent(Splits(g, p, n))
    ensures Splits(g, p, n) == Size(1, 1, 1) ==> Splits(g, p, n + 1) == Size(1, 1, 1)
    ensures n > 0 && g != Size(1, 1, 1) ==> Extent(Splits(g, p, n)) < Extent(g)
  {
    SplitsDivide(g, p, n);
    SplitShrinks(Splits(g, p, n), p);
    if n > 0 { SplitsShrink(g, p, n - 1); }
  }

  /** What the search promises of the size it stops at. */
  ghost predicate Chosen(l: Size, g: Size, p: int, limit: int)
    requires p > 0
  {
    && Positive(l) && DividesSize(l, g) && Wrapped(l) <= limit && InOrder(l, g, p)
    && (g != Size(1, 1, 1) ==> Extent(l) < Extent(g))
  }

  lemma FirstFitIsChosen(l: Size, g: Size, p: int, limit: int, n: nat)
    requires p > 0 && Positive(g) && FirstFit(l, g, p, limit, n)
    ensures Chosen(l, g, p, limit)
  {
    SplitsShrink(g, p, n);
    SplitsDivide(g, p, n);
    SplitsInOrder(g, p, n);
  }

  lemma UnitFits(limit: int)
    requires limit >= 1
    ensures Wrapped(Size(1, 1, 1)) <= limit
  {
  }

  /** The do-while loop. */
  method FindLocalSize(g: Size, preferred: int, limit: int) returns (l: Size, ghost n: nat)
    requires SizeT(g) && preferred >= 1 && limit >= 1
    ensures FirstFit(l, g, preferred, limit, n) && Chosen(l, g, preferred, limit)
  {
    l, n := g, 0;
    var again := true;
    while again
      invariant l == Splits(g, preferred, n)
      invariant n == 0 ==> again
      invariant n > 0 ==> again == (Wrapped(l) > limit)
      invariant NoneFits(g, preferred, limit, n)
      decreases Extent(l), again
    {
      SplitsShrink(g, preferred, n);
      SplitsShrink(g, preferred, n + 1);
      UnitFits(limit);
      l := SplitOnce(l, preferred);
      n := n + 1;
      again := Wrapped(l) > limit;
    }
    FirstFitIsChosen(l, g, preferred, limit, n);
  }

  // ---------- wrap-around ----------

  lemma Grows(a: int, b: int, c: int)
    requires 0 < a <= b && c > 0
    ensures 0 < a * c <= b * c
  {
  }

  lemma VolumeMonotone(a: Size, b: Size)
    requires Positive(a) && a.x <= b.x && a.y <= b.y && a.z <= b.z
    ensures 0 < Volume(a) <= Volume(b)
  {
    Grows(a.x, b.x, a.y);
    Grows(a.y, b.y, b.x);
    Grows(a.x * a.y, b.x * b.y, a.z);
    Grows(a.z, b.z, b.x * b.y);
  }

  lemma {:induction false} SplitsFall(g: Size, p: int, m: nat, n: nat)
    requires p > 0 && Positive(g) && m <= n
    ensures 0 < Volume(Splits(g, p, n)) <= Volume(Splits(g, p, m))
    decreases n - m
  {
    SplitsDivide(g, p, n);
    if m == n {
      VolumeMonotone(Splits(g, p, n), Splits(g, p, n));
    } else {
      SplitsFall(g, p, m, n - 1);
      SplitsDivide(g, p, n - 1);
      SplitShrinks(Splits(g, p, n - 1), p);
      VolumeMonotone(Splits(g, p, n), Splits(g, p, n - 1));
    }
  }

  /** A size the loop passes over although its real volume does not even fit in 64 bits. */
  ghost predicate Overflows(g: Size, p: int, limit: int, k: nat)
    requires p > 0
  {
    Volume(Splits(g, p, k)) >= SIZE && Wrapped(Splits(g, p, k)) <= limit
  }

  lemma SmallIsExact(s: Size)
    requires 0 <= Volume(s) < SIZE
    ensures Wrapped(s) == Volume(s)
  {
  }

  /** The chosen group really fits the device iff no overflowing size on the way looks as if it fitted. */
  lemma ReallyFitsIff(l: Size, g: Size, p: int, limit: int, n: nat)
    requires p > 0 && Positive(g) && limit < SIZE && FirstFit(l, g, p, limit, n)
    ensures Volume(l) <= limit <==> forall k: nat :: k >= 1 ==> !Overflows(g, p, limit, k)
  {
    SplitsFall(g, p, n, n);
    if Volume(l) <= limit {
      forall k: nat | k >= 1 ensures !Overflows(g, p, limit, k) {
        if k < n {
          assert Wrapped(Splits(g, p, k)) > limit;
        } else {
          SplitsFall(g, p, n, k);
        }
      }
    } else {
      if Volume(l) < SIZE { SmallIsExact(l); }
      assert Overflows(g, p, limit, n);
    }
  }

  /** It always does when the size left after the first split has a volume below 2^64. */
  lemma ReallyFits(l: Size, g: Size, p: int, limit: int, n: nat)
    requires p > 0 && Positive(g) && limit < SIZE && FirstFit(l, g, p, limit, n)
    requires Volume(Split(g, p)) < SIZE
    ensures Volume(l) <= limit
  {
    assert Splits(g, p, 1) == Split(Splits(g, p, 0), p);
    SplitsFall(g, p, 1, n);
    SmallIsExact(l);
  }

  /** And fails when that volume is at least 2^64 but wraps to something the device allows. */
  lemma WrapsAtOnce(g: Size, p: int, limit: int)
    requires p > 0 && Volume(Split(g, p)) >= SIZE > limit && Wrapped(Split(g, p)) <= limit
    ensures FirstFit(Split(g, p), g, p, limit, 1)
  {
    assert Splits(g, p, 1) == Split(Splits(g, p, 0), p);
  }

  lemma FirstFitIsEarliest(l: Size, g: Size, p: int, limit: int, n: nat, k: nat)
    requires p > 0 && FirstFit(l, g, p, limit, n) && k >= 1 && Wrapped(Splits(g, p, k)) <= limit
    ensures n <= k
  {
  }

  lemma FirstFitIsUnique(l: Size, l': Size, g: Size, p: int, limit: int, n: nat, n': nat)
    requires p > 0 && FirstFit(l, g, p, limit, n) && FirstFit(l', g, p, limit, n')
    ensures l == l'
  {
    FirstFitIsEarliest(l, g, p, limit, n, n');
    FirstFitIsEarliest(l', g, p, limit, n', n);
  }

  // ---------- the checks ----------

  datatype Device = Device(maxGroup: int, maxItems: Size)

  ghost predicate IsDevice(dev: Device) {
    1 <= dev.maxGroup < SIZE && SizeT(dev.maxItems)
  }

  /** Undefined stands for the division by a zero local size. */
  datatype Outcome = Undefined | InvalidGlobalSize | InvalidGroupSize | InvalidItemSize | Accepted(groups: Size)

  predicate TooLong(l: Size, dim: int, dev: Device) {
    l.x > dev.maxItems.x || (dim > 1 && l.y > dev.maxItems.y) || (dim > 2 && l.z > dev.maxItems.z)
  }

  function Check(g: Size, l: Size, dim: int, dev: Device): Outcome {
    if Wrapped(l) > dev.maxGroup then InvalidGroupSize
    else if TooLong(l, dim, dev) then InvalidItemSize
    else if l.x == 0 || l.y == 0 || l.z == 0 then Undefined
    else if g.x % l.x != 0 || g.y % l.y != 0 || g.z % l.z != 0 then InvalidGroupSize
    else Accepted(Size(g.x / l.x, g.y / l.y, g.z / l.z))
  }

  /** Dimensions beyond work_dim count 1. */
  function Used(s: Size, dim: int): Size {
    Size(s.x, if dim > 1 then s.y else 1, if dim > 2 then s.z else 1)
  }

  /** The outcome of a launch and the local size it uses. */
  ghost predicate Launched(o: Outcome, l: Size, dim: int, global: Size, local: Option<Size>, p: int, dev: Device)
    requires p > 0
  {
    var g := Used(global, dim);
    if !Positive(g) then o == InvalidGlobalSize
    else
      && o == Check(g, l, dim, dev)
      && if local.Some? then l == Used(local.value, dim) else exists n :: FirstFit(l, g, p, dev.maxGroup, n)
  }

  /** From global and local sizes to the number of groups. */
  method Launch(dim: int, global: Size, local: Option<Size>, preferred: int, dev: Device) returns (o: Outcome, l: Size)
    requires 1 <= dim <= 3 && preferred >= 1 && IsDevice(dev)
    requires 0 <= global.x < SIZE && 0 <= global.y < SIZE && 0 <= global.z < SIZE
    ensures Launched(o, l, dim, global, local, preferred, dev)
    ensures o.Accepted? && Positive(l) ==>
      && o.groups.x * l.x == global.x
      && o.groups.y * l.y == (if dim >= 2 then global.y else 1)
      && o.groups.z * l.z == (if dim == 3 then global.z else 1)
    ensures o.Accepted? && local.None? ==> Positive(l)
    ensures o == InvalidGlobalSize <==> !Positive(Used(global, dim))
    ensures local.None? && o != InvalidGlobalSize ==> Chosen(l, Used(global, dim), preferred, dev.maxGroup)
    ensures local.None? ==> o != InvalidGroupSize && o != Undefined
    ensures local.None? && o != InvalidGlobalSize ==> (o == InvalidItemSize <==> TooLong(l, dim, dev))
  {
    var g := Used(global, dim);
    l := if local.Some? then Used(local.value, dim) else g;
    if g.x == 0 || g.y == 0 || g.z == 0 {
      o := InvalidGlobalSize;
      return;
    }
    if local.None? {
      ghost var n;
      l, n := FindLocalSize(g, preferred, dev.maxGroup);
    }
    o := Check(g, l, dim, dev);
    if o.Accepted? && Positive(l) { GroupsTile(g, l, dim, dev); }
  }

  /** The checks, in the order in which they are made: size of the group, sizes of the dimensions, divisibility. */
  lemma CheckIs(g: Size, l: Size, dim: int, dev: Device)
    ensures var o := Check(g, l, dim, dev);
      var big := l.x * l.y * l.z % 0x1_0000_0000_0000_0000 > dev.maxGroup;
      var long := l.x > dev.maxItems.x || (dim >= 2 && l.y > dev.maxItems.y) || (dim >= 3 && l.z > dev.maxItems.z);
      var zero := l.x == 0 || l.y == 0 || l.z == 0;
      && (o == InvalidItemSize <==> !big && long)
      && (o == Undefined <==> !big && !long && zero)
      && (o == InvalidGroupSize <==> big || (!long && !zero && !(g.x % l.x == 0 && g.y % l.y == 0 && g.z % l.z == 0)))
      && (o.Accepted? <==> !big && !long && !zero && g.x % l.x == 0 && g.y % l.y == 0 && g.z % l.z == 0)
  {
  }

  /**
   2^33 by 2^32 items on a device that prefers multiples of 8 and allows groups of 4096: the first
   halving leaves 2^32 by 2^32, whose volume wraps to 0, and the launch accepts a group of 2^64.
   */
  lemma OversizedGroup(o: Outcome, l: Size)
    requires Launched(o, l, 2, Size(0x2_0000_0000, 0x1_0000_0000, 1), None, 8, Device(4096, Size(SIZE - 1, SIZE - 1, SIZE - 1)))
    ensures o == Accepted(Size(2, 1, 1)) && Volume(l) == SIZE
  {
    var g, first := Size(0x2_0000_0000, 0x1_0000_0000, 1), Size(0x1_0000_0000, 0x1_0000_0000, 1);
    assert Split(g, 8) == first && Volume(first) == SIZE && Wrapped(first) == 0;
    WrapsAtOnce(g, 8, 4096);
    var n :| FirstFit(l, g, 8, 4096, n);
    FirstFitIsUnique(l, first, g, 8, 4096, n, 1);
  }

  lemma Quotient(g: int, l: int)
    requires l > 0 && g > 0 && g % l == 0
    ensures g / l > 0 && g / l * l == g
  {
  }

  /** The groups of an accepted launch tile the global range exactly, in each dimension and in number. */
  lemma GroupsTile(g: Size, l: Size, dim: int, dev: Device)
    requires Positive(g) && Positive(l) && Check(g, l, dim, dev).Accepted?
    ensures var n := Check(g, l, dim, dev).groups;
      Positive(n) && n.x * l.x == g.x && n.y * l.y == g.y && n.z * l.z == g.z
  {
    Quotient(g.x, l.x);
    Quotient(g.y, l.y);
    Quotient(g.z, l.z);
  }

  /** When the device's per-dimension limits multiply to less than 2^64, what is accepted really fits. */
  lemma ItemLimitsPreventWrap(g: Size, l: Size, dim: int, dev: Device)
    requires 1 <= dim <= 3 && Positive(g) && Positive(l) && IsDevice(dev) && l == Used(l, dim)
    requires Volume(dev.maxItems) < SIZE && Check(g, l, dim, dev).Accepted?
    ensures Volume(l) <= dev.maxGroup
  {
    VolumeMonotone(l, dev.maxItems);
    SmallIsExact(l);
  }

  // ---------- numbering ----------

  datatype Item = Item(group: Size, local: Size)

  ghost predicate Below(a: Size, b: Size) {
    0 <= a.x < b.x && 0 <= a.y < b.y && 0 <= a.z < b.z
  }

  ghost predicate InRange(pos: Size, offset: Size, g: Size) {
    && offset.x <= pos.x < offset.x + g.x && offset.y <= pos.y < offset.y + g.y && offset.z <= pos.z < offset.z + g.z
  }

  function GlobalId(item: Item, offset: Size, l: Size): Size {
    Size(offset.x + item.group.x * l.x + item.local.x,
         offset.y + item.group.y * l.y + item.local.y,
         offset.z + item.group.z * l.z + item.local.z)
  }

  function ItemAt(pos: Size, offset: Size, l: Size): Item
    requires l.x > 0 && l.y > 0 && l.z > 0
  {
    Item(Size((pos.x - offset.x) / l.x, (pos.y - offset.y) / l.y, (pos.z - offset.z) / l.z),
         Size((pos.x - offset.x) % l.x, (pos.y - offset.y) % l.y, (pos.z - offset.z) % l.z))
  }

  lemma Place(group: int, local: int, n: int, l: int, g: int)
    requires 0 <= group < n && 0 <= local < l && g == n * l
    ensures 0 <= group * l + local < g
    ensures (group * l + local) / l == group && (group * l + local) % l == local
  {
    assert (n - group) * l == g - group * l;
    AtLeast(n - group, l);
    DivUnique(group * l + local, l, group, local);
    if group > 0 { AtLeast(group, l); }
  }

  lemma Find(k: int, n: int, l: int, g: int)
    requires 0 <= k < g && l > 0 && g == n * l
    ensures 0 <= k / l < n && 0 <= k % l < l && k / l * l + k % l == k
  {
    if k / l >= n {
      assert false;
    }
  }

  /** Every work-item has its own place in the global range. */
  lemma ItemsArePlaced(item: Item, offset: Size, n: Size, l: Size, g: Size)
    requires Positive(l) && g == Size(n.x * l.x, n.y * l.y, n.z * l.z)
    requires Below(item.group, n) && Below(item.local, l)
    ensures InRange(GlobalId(item, offset, l), offset, g) && ItemAt(GlobalId(item, offset, l), offset, l) == item
  {
    Place(item.group.x, item.local.x, n.x, l.x, g.x);
    Place(item.group.y, item.local.y, n.y, l.y, g.y);
    Place(item.group.z, item.local.z, n.z, l.z, g.z);
  }

  /** Every place in the global range has its work-item. */
  lemma PlacesAreTaken(pos: Size, offset: Size, n: Size, l: Size, g: Size)
    requires Positive(l) && g == Size(n.x * l.x, n.y * l.y, n.z * l.z) && InRange(pos, offset, g)
    ensures Below(ItemAt(pos, offset, l).group, n) && Below(ItemAt(pos, offset, l).local, l)
    ensures GlobalId(ItemAt(pos, offset, l), offset, l) == pos
  {
    Find(pos.x - offset.x, n.x, l.x, g.x);
    Find(pos.y - offset.y, n.y, l.y, g.y);
    Find(pos.z - offset.z, n.z, l.z, g.z);
  }
}
