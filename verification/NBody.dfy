/**
 The n-body accelerator kernel over shared memory, the host loop that feeds its output back, and
 the reference implementation, as they run: nested loops over flat arrays of four-vectors.
 */
module NBody {
  import opened Common
  import opened NBodySpec

  // ---------- four-vectors in flat memory ----------

  function Vec(a: seq<real>, at: nat): Vec4
    requires at + 4 <= |a|
  {
    Vec4(a[at], a[at + 1], a[at + 2], a[at + 3])
  }

  function At(a: seq<real>, i: nat): Vec4
    requires 4 * i + 4 <= |a|
  {
    Vec(a, 4 * i)
  }

  /** The n vectors from offset `off` on. */
  function Load(a: seq<real>, off: nat, n: nat): (v: seq<Vec4>)
    requires off + 4 * n <= |a|
    ensures |v| == n
  {
    seq(n, i requires 0 <= i < n => Vec(a, off + 4 * i))
  }

  function Component(v: Vec4, k: int): real {
    if k == 0 then v.x else if k == 1 then v.y else if k == 2 then v.z else v.w
  }

  function Flatten(v: seq<Vec4>): (a: seq<real>)
    ensures |a| == 4 * |v|
  {
    seq(4 * |v|, k requires 0 <= k < 4 * |v| => Component(v[k / 4], k % 4))
  }

  lemma FlattenAt(v: seq<Vec4>, i: nat)
    requires i < |v|
    ensures At(Flatten(v), i) == v[i]
  {
  }

  /** An array holds the vectors it flattens from. */
  lemma FlattenIs(a: seq<real>, v: seq<Vec4>)
    requires |a| == 4 * |v| && forall i :: 0 <= i < |v| ==> At(a, i) == v[i]
    ensures a == Flatten(v)
  {
    forall k | 0 <= k < |a| ensures a[k] == Flatten(v)[k] {
      var i := k / 4;
      assert At(a, i) == v[i];
    }
  }

  lemma LoadFlatten(a: seq<real>, off: nat, v: seq<Vec4>)
    requires off + 4 * |v| <= |a| && a[off..off + 4 * |v|] == Flatten(v)
    ensures Load(a, off, |v|) == v
  {
    forall i | 0 <= i < |v| ensures Vec(a, off + 4 * i) == v[i] {
      VecSlice(a, off, 4 * |v|, 4 * i);
      FlattenAt(v, i);
    }
  }

  lemma VecSlice(a: seq<real>, off: nat, count: nat, at: nat)
    requires off + count <= |a| && at + 4 <= count
    ensures Vec(a, off + at) == Vec(a[off..off + count], at)
  {
    var b := a[off..off + count];
    assert b[at] == a[off + at] && b[at + 1] == a[off + at + 1] && b[at + 2] == a[off + at + 2] && b[at + 3] == a[off + at + 3];
  }

  // ---------- the kernel ----------

  /** Blocks of `block` bodies cover body n - 1, after which the kernel stores its result, exactly when they divide n. */
  lemma LastBodyReached(n: nat, block: nat)
    requires n > 0 && block > 0
    ensures (exists jj: nat, ji: nat :: jj < n / block && ji < block && BlockIndex(jj, ji, block) == n - 1) <==> n % block == 0
  {
    var q := n / block;
    assert n == q * block + n % block;
    if n % block == 0 {
      var jj: nat, ji: nat := q - 1, block - 1;
      assert BlockIndex(jj, ji, block) == n - 1 by { assert (q - 1) * block == q * block - block; }
    }
    if jj: nat, ji: nat :| jj < q && ji < block && BlockIndex(jj, ji, block) == n - 1 {
      Distinguish(jj, q - 1, block);
    }
  }

  function BlockIndex(jj: nat, ji: nat, block: nat): nat {
    jj * block + ji
  }

  lemma Distinguish(a: int, b: int, m: nat)
    requires a <= b
    ensures a * m <= b * m
  {
  }

  method Interact(c: Constants, ipos: Vec4, jpos: Vec4, force: Vec4) returns (force': Vec4)
    requires c.Ok()
    ensures force' == Add(force, Gravity(c)(ipos, jpos))
    ensures var r := c.sqrt(Separation(c, ipos, jpos));
      && Attracts(force'.x - force.x, ipos.x, jpos.x, jpos.w, r * r * r)
      && Attracts(force'.y - force.y, ipos.y, jpos.y, jpos.w, r * r * r)
      && Attracts(force'.z - force.z, ipos.z, jpos.z, jpos.w, r * r * r)
      && force'.w == force.w
  {
    ghost var r := c.sqrt(Separation(c, ipos, jpos));
    GravityIs(c, ipos, jpos, r, r * r * r);
    var d := Direction(ipos, jpos);
    var dist := Distance(c, d);
    var coeff := jpos.w / Cube(dist);
    force' := Add(force, Scale(d, coeff));
  }

  method Read4(a: array<real>, i: nat) returns (v: Vec4)
    requires 4 * i + 4 <= a.Length
    ensures v == At(a[..], i)
  {
    v := Vec4(a[4 * i], a[4 * i + 1], a[4 * i + 2], a[4 * i + 3]);
  }

  method Write4(a: array<real>, i: nat, v: Vec4)
    requires 4 * i + 4 <= a.Length
    modifies a
    ensures At(a[..], i) == v
    ensures forall k: nat :: 4 * k + 4 <= a.Length && k != i ==> At(a[..], k) == old(At(a[..], k))
  {
    a[4 * i], a[4 * i + 1], a[4 * i + 2], a[4 * i + 3] := v.x, v.y, v.z, v.w;
  }

  method Copy(source: array<real>, from: nat, target: array<real>, to: nat, count: nat)
    requires from + count <= source.Length && to + count <= target.Length && source != target
    modifies target
    ensures target[..] == Blit(old(target[..]), to, source[from..from + count])
  {
    forall k | 0 <= k < count {
      target[to + k] := source[from + k];
    }
  }

  /** What the kernel has for body b once it has met the first `met` bodies. */
  ghost predicate Met(c: Constants, s: System, b: nat, met: nat, ipos: Vec4, force: Vec4)
    requires c.Ok() && b < |s.pos| && met <= |s.pos|
  {
    met > 0 ==> ipos == s.pos[b] && force == Force(Gravity(c), s.pos, s.pos[b], met)
  }

  /** Place i of the output holds the new state of body b. */
  ghost predicate Stored(c: Constants, s: System, b: nat, pos: seq<real>, vel: seq<real>, i: nat)
    requires c.Ok() && b < |s.pos| && 4 * i + 4 <= |pos| && 4 * i + 4 <= |vel|
  {
    At(pos, i) == KernelPos(Gravity(c), c.delta, s, b) && At(vel, i) == KernelVel(Gravity(c), c.delta, s, b)
  }

  /** The input arrays hold the system. */
  ghost predicate Holds(pos: seq<real>, vel: seq<real>, s: System) {
    && |pos| == |vel| == 4 * |s.pos|
    && (forall k :: 0 <= k < |s.pos| ==> At(pos, k) == s.pos[k])
    && (forall k :: 0 <= k < |s.pos| ==> At(vel, k) == s.vel[k])
  }

  /** All vectors but the one at place i are the same. */
  ghost predicate OthersSame(a: seq<real>, b: seq<real>, i: nat) {
    |a| == |b| && forall k: nat :: 4 * k + 4 <= |a| && k != i ==> At(a, k) == At(b, k)
  }

  /** The body of the two inner loops: body b meets body j; after the last one its new state is stored at place i. */
  method MeetBody(c: Constants, positionsIn: array<real>, velocitiesIn: array<real>, positionsOut: array<real>, velocitiesOut: array<real>,
                  n: nat, i: nat, b: nat, j: nat, ipos0: Vec4, force0: Vec4, ghost s: System)
    returns (ipos: Vec4, force: Vec4)
    requires c.Ok() && |s.pos| == n && j < n && b < n
    requires 4 * i + 4 <= positionsOut.Length && 4 * i + 4 <= velocitiesOut.Length
    requires positionsOut != velocitiesOut && positionsOut != positionsIn && positionsOut != velocitiesIn
    requires velocitiesOut != positionsIn && velocitiesOut != velocitiesIn
    requires Holds(positionsIn[..], velocitiesIn[..], s)
    requires Met(c, s, b, j, ipos0, force0)
    modifies positionsOut, velocitiesOut
    ensures Met(c, s, b, j + 1, ipos, force)
    ensures j < n - 1 ==> positionsOut[..] == old(positionsOut[..]) && velocitiesOut[..] == old(velocitiesOut[..])
    ensures j == n - 1 ==> Stored(c, s, b, positionsOut[..], velocitiesOut[..], i)
    ensures OthersSame(positionsOut[..], old(positionsOut[..]), i) && OthersSame(velocitiesOut[..], old(velocitiesOut[..]), i)
  {
    ipos, force := ipos0, force0;
    if j == 0 {
      ipos := Read4(positionsIn, b);
      force := ZERO;
    }
    var jpos := Read4(positionsIn, j);
    force := Interact(c, ipos, jpos, force);
    if j == n - 1 {
      var velocity := Read4(velocitiesIn, b);
      velocity := Add(velocity, Scale(force, c.delta));
      Write4(velocitiesOut, i, velocity);
      Write4(positionsOut, i, Add(ipos, Scale(velocity, c.delta)));
    }
  }

  lemma BlockBound(jj: nat, block: nat, n: nat)
    requires block > 0 && jj < n / block
    ensures jj * block + block <= n && (jj + 1) * block == jj * block + block
  {
    Distinguish(jj + 1, n / block, block);
  }

  /** The loop over j_i: body b meets the block of bodies from j0 on. */
  method MeetBlock(c: Constants, positionsIn: array<real>, velocitiesIn: array<real>, positionsOut: array<real>, velocitiesOut: array<real>,
                   n: nat, block: nat, i: nat, b: nat, j0: nat, ipos0: Vec4, force0: Vec4, ghost s: System)
    returns (ipos: Vec4, force: Vec4)
    requires c.Ok() && |s.pos| == n && b < n && block > 0 && j0 + block <= n
    requires 4 * i + 4 <= positionsOut.Length && 4 * i + 4 <= velocitiesOut.Length
    requires positionsOut != velocitiesOut && positionsOut != positionsIn && positionsOut != velocitiesIn
    requires velocitiesOut != positionsIn && velocitiesOut != velocitiesIn
    requires Holds(positionsIn[..], velocitiesIn[..], s) && Met(c, s, b, j0, ipos0, force0)
    modifies positionsOut, velocitiesOut
    ensures Met(c, s, b, j0 + block, ipos, force)
    ensures j0 + block == n ==> Stored(c, s, b, positionsOut[..], velocitiesOut[..], i)
    ensures OthersSame(positionsOut[..], old(positionsOut[..]), i) && OthersSame(velocitiesOut[..], old(velocitiesOut[..]), i)
  {
    ipos, force := ipos0, force0;
    for ji := 0 to block
      invariant Met(c, s, b, j0 + ji, ipos, force)
      invariant ji > 0 && j0 + ji == n ==> Stored(c, s, b, positionsOut[..], velocitiesOut[..], i)
      invariant OthersSame(positionsOut[..], old(positionsOut[..]), i) && OthersSame(velocitiesOut[..], old(velocitiesOut[..]), i)
    {
      ipos, force := MeetBody(c, positionsIn, velocitiesIn, positionsOut, velocitiesOut, n, i, b, j0 + ji, ipos, force, s);
    }
  }

  /** All bodies meet body b, block by block. */
  method MeetAll(c: Constants, positionsIn: array<real>, velocitiesIn: array<real>, positionsOut: array<real>, velocitiesOut: array<real>,
                 n: nat, block: nat, i: nat, b: nat, ghost s: System)
    requires c.Ok() && |s.pos| == n && b < n && block > 0
    requires 4 * i + 4 <= positionsOut.Length && 4 * i + 4 <= velocitiesOut.Length
    requires positionsOut != velocitiesOut && positionsOut != positionsIn && positionsOut != velocitiesIn
    requires velocitiesOut != positionsIn && velocitiesOut != velocitiesIn
    requires Holds(positionsIn[..], velocitiesIn[..], s)
    modifies positionsOut, velocitiesOut
    ensures n % block == 0 ==> Stored(c, s, b, positionsOut[..], velocitiesOut[..], i)
    ensures OthersSame(positionsOut[..], old(positionsOut[..]), i) && OthersSame(velocitiesOut[..], old(velocitiesOut[..]), i)
  {
    var ipos, force := ZERO, ZERO;
    ghost var met: nat := 0;
    for jj := 0 to n / block
      invariant met == jj * block <= n && Met(c, s, b, met, ipos, force)
      invariant met == n ==> Stored(c, s, b, positionsOut[..], velocitiesOut[..], i)
      invariant OthersSame(positionsOut[..], old(positionsOut[..]), i) && OthersSame(velocitiesOut[..], old(velocitiesOut[..]), i)
    {
      BlockBound(jj, block, n);
      ipos, force := MeetBlock(c, positionsIn, velocitiesIn, positionsOut, velocitiesOut, n, block, i, b, jj * block, ipos, force, s);
      met := met + block;
    }
    assert n % block == 0 ==> n / block * block == n;
  }

  ghost predicate StoredAt(c: Constants, s: System, base: nat, k: nat, pos: seq<real>, vel: seq<real>)
    requires c.Ok() && base + k < |s.pos| && 4 * k + 4 <= |pos| && 4 * k + 4 <= |vel|
  {
    Stored(c, s, base + k, pos, vel, k)
  }

  /** The outer loop: the new states of the bodies from `base` on. */
  method RunGroup(c: Constants, positionsIn: array<real>, velocitiesIn: array<real>, positionsOut: array<real>, velocitiesOut: array<real>,
                  n: nat, group: nat, block: nat, base: nat, ghost s: System)
    requires c.Ok() && |s.pos| == n && block > 0 && base + group <= n
    requires positionsOut.Length == 4 * group == velocitiesOut.Length
    requires positionsOut != velocitiesOut && positionsOut != positionsIn && positionsOut != velocitiesIn
    requires velocitiesOut != positionsIn && velocitiesOut != velocitiesIn
    requires Holds(positionsIn[..], velocitiesIn[..], s)
    modifies positionsOut, velocitiesOut
    ensures n % block == 0 ==>
              var t := KernelStep(Gravity(c), c.delta, s);
              positionsOut[..] == Flatten(t.pos[base..base + group]) && velocitiesOut[..] == Flatten(t.vel[base..base + group])
  {
    for i := 0 to group
      invariant n % block == 0 ==> forall k :: 0 <= k < i ==> StoredAt(c, s, base, k, positionsOut[..], velocitiesOut[..])
    {
      ghost var p, v := positionsOut[..], velocitiesOut[..];
      MeetAll(c, positionsIn, velocitiesIn, positionsOut, velocitiesOut, n, block, i, i + base, s);
      if n % block == 0 { StoredStays(c, s, base, i, p, v, positionsOut[..], velocitiesOut[..]); }
    }
    if n % block == 0 { AllStored(c, s, base, group, positionsOut[..], velocitiesOut[..]); }
  }

  /**
   The kernel for group `index` of the bodies.  Its output arrays are as uninitialised as the
   source's; they hold the new states of the group's bodies when blocks divide the bodies.
   */
  method Run(c: Constants, memory: array<real>, positionsInOffset: nat, positionsOutOffset: nat,
             velocitiesInOffset: nat, velocitiesOutOffset: nat, index: nat, n: nat, group: nat, block: nat)
    requires c.Ok() && block > 0 && index * group + group <= n
    requires positionsInOffset + 4 * n <= memory.Length && velocitiesInOffset + 4 * n <= memory.Length
    requires positionsOutOffset + 4 * group <= memory.Length && velocitiesOutOffset + 4 * group <= memory.Length
    modifies memory
    ensures n % block == 0 ==>
              memory[..] == Stepped(c, old(memory[..]), positionsInOffset, positionsOutOffset, velocitiesInOffset, velocitiesOutOffset,
                                    index * group, n, group)
  {
    var positionsOut, velocitiesOut := Compute(c, memory, positionsInOffset, velocitiesInOffset, index * group, n, group, block);
    CopyBoth(positionsOut, velocitiesOut, memory, positionsOutOffset, velocitiesOutOffset);
  }

  method CopyBoth(p: array<real>, v: array<real>, memory: array<real>, pOff: nat, vOff: nat)
    requires p != memory && v != memory && pOff + p.Length <= memory.Length && vOff + v.Length <= memory.Length
    modifies memory
    ensures memory[..] == Blit(Blit(old(memory[..]), pOff, p[..]), vOff, v[..])
  {
    assert p[0..p.Length] == p[..] && v[0..v.Length] == v[..];
    Copy(p, 0, memory, pOff, p.Length);
    Copy(v, 0, memory, vOff, v.Length);
  }

  method Compute(c: Constants, memory: array<real>, positionsInOffset: nat, velocitiesInOffset: nat, base: nat, n: nat, group: nat, block: nat)
    returns (positionsOut: array<real>, velocitiesOut: array<real>)
    requires c.Ok() && block > 0 && base + group <= n
    requires positionsInOffset + 4 * n <= memory.Length && velocitiesInOffset + 4 * n <= memory.Length
    ensures fresh(positionsOut) && fresh(velocitiesOut) && positionsOut != velocitiesOut
    ensures positionsOut.Length == 4 * group == velocitiesOut.Length
    ensures n % block == 0 ==>
              var t := KernelStep(Gravity(c), c.delta, InMemory(memory[..], positionsInOffset, velocitiesInOffset, n));
              positionsOut[..] == Flatten(t.pos[base..base + group]) && velocitiesOut[..] == Flatten(t.vel[base..base + group])
  {
    ghost var before := memory[..];
    var positionsIn, velocitiesIn := new real[4 * n], new real[4 * n];
    positionsOut, velocitiesOut := new real[4 * group], new real[4 * group];
    Copy(memory, positionsInOffset, positionsIn, 0, 4 * n);
    Copy(memory, velocitiesInOffset, velocitiesIn, 0, 4 * n);
    CopiedHolds(before, positionsInOffset, velocitiesInOffset, positionsIn[..], velocitiesIn[..], n);
    RunGroup(c, positionsIn, velocitiesIn, positionsOut, velocitiesOut, n, group, block, base,
             InMemory(before, positionsInOffset, velocitiesInOffset, n));
  }

  /** Memory after a kernel call: the new positions and velocities of the group lie at the output offsets, the rest is untouched. */
  function Stepped(c: Constants, mem: seq<real>, pIn: nat, pOut: nat, vIn: nat, vOut: nat, base: nat, n: nat, group: nat): (r: seq<real>)
    requires c.Ok() && base + group <= n && pIn + 4 * n <= |mem| && vIn + 4 * n <= |mem|
    requires pOut + 4 * group <= |mem| && vOut + 4 * group <= |mem|
    ensures |r| == |mem|
  {
    var t := KernelStep(Gravity(c), c.delta, InMemory(mem, pIn, vIn, n));
    Blit(Blit(mem, pOut, Flatten(t.pos[base..base + group])), vOut, Flatten(t.vel[base..base + group]))
  }

  /** The system whose positions and velocities lie at these offsets: x, y, z and mass of each body side by side. */
  function InMemory(mem: seq<real>, pOff: nat, vOff: nat, n: nat): (s: System)
    requires pOff + 4 * n <= |mem| && vOff + 4 * n <= |mem|
    ensures |s.pos| == n
    ensures forall i: nat :: i < n ==>
      s.pos[i] == Vec4(mem[pOff + 4 * i], mem[pOff + 4 * i + 1], mem[pOff + 4 * i + 2], mem[pOff + 4 * i + 3])
    ensures forall i: nat :: i < n ==>
      s.vel[i] == Vec4(mem[vOff + 4 * i], mem[vOff + 4 * i + 1], mem[vOff + 4 * i + 2], mem[vOff + 4 * i + 3])
  {
    Bodies(Load(mem, pOff, n), Load(mem, vOff, n))
  }

  lemma CopiedHolds(mem: seq<real>, pOff: nat, vOff: nat, p: seq<real>, v: seq<real>, n: nat)
    requires pOff + 4 * n <= |mem| && vOff + 4 * n <= |mem| && |p| == |v| == 4 * n
    requires p == mem[pOff..pOff + 4 * n] && v == mem[vOff..vOff + 4 * n]
    ensures Holds(p, v, InMemory(mem, pOff, vOff, n))
  {
    var s := InMemory(mem, pOff, vOff, n);
    forall k | 0 <= k < n ensures At(p, k) == s.pos[k] && At(v, k) == s.vel[k] {
      VecSlice(mem, pOff, 4 * n, 4 * k);
      VecSlice(mem, vOff, 4 * n, 4 * k);
    }
  }

  lemma StoredStays(c: Constants, s: System, base: nat, i: nat, p: seq<real>, v: seq<real>, p': seq<real>, v': seq<real>)
    requires c.Ok() && base + i < |s.pos| && |p| == |v| && 4 * i + 4 <= |p|
    requires forall k :: 0 <= k < i ==> StoredAt(c, s, base, k, p, v)
    requires OthersSame(p', p, i) && OthersSame(v', v, i) && Stored(c, s, base + i, p', v', i)
    ensures forall k :: 0 <= k < i + 1 ==> StoredAt(c, s, base, k, p', v')
  {
    forall k | 0 <= k < i ensures StoredAt(c, s, base, k, p', v') {
      assert StoredAt(c, s, base, k, p, v);
      assert At(p', k) == At(p, k) && At(v', k) == At(v, k);
    }
  }

  lemma AllStored(c: Constants, s: System, base: nat, group: nat, p: seq<real>, v: seq<real>)
    requires c.Ok() && base + group <= |s.pos| && |p| == |v| == 4 * group
    requires forall k :: 0 <= k < group ==> StoredAt(c, s, base, k, p, v)
    ensures var t := KernelStep(Gravity(c), c.delta, s);
      p == Flatten(t.pos[base..base + group]) && v == Flatten(t.vel[base..base + group])
  {
    var t := KernelStep(Gravity(c), c.delta, s);
    forall k | 0 <= k < group ensures At(p, k) == t.pos[base..base + group][k] && At(v, k) == t.vel[base..base + group][k] {
      assert StoredAt(c, s, base, k, p, v);
    }
    FlattenIs(p, t.pos[base..base + group]);
    FlattenIs(v, t.vel[base..base + group]);
  }

  // ---------- the host loop ----------

  method CopyWithin(memory: array<real>, from: nat, to: nat, count: nat)
    requires from + count <= memory.Length && to + count <= memory.Length
    modifies memory
    ensures memory[..] == Blit(old(memory[..]), to, old(memory[..])[from..from + count])
  {
    forall k | 0 <= k < count {
      memory[to + k] := memory[from + k];
    }
  }

  /** The two copies at the end of the host loop. */
  method FeedBack(memory: array<real>, n: nat)
    requires memory.Length == 16 * n
    modifies memory
    ensures memory[..] == Blit(Blit(old(memory[..]), 0, old(memory[..])[4 * n..8 * n]), 8 * n, old(memory[..])[12 * n..16 * n])
  {
    ghost var a := memory[..];
    CopyWithin(memory, 4 * n, 0, 4 * n);
    ghost var b := memory[..];
    BlitOutside(a, 0, a[4 * n..8 * n], 12 * n, 16 * n);
    assert b[12 * n..16 * n] == a[12 * n..16 * n];
    CopyWithin(memory, 12 * n, 8 * n, 4 * n);
  }

  /** One turn of the host loop on memory laid out as positions in, positions out, velocities in, velocities out. */
  method Iterate(c: Constants, memory: array<real>, n: nat, block: nat)
    requires c.Ok() && block > 0 && n % block == 0 && memory.Length == 16 * n
    modifies memory
    ensures InMemory(memory[..], 0, 8 * n, n) == KernelStep(Gravity(c), c.delta, old(InMemory(memory[..], 0, 8 * n, n)))
    ensures n == 2 ==>
      var s, t := old(InMemory(memory[..], 0, 16, 2)), InMemory(memory[..], 0, 16, 2);
      Attracted(c, s, t, 0, 1) && Attracted(c, s, t, 1, 0)
  {
    ghost var before := memory[..];
    Run(c, memory, 0, 4 * n, 8 * n, 12 * n, 0, n, n, block);
    ghost var between := memory[..];
    FeedBack(memory, n);
    FedBack(c, before, between, memory[..], n);
    if n == 2 {
      TwoBodies(c, InMemory(before, 0, 16, 2), 0, 1);
      TwoBodies(c, InMemory(before, 0, 16, 2), 1, 0);
    }
  }

  lemma FedBack(c: Constants, before: seq<real>, between: seq<real>, after: seq<real>, n: nat)
    requires c.Ok() && |before| == 16 * n && between == Stepped(c, before, 0, 4 * n, 8 * n, 12 * n, 0, n, n)
    requires after == Blit(Blit(between, 0, between[4 * n..8 * n]), 8 * n, between[12 * n..16 * n])
    ensures InMemory(after, 0, 8 * n, n) == KernelStep(Gravity(c), c.delta, InMemory(before, 0, 8 * n, n))
  {
    var t := KernelStep(Gravity(c), c.delta, InMemory(before, 0, 8 * n, n));
    assert t.pos[0..n] == t.pos && t.vel[0..n] == t.vel;
    FedBackSlices(before, between, after, n, Flatten(t.pos), Flatten(t.vel));
    LoadFlatten(after, 0, t.pos);
    LoadFlatten(after, 8 * n, t.vel);
  }

  lemma FedBackSlices(before: seq<real>, between: seq<real>, after: seq<real>, n: nat, p: seq<real>, v: seq<real>)
    requires |before| == 16 * n && |p| == |v| == 4 * n
    requires between == Blit(Blit(before, 4 * n, p), 12 * n, v)
    requires after == Blit(Blit(between, 0, between[4 * n..8 * n]), 8 * n, between[12 * n..16 * n])
    ensures after[0..0 + 4 * n] == p && after[8 * n..8 * n + 4 * n] == v
  {
    BlitInside(before, 4 * n, p);
    BlitOutside(Blit(before, 4 * n, p), 12 * n, v, 4 * n, 8 * n);
    BlitInside(Blit(before, 4 * n, p), 12 * n, v);
    assert between[4 * n..8 * n] == p && between[12 * n..16 * n] == v;
    BlitInside(between, 0, p);
    BlitOutside(Blit(between, 0, p), 8 * n, v, 0, 4 * n);
    BlitInside(Blit(between, 0, p), 8 * n, v);
  }

  method Simulate(c: Constants, memory: array<real>, n: nat, block: nat, iterations: nat)
    requires c.Ok() && block > 0 && n % block == 0 && memory.Length == 16 * n
    modifies memory
    ensures InMemory(memory[..], 0, 8 * n, n) == Steps(Kernel(Gravity(c), c.delta), old(InMemory(memory[..], 0, 8 * n, n)), iterations)
  {
    for itr := 0 to iterations
      invariant InMemory(memory[..], 0, 8 * n, n) == Steps(Kernel(Gravity(c), c.delta), old(InMemory(memory[..], 0, 8 * n, n)), itr)
    {
      Iterate(c, memory, n, block);
    }
  }

  // ---------- the reference ----------

  method ReferenceForce(c: Constants, positionsIn: array<real>, i: nat, n: nat, ghost s: System) returns (force: Vec4)
    requires c.Ok() && |s.pos| == n && i < n && positionsIn.Length == 4 * n
    requires forall k :: 0 <= k < n ==> At(positionsIn[..], k) == s.pos[k]
    ensures force == Force(Gravity(c), s.pos, s.pos[i], n)
  {
    var ipos := Read4(positionsIn, i);
    force := ZERO;
    for j := 0 to n
      invariant force == Force(Gravity(c), s.pos, s.pos[i], j)
    {
      var jpos := Read4(positionsIn, j);
      force := Interact(c, ipos, jpos, force);
    }
  }

  /** One body of one iteration: its velocity changes in place, its position goes to the other buffer. */
  method ReferenceBody(c: Constants, positionsIn: array<real>, positionsOut: array<real>, velocities: array<real>, i: nat, n: nat, ghost s: System)
    requires c.Ok() && |s.pos| == n && i < n && positionsOut.Length == velocities.Length == positionsIn.Length == 4 * n
    requires positionsIn != positionsOut && positionsIn != velocities && positionsOut != velocities
    requires forall k :: 0 <= k < n ==> At(positionsIn[..], k) == s.pos[k]
    requires At(velocities[..], i) == s.vel[i]
    modifies positionsOut, velocities
    ensures At(positionsOut[..], i) == ReferencePos(Gravity(c), c.delta, s, i) && At(velocities[..], i) == ReferenceVel(Gravity(c), c.delta, s, i)
    ensures OthersSame(positionsOut[..], old(positionsOut[..]), i) && OthersSame(velocities[..], old(velocities[..]), i)
  {
    var ipos := Read4(positionsIn, i);
    var force := ReferenceForce(c, positionsIn, i, n, s);
    var velocity := Read4(velocities, i);
    var moved := Add(velocity, Scale(force, c.delta));
    Write4(velocities, i, moved.(w := velocity.w));
    Write4(positionsOut, i, Add(ipos, Scale(moved, c.delta)).(w := ipos.w));
  }

  method ReferenceIteration(c: Constants, positionsIn: array<real>, positionsOut: array<real>, velocities: array<real>, n: nat, ghost s: System)
    requires c.Ok() && |s.pos| == n && positionsOut.Length == 4 * n
    requires positionsIn != positionsOut && positionsIn != velocities && positionsOut != velocities
    requires Holds(positionsIn[..], velocities[..], s)
    modifies positionsOut, velocities
    ensures Holds(positionsOut[..], velocities[..], ReferenceStep(Gravity(c), c.delta, s))
  {
    for i := 0 to n
      invariant positionsIn[..] == old(positionsIn[..])
      invariant forall k :: 0 <= k < i ==> At(positionsOut[..], k) == ReferencePos(Gravity(c), c.delta, s, k)
      invariant forall k :: 0 <= k < i ==> At(velocities[..], k) == ReferenceVel(Gravity(c), c.delta, s, k)
      invariant forall k :: i <= k < n ==> At(velocities[..], k) == s.vel[k]
    {
      ReferenceBody(c, positionsIn, positionsOut, velocities, i, n, s);
    }
  }

  method RunReference(c: Constants, initialPositions: array<real>, initialVelocities: array<real>, n: nat, iterations: nat)
    returns (finalPositions: array<real>)
    requires c.Ok() && initialPositions.Length == 4 * n == initialVelocities.Length
    ensures var s: System := Bodies(Load(initialPositions[..], 0, n), Load(initialVelocities[..], 0, n));
      finalPositions[..] == Flatten(Steps(Reference(Gravity(c), c.delta), s, iterations).pos)
  {
    ghost var s: System := Bodies(Load(initialPositions[..], 0, n), Load(initialVelocities[..], 0, n));
    var positionsIn, positionsOut, velocities := new real[4 * n], new real[4 * n], new real[4 * n];
    Copy(initialPositions, 0, positionsIn, 0, 4 * n);
    Copy(initialVelocities, 0, velocities, 0, 4 * n);
    for itr := 0 to iterations
      invariant positionsIn.Length == 4 * n == positionsOut.Length
      invariant positionsIn != positionsOut && positionsIn != velocities && positionsOut != velocities
      invariant fresh(positionsIn) && fresh(positionsOut)
      invariant Holds(positionsIn[..], velocities[..], Steps(Reference(Gravity(c), c.delta), s, itr))
    {
      ReferenceIteration(c, positionsIn, positionsOut, velocities, n, Steps(Reference(Gravity(c), c.delta), s, itr));
      positionsIn, positionsOut := positionsOut, positionsIn;
    }
    finalPositions := positionsIn;
    FlattenIs(positionsIn[..], Steps(Reference(Gravity(c), c.delta), s, iterations).pos);
  }

  /** The accelerated simulation ends with the reference's positions, for bodies that start with no velocity in w. */
  lemma SimulationMatchesReference(c: Constants, s: System, iterations: nat)
    requires c.Ok() && Flat(s)
    ensures Steps(Kernel(Gravity(c), c.delta), s, iterations) == Steps(Reference(Gravity(c), c.delta), s, iterations)
  {
    GravityIsFlat(c);
    FlatRunAgrees(Gravity(c), c.delta, s, iterations);
  }

  /** Total momentum along every axis is conserved by the accelerated simulation. */
  lemma SimulationKeepsMomentum(c: Constants, s: System, iterations: nat, axis: Axis)
    requires c.Ok() && Flat(s)
    ensures Momentum(Steps(Kernel(Gravity(c), c.delta), s, iterations), axis) == Momentum(s, axis)
  {
    GravityIsFlat(c);
    GravityIsReciprocal(c, axis);
    StepsKeepMomentum(Gravity(c), c.delta, s, iterations, axis);
  }
}
