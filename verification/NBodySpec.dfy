/**
 One step of softened gravity: what the kernel computes, what the reference computes, when the
 two agree over any number of steps, and the conservation of momentum.  Exact arithmetic.
 */
module NBodySpec {
  import opened Sums

  /** A body's position with its mass in w, or its velocity. */
  datatype Vec4 = Vec4(x: real, y: real, z: real, w: real)

  const ZERO := Vec4(0.0, 0.0, 0.0, 0.0)

  function Add(a: Vec4, b: Vec4): Vec4 {
    Vec4(a.x + b.x, a.y + b.y, a.z + b.z, a.w + b.w)
  }

  function Scale(a: Vec4, t: real): Vec4 {
    Vec4(a.x * t, a.y * t, a.z * t, a.w * t)
  }

  /** SOFTENING and DELTA, with the square root that the C library supplies. */
  datatype Constants = Constants(sqrt: real -> real, softening: real, delta: real) {
    ghost predicate Ok() {
      softening != 0.0 && forall x :: x > 0.0 ==> sqrt(x) > 0.0
    }
  }

  datatype Bodies = Bodies(pos: seq<Vec4>, vel: seq<Vec4>)

  type System = b: Bodies | |b.pos| == |b.vel| witness Bodies([], [])

  // ---------- one interaction ----------

  /** From a to b; it has no fourth component. */
  function Direction(a: Vec4, b: Vec4): Vec4 {
    Vec4(b.x - a.x, b.y - a.y, b.z - a.z, 0.0)
  }

  function Product(x: real, y: real): (r: real)
    ensures (x > 0.0 && y > 0.0) || (x < 0.0 && y < 0.0) ==> r > 0.0
    ensures x == 0.0 ==> r == 0.0
  {
    x * y
  }

  function Squared(x: real): (r: real)
    ensures r >= 0.0 && (x != 0.0 ==> r > 0.0)
  {
    Product(x, x)
  }

  function SoftenedSquare(x: real, y: real, z: real, s: real): (r: real)
    ensures s != 0.0 ==> r > 0.0
  {
    Squared(x) + Squared(y) + Squared(z) + Squared(s)
  }

  /** The softened distance along d: never zero, so that a body can meet itself. */
  function Distance(c: Constants, d: Vec4): (r: real)
    requires c.Ok()
    ensures r > 0.0
  {
    c.sqrt(SoftenedSquare(d.x, d.y, d.z, c.softening))
  }

  function Cube(d: real): (r: real)
    ensures d > 0.0 ==> r > 0.0
  {
    CubePositive(d);
    d * d * d
  }

  lemma CubePositive(d: real)
    ensures d > 0.0 ==> d * d * d > 0.0
  {
    if d > 0.0 { assert d * d > 0.0; }
  }

  /** The acceleration of a body at a towards one at b. */
  function Pull(c: Constants, a: Vec4, b: Vec4): Vec4
    requires c.Ok()
  {
    var d := Direction(a, b);
    var coeff := b.w / Cube(Distance(c, d));
    Scale(d, coeff)
  }

  type Interaction = (Vec4, Vec4) -> Vec4

  function Gravity(c: Constants): Interaction
    requires c.Ok()
  {
    (a, b) => Pull(c, a, b)
  }

  // ---------- kernel and reference step, for any interaction ----------

  /** The pull of the first j bodies, added up in order. */
  function Force(f: Interaction, pos: seq<Vec4>, a: Vec4, j: nat): Vec4
    requires j <= |pos|
  {
    if j == 0 then ZERO else Add(Force(f, pos, a, j - 1), f(a, pos[j - 1]))
  }

  function KernelVel(f: Interaction, delta: real, s: System, i: nat): Vec4
    requires i < |s.pos|
  {
    Add(s.vel[i], Scale(Force(f, s.pos, s.pos[i], |s.pos|), delta))
  }

  function KernelPos(f: Interaction, delta: real, s: System, i: nat): Vec4
    requires i < |s.pos|
  {
    Add(s.pos[i], Scale(KernelVel(f, delta, s, i), delta))
  }

  function KernelStep(f: Interaction, delta: real, s: System): (t: System)
    ensures |t.pos| == |s.pos|
  {
    Bodies(seq(|s.pos|, i requires 0 <= i < |s.pos| => KernelPos(f, delta, s, i)),
           seq(|s.pos|, i requires 0 <= i < |s.pos| => KernelVel(f, delta, s, i)))
  }

  /** The reference updates three velocity components, and keeps the mass. */
  function ReferenceVel(f: Interaction, delta: real, s: System, i: nat): Vec4
    requires i < |s.pos|
  {
    KernelVel(f, delta, s, i).(w := s.vel[i].w)
  }

  function ReferencePos(f: Interaction, delta: real, s: System, i: nat): Vec4
    requires i < |s.pos|
  {
    KernelPos(f, delta, s, i).(w := s.pos[i].w)
  }

  function ReferenceStep(f: Interaction, delta: real, s: System): (t: System)
    ensures |t.pos| == |s.pos|
  {
    Bodies(seq(|s.pos|, i requires 0 <= i < |s.pos| => ReferencePos(f, delta, s, i)),
           seq(|s.pos|, i requires 0 <= i < |s.pos| => ReferenceVel(f, delta, s, i)))
  }

  /** k steps, the last one outermost. */
  function Steps(step: System -> System, s: System, k: nat): System {
    if k == 0 then s else step(Steps(step, s, k - 1))
  }

  function Kernel(f: Interaction, delta: real): System -> System {
    s => KernelStep(f, delta, s)
  }

  function Reference(f: Interaction, delta: real): System -> System {
    s => ReferenceStep(f, delta, s)
  }

  // ---------- agreement ----------

  ghost predicate PullsFlat(f: Interaction) {
    forall a: Vec4, b: Vec4 :: f(a, b).w == 0.0
  }

  lemma {:induction false} ForceHasNoW(f: Interaction, pos: seq<Vec4>, a: Vec4, j: nat)
    requires PullsFlat(f) && j <= |pos|
    ensures Force(f, pos, a, j).w == 0.0
  {
    if j > 0 { ForceHasNoW(f, pos, a, j - 1); }
  }

  /** No velocity has a fourth component. */
  predicate Flat(s: System) {
    forall i :: 0 <= i < |s.vel| ==> s.vel[i].w == 0.0
  }

  lemma KernelW(f: Interaction, delta: real, s: System, i: nat, gain: real)
    requires PullsFlat(f) && i < |s.pos| && gain == s.vel[i].w * delta
    ensures KernelVel(f, delta, s, i).w == s.vel[i].w
    ensures KernelPos(f, delta, s, i).w == s.pos[i].w + gain
  {
    ForceHasNoW(f, s.pos, s.pos[i], |s.pos|);
  }

  lemma FlatStepAgrees(f: Interaction, delta: real, s: System)
    requires PullsFlat(f) && Flat(s)
    ensures KernelStep(f, delta, s) == ReferenceStep(f, delta, s) && Flat(KernelStep(f, delta, s))
    ensures forall i :: 0 <= i < |s.pos| ==> KernelStep(f, delta, s).pos[i].w == s.pos[i].w
  {
    forall i | 0 <= i < |s.pos|
      ensures KernelVel(f, delta, s, i).w == 0.0 && KernelPos(f, delta, s, i).w == s.pos[i].w
    {
      KernelW(f, delta, s, i, 0.0);
    }
    assert KernelStep(f, delta, s).pos == ReferenceStep(f, delta, s).pos;
    assert KernelStep(f, delta, s).vel == ReferenceStep(f, delta, s).vel;
  }

  /** Two step functions that agree on, and keep, a set of states agree for ever from there. */
  lemma {:induction false} StepsAgree(g: System -> System, h: System -> System, good: System -> bool, s: System, k: nat)
    requires good(s) && forall t :: good(t) ==> g(t) == h(t) && good(g(t))
    ensures Steps(g, s, k) == Steps(h, s, k) && good(Steps(g, s, k))
  {
    if k > 0 { StepsAgree(g, h, good, s, k - 1); }
  }

  /** A quantity kept by every step from a set of states is kept for ever. */
  lemma {:induction false} StepsKeep(g: System -> System, good: System -> bool, value: System -> real, s: System, k: nat)
    requires good(s) && forall t :: good(t) ==> good(g(t)) && value(g(t)) == value(t)
    ensures value(Steps(g, s, k)) == value(s) && good(Steps(g, s, k))
  {
    if k > 0 { StepsKeep(g, good, value, s, k - 1); }
  }

  function Times(k: nat, x: real): real {
    if k == 0 then 0.0 else Times(k - 1, x) + x
  }

  lemma {:induction false} TimesNonZero(k: nat, x: real)
    requires k > 0 && x != 0.0
    ensures x > 0.0 ==> Times(k, x) > 0.0
    ensures x < 0.0 ==> Times(k, x) < 0.0
  {
    if k > 1 { TimesNonZero(k - 1, x); }
  }

  /** A step that keeps the velocities' w and moves the masses by it does so k times over. */
  lemma {:induction false} DriftOfW(g: System -> System, s: System, k: nat, i: nat, vw: real, gain: real)
    requires i < |s.pos| && s.vel[i].w == vw
    requires forall t: System :: i < |t.pos| && t.vel[i].w == vw ==>
               i < |g(t).pos| && g(t).vel[i].w == vw && g(t).pos[i].w == t.pos[i].w + gain
    ensures i < |Steps(g, s, k).pos| && Steps(g, s, k).vel[i].w == vw
    ensures Steps(g, s, k).pos[i].w == s.pos[i].w + Times(k, gain)
  {
    if k > 0 { DriftOfW(g, s, k - 1, i, vw, gain); }
  }

  lemma NonZeroProduct(a: real, b: real) returns (r: real)
    requires a != 0.0 && b != 0.0
    ensures r == a * b && r != 0.0
  {
    r := a * b;
  }

  lemma KernelDrift(f: Interaction, delta: real, t: System, i: nat, vw: real, gain: real)
    requires PullsFlat(f) && i < |t.pos| && t.vel[i].w == vw && gain == vw * delta
    ensures Kernel(f, delta)(t).vel[i].w == vw && Kernel(f, delta)(t).pos[i].w == t.pos[i].w + gain
  {
    KernelW(f, delta, t, i, gain);
  }

  lemma KernelDrifts(f: Interaction, delta: real, s: System, k: nat, i: nat, vw: real, gain: real)
    requires PullsFlat(f) && i < |s.pos| && s.vel[i].w == vw && gain == vw * delta
    ensures |Steps(Kernel(f, delta), s, k).pos| > i && Steps(Kernel(f, delta), s, k).pos[i].w == s.pos[i].w + Times(k, gain)
  {
    var g := Kernel(f, delta);
    forall t: System | i < |t.pos| && t.vel[i].w == vw
      ensures i < |g(t).pos| && g(t).vel[i].w == vw && g(t).pos[i].w == t.pos[i].w + gain
    {
      KernelDrift(f, delta, t, i, vw, gain);
    }
    DriftOfW(g, s, k, i, vw, gain);
  }

  lemma {:induction false} ReferenceKeepsMass(f: Interaction, delta: real, s: System, k: nat, i: nat)
    requires i < |s.pos|
    ensures |Steps(Reference(f, delta), s, k).pos| > i && Steps(Reference(f, delta), s, k).pos[i].w == s.pos[i].w
  {
    if k > 0 { ReferenceKeepsMass(f, delta, s, k - 1, i); }
  }

  /** The kernel's positions are the reference's after k > 0 steps exactly when no velocity has a w (unless no time passes). */
  lemma KernelMatchesReference(f: Interaction, delta: real, s: System, k: nat)
    requires PullsFlat(f) && k > 0 && delta != 0.0
    ensures Steps(Kernel(f, delta), s, k).pos == Steps(Reference(f, delta), s, k).pos <==> Flat(s)
    ensures Flat(s) ==> Steps(Kernel(f, delta), s, k) == Steps(Reference(f, delta), s, k)
  {
    if i :| 0 <= i < |s.vel| && s.vel[i].w != 0.0 {
      DriftShows(f, delta, s, k, i);
    } else {
      FlatRunAgrees(f, delta, s, k);
    }
  }

  lemma DriftShows(f: Interaction, delta: real, s: System, k: nat, i: nat)
    requires PullsFlat(f) && k > 0 && delta != 0.0 && i < |s.vel| && s.vel[i].w != 0.0
    ensures Steps(Kernel(f, delta), s, k).pos != Steps(Reference(f, delta), s, k).pos
  {
    var gain := NonZeroProduct(s.vel[i].w, delta);
    KernelDrifts(f, delta, s, k, i, s.vel[i].w, gain);
    ReferenceKeepsMass(f, delta, s, k, i);
    TimesNonZero(k, gain);
  }

  lemma FlatRunAgrees(f: Interaction, delta: real, s: System, k: nat)
    requires PullsFlat(f) && Flat(s)
    ensures Steps(Kernel(f, delta), s, k) == Steps(Reference(f, delta), s, k)
  {
    var good: System -> bool := (t: System) => Flat(t);
    forall t: System | good(t) ensures Kernel(f, delta)(t) == Reference(f, delta)(t) && good(Kernel(f, delta)(t)) {
      FlatStepAgrees(f, delta, t);
    }
    StepsAgree(Kernel(f, delta), Reference(f, delta), good, s, k);
  }

  // ---------- momentum ----------

  datatype Axis = X | Y | Z

  function Along(v: Vec4, axis: Axis): real {
    match axis
    case X => v.x
    case Y => v.y
    case Z => v.z
  }

  /** Newton's third law. */
  ghost predicate Reciprocal(f: Interaction, axis: Axis) {
    forall a: Vec4, b: Vec4 :: Moment(f, axis, a, b) == -Moment(f, axis, b, a)
  }

  /** The mass of a times the pull of b on it. */
  function Moment(f: Interaction, axis: Axis, a: Vec4, b: Vec4): real {
    a.w * Along(f(a, b), axis)
  }

  function Masses(s: System): (m: seq<real>)
    ensures |m| == |s.pos|
  {
    seq(|s.pos|, i requires 0 <= i < |s.pos| => s.pos[i].w)
  }

  function Velocities(s: System, axis: Axis): (v: seq<real>)
    ensures |v| == |s.pos|
  {
    seq(|s.pos|, i requires 0 <= i < |s.pos| => Along(s.vel[i], axis))
  }

  /** The sum of mass times velocity along an axis. */
  function Momentum(s: System, axis: Axis): real {
    Dot(Masses(s), Velocities(s, axis), |s.pos|)
  }

  lemma {:induction false} ForceIsRow(f: Interaction, s: System, axis: Axis, a: (int, int) -> real, i: nat, j: nat)
    requires i < |s.pos| && j <= |s.pos|
    requires forall q :: 0 <= q < |s.pos| ==> a(i, q) == Along(f(s.pos[i], s.pos[q]), axis)
    ensures Along(Force(f, s.pos, s.pos[i], j), axis) == Row(a, i, j)
  {
    if j > 0 { ForceIsRow(f, s, axis, a, i, j - 1); }
  }

  lemma KickAlong(f: Interaction, delta: real, s: System, axis: Axis, i: nat)
    requires i < |s.pos|
    ensures Velocities(KernelStep(f, delta, s), axis)[i]
            == Velocities(s, axis)[i] + Along(Force(f, s.pos, s.pos[i], |s.pos|), axis) * delta
  {
  }

  /** The pull of body j on body i, and the same times the mass of i. */
  function PullOn(f: Interaction, s: System, axis: Axis): (int, int) -> real {
    (i, j) => if 0 <= i < |s.pos| && 0 <= j < |s.pos| then Along(f(s.pos[i], s.pos[j]), axis) else 0.0
  }

  function Attraction(f: Interaction, s: System, axis: Axis): (int, int) -> real {
    (i, j) => if 0 <= i < |s.pos| && 0 <= j < |s.pos| then Moment(f, axis, s.pos[i], s.pos[j]) else 0.0
  }

  lemma AttractionOpposes(f: Interaction, s: System, axis: Axis, i: nat, j: nat)
    requires Reciprocal(f, axis) && i < |s.pos| && j < |s.pos|
    ensures Attraction(f, s, axis)(i, j) == -Attraction(f, s, axis)(j, i)
  {
    var a, b := s.pos[i], s.pos[j];
    assert Moment(f, axis, a, b) == -Moment(f, axis, b, a);
  }

  lemma AttractionsOppose(f: Interaction, s: System, axis: Axis)
    requires Reciprocal(f, axis)
    ensures Antisymmetric(Attraction(f, s, axis), |s.pos|)
  {
    forall i, j | 0 <= i < |s.pos| && 0 <= j < |s.pos|
      ensures Attraction(f, s, axis)(i, j) == -Attraction(f, s, axis)(j, i)
    {
      AttractionOpposes(f, s, axis, i, j);
    }
  }

  function Kicks(f: Interaction, s: System, axis: Axis): (g: seq<real>)
    ensures |g| == |s.pos|
  {
    seq(|s.pos|, i requires 0 <= i < |s.pos| => Along(Force(f, s.pos, s.pos[i], |s.pos|), axis))
  }

  lemma KicksAreRows(f: Interaction, s: System, axis: Axis)
    ensures RowsOf(Kicks(f, s, axis), PullOn(f, s, axis))
  {
    forall i | 0 <= i < |s.pos| ensures Kicks(f, s, axis)[i] == Row(PullOn(f, s, axis), i, |s.pos|) {
      ForceIsRow(f, s, axis, PullOn(f, s, axis), i, |s.pos|);
    }
  }

  lemma AttractionsWeigh(f: Interaction, s: System, axis: Axis)
    ensures Weighted(Attraction(f, s, axis), PullOn(f, s, axis), Masses(s))
  {
  }

  lemma KicksMove(f: Interaction, delta: real, s: System, axis: Axis)
    ensures Moved(Velocities(KernelStep(f, delta, s), axis), Velocities(s, axis), Kicks(f, s, axis), delta)
  {
    forall i | 0 <= i < |s.pos|
      ensures Velocities(KernelStep(f, delta, s), axis)[i] == Velocities(s, axis)[i] + Kicks(f, s, axis)[i] * delta
    {
      KickAlong(f, delta, s, axis, i);
    }
  }

  /** Bodies only pull each other: with the old masses, one step leaves total momentum unchanged on every axis. */
  lemma StepKeepsMomentum(f: Interaction, delta: real, s: System, axis: Axis)
    requires Reciprocal(f, axis)
    ensures Dot(Masses(s), Velocities(KernelStep(f, delta, s), axis), |s.pos|) == Momentum(s, axis)
  {
    AttractionsOppose(f, s, axis);
    AttractionsWeigh(f, s, axis);
    KicksAreRows(f, s, axis);
    KicksMove(f, delta, s, axis);
    KicksCancel(PullOn(f, s, axis), Attraction(f, s, axis), Masses(s), Kicks(f, s, axis), Velocities(s, axis),
                Velocities(KernelStep(f, delta, s), axis), delta);
  }

  lemma FlatStepKeepsMomentum(f: Interaction, delta: real, s: System, axis: Axis)
    requires PullsFlat(f) && Reciprocal(f, axis) && Flat(s)
    ensures Momentum(KernelStep(f, delta, s), axis) == Momentum(s, axis)
  {
    StepKeepsMomentum(f, delta, s, axis);
    FlatStepAgrees(f, delta, s);
    assert Masses(KernelStep(f, delta, s)) == Masses(s);
  }

  /** With no velocity in w masses are constant, and any number of steps keeps total momentum. */
  lemma StepsKeepMomentum(f: Interaction, delta: real, s: System, k: nat, axis: Axis)
    requires PullsFlat(f) && Reciprocal(f, axis) && Flat(s)
    ensures Momentum(Steps(Kernel(f, delta), s, k), axis) == Momentum(s, axis)
  {
    var good: System -> bool := (t: System) => Flat(t);
    var value: System -> real := (t: System) => Momentum(t, axis);
    forall t: System | good(t) ensures good(Kernel(f, delta)(t)) && value(Kernel(f, delta)(t)) == value(t) {
      FlatStepAgrees(f, delta, t);
      FlatStepKeepsMomentum(f, delta, t, axis);
    }
    StepsKeep(Kernel(f, delta), good, value, s, k);
  }

  // ---------- gravity is such an interaction ----------

  lemma GravityIsFlat(c: Constants)
    requires c.Ok()
    ensures PullsFlat(Gravity(c))
  {
  }

  lemma SquareOfNegative(x: real)
    ensures Squared(-x) == Squared(x)
  {
  }

  lemma SoftenedSquareIsEven(x: real, y: real, z: real, s: real)
    ensures SoftenedSquare(-x, -y, -z, s) == SoftenedSquare(x, y, z, s)
  {
    SquareOfNegative(x);
    SquareOfNegative(y);
    SquareOfNegative(z);
  }

  lemma SameDistance(c: Constants, a: Vec4, b: Vec4)
    requires c.Ok()
    ensures Distance(c, Direction(a, b)) == Distance(c, Direction(b, a))
  {
    var d, e := Direction(a, b), Direction(b, a);
    SoftenedSquareIsEven(d.x, d.y, d.z, c.softening);
    assert e.x == -d.x && e.y == -d.y && e.z == -d.z;
  }

  lemma Exchange(m: real, n: real, d: real, u: real, v: real)
    requires d > 0.0 && v == -u
    ensures m * (u * (n / d)) == -(n * (v * (m / d)))
  {
    var r := 1.0 / d;
    assert n / d == n * r && m / d == m * r;
    assert m * (u * (n * r)) == -(n * (v * (m * r)));
  }

  lemma PullAlong(c: Constants, a: Vec4, b: Vec4, axis: Axis)
    requires c.Ok()
    ensures Along(Pull(c, a, b), axis) == Along(Direction(a, b), axis) * (b.w / Cube(Distance(c, Direction(a, b))))
  {
  }

  lemma PullsOppose(c: Constants, axis: Axis, a: Vec4, b: Vec4)
    requires c.Ok()
    ensures Moment(Gravity(c), axis, a, b) == -Moment(Gravity(c), axis, b, a)
  {
    assert Gravity(c)(a, b) == Pull(c, a, b) && Gravity(c)(b, a) == Pull(c, b, a);
    SameDistance(c, a, b);
    PullAlong(c, a, b, axis);
    PullAlong(c, b, a, axis);
    Exchange(a.w, b.w, Cube(Distance(c, Direction(a, b))), Along(Direction(a, b), axis), Along(Direction(b, a), axis));
  }

  /** Equal and opposite, thanks to the symmetric softened distance; a body does not pull itself. */
  lemma GravityIsReciprocal(c: Constants, axis: Axis)
    requires c.Ok()
    ensures Reciprocal(Gravity(c), axis)
  {
    forall a: Vec4, b: Vec4 ensures Moment(Gravity(c), axis, a, b) == -Moment(Gravity(c), axis, b, a) {
      PullsOppose(c, axis, a, b);
    }
  }

  // ---------- the same in components ----------

  /** The square under the root: coordinate differences and the softening length. */
  function Separation(c: Constants, a: Vec4, b: Vec4): real {
    (b.x - a.x) * (b.x - a.x) + (b.y - a.y) * (b.y - a.y) + (b.z - a.z) * (b.z - a.z) + c.softening * c.softening
  }

  /** `gain` is what a body at `from` with mass m contributes along one axis: towards it, by m over the cubed distance. */
  ghost predicate Attracts(gain: real, to: real, from: real, m: real, cube: real) {
    cube > 0.0 && gain == (from - to) * m / cube
  }

  lemma CubeOf(r: real)
    requires r > 0.0
    ensures r * r * r > 0.0 && Cube(r) == r * r * r
  {
    CubePositive(r);
  }

  lemma Quotient(d: real, m: real, cube: real)
    requires cube > 0.0
    ensures d * (m / cube) == d * m / cube
  {
  }

  lemma RootIs(c: Constants, a: Vec4, b: Vec4)
    requires c.Ok()
    ensures Separation(c, a, b) > 0.0 && Distance(c, Direction(a, b)) == c.sqrt(Separation(c, a, b))
  {
    var d := Direction(a, b);
    assert SoftenedSquare(d.x, d.y, d.z, c.softening) == Separation(c, a, b);
  }

  lemma ScaledAttracts(d: real, to: real, from: real, m: real, cube: real)
    requires cube > 0.0 && d == from - to
    ensures Attracts(d * (m / cube), to, from, m, cube)
  {
    Quotient(d, m, cube);
  }

  /** Softened gravity in coordinates: three components towards b, by the cube of the distance, none in w. */
  lemma GravityIs(c: Constants, a: Vec4, b: Vec4, r: real, cube: real)
    requires c.Ok() && r == c.sqrt(Separation(c, a, b)) && cube == r * r * r
    ensures var f := Gravity(c)(a, b);
      && Attracts(f.x, a.x, b.x, b.w, cube) && Attracts(f.y, a.y, b.y, b.w, cube) && Attracts(f.z, a.z, b.z, b.w, cube)
      && f.w == 0.0
  {
    RootIs(c, a, b);
    CubeOf(r);
    PullIs(c, a, b, cube);
  }

  lemma PullIs(c: Constants, a: Vec4, b: Vec4, cube: real)
    requires c.Ok() && cube == Cube(Distance(c, Direction(a, b))) && cube > 0.0
    ensures var f := Gravity(c)(a, b);
      && Attracts(f.x, a.x, b.x, b.w, cube) && Attracts(f.y, a.y, b.y, b.w, cube) && Attracts(f.z, a.z, b.z, b.w, cube)
      && f.w == 0.0
  {
    GravityIsFlat(c);
    ScaledAttracts(b.x - a.x, a.x, b.x, b.w, cube);
    ScaledAttracts(b.y - a.y, a.y, b.y, b.w, cube);
    ScaledAttracts(b.z - a.z, a.z, b.z, b.w, cube);
  }

  /** A body with mass pulls others towards itself. */
  lemma AttractsTowards(gain: real, to: real, from: real, m: real, cube: real)
    requires Attracts(gain, to, from, m, cube) && m > 0.0
    ensures (gain > 0.0 <==> from > to) && (gain < 0.0 <==> from < to)
  {
    var d := from - to;
    Sign(d, m);
    SignOver(d * m, cube);
  }

  lemma Sign(d: real, m: real)
    requires m > 0.0
    ensures (d * m > 0.0 <==> d > 0.0) && (d * m < 0.0 <==> d < 0.0)
  {
    if d > 0.0 { assert d * m > 0.0; } else if d < 0.0 { assert (-d) * m > 0.0; }
  }

  lemma SignOver(d: real, cube: real)
    requires cube > 0.0
    ensures (d / cube > 0.0 <==> d > 0.0) && (d / cube < 0.0 <==> d < 0.0)
  {
    var q := d / cube;
    assert q * cube == d;
    Sign(q, cube);
  }

  lemma AlongMoved(a: Vec4, b: Vec4, t: real, axis: Axis, gain: real)
    requires gain == Along(b, axis) * t
    ensures Along(Add(a, Scale(b, t)), axis) == Along(a, axis) + gain
  {
  }

  lemma SameTimes(x: real, y: real, t: real)
    requires x == y
    ensures x * t == y * t
  {
  }

  lemma VelocityIs(f: Interaction, delta: real, s: System, i: nat, axis: Axis, gain: real)
    requires i < |s.pos| && gain == Row(PullOn(f, s, axis), i, |s.pos|) * delta
    ensures Along(KernelVel(f, delta, s, i), axis) == Along(s.vel[i], axis) + gain
  {
    var force := Force(f, s.pos, s.pos[i], |s.pos|);
    ForceIsRow(f, s, axis, PullOn(f, s, axis), i, |s.pos|);
    SameTimes(Along(force, axis), Row(PullOn(f, s, axis), i, |s.pos|), delta);
    AlongMoved(s.vel[i], force, delta, axis, gain);
  }

  lemma PositionIs(f: Interaction, delta: real, s: System, i: nat, axis: Axis, gain: real)
    requires i < |s.pos| && gain == Along(KernelVel(f, delta, s, i), axis) * delta
    ensures Along(KernelPos(f, delta, s, i), axis) == Along(s.pos[i], axis) + gain
  {
    AlongMoved(s.pos[i], KernelVel(f, delta, s, i), delta, axis, gain);
  }

  /** After a step, along every axis: the velocity has gained the summed pulls times delta, the position the new velocity times delta. */
  lemma StepIs(f: Interaction, delta: real, s: System, i: nat, axis: Axis, velGain: real, posGain: real)
    requires i < |s.pos| && velGain == Row(PullOn(f, s, axis), i, |s.pos|) * delta
    requires posGain == Along(KernelStep(f, delta, s).vel[i], axis) * delta
    ensures var t := KernelStep(f, delta, s);
      && Along(t.vel[i], axis) == Along(s.vel[i], axis) + velGain
      && Along(t.pos[i], axis) == Along(s.pos[i], axis) + posGain
  {
    var t := KernelStep(f, delta, s);
    assert t.vel[i] == KernelVel(f, delta, s, i) && t.pos[i] == KernelPos(f, delta, s, i);
    VelocityIs(f, delta, s, i, axis, velGain);
    PositionIs(f, delta, s, i, axis, posGain);
  }

  /** Body i of two, j being the other, moves by the other's pull alone. */
  ghost predicate Attracted(c: Constants, s: System, t: System, i: nat, j: nat)
    requires |s.pos| == |t.pos| == 2 && i < 2 && j < 2
  {
    var a, b, v, u, p := s.pos[i], s.pos[j], s.vel[i], t.vel[i], t.pos[i];
    var r := c.sqrt(Separation(c, a, b));
    && AttractedAlong(v.x, u.x, a.x, p.x, b.x, b.w, r * r * r, c.delta)
    && AttractedAlong(v.y, u.y, a.y, p.y, b.y, b.w, r * r * r, c.delta)
    && AttractedAlong(v.z, u.z, a.z, p.z, b.z, b.w, r * r * r, c.delta)
  }

  /** Along one axis: velocity v to v', position p to p', the other body at `other` pulling. */
  ghost predicate AttractedAlong(v: real, v': real, p: real, p': real, other: real, m: real, cube: real, delta: real) {
    exists gain :: Attracts(gain, p, other, m, cube) && Kicks1(v, gain, v', p, p', delta)
  }

  /** Along one axis: velocity v, gaining `gain` for a time delta, becomes v', which moves a body from p to p'. */
  ghost predicate Kicks1(v: real, gain: real, v': real, p: real, p': real, delta: real) {
    v' == v + gain * delta && p' == p + v' * delta
  }

  lemma NoSelfPull(c: Constants, a: Vec4)
    requires c.Ok()
    ensures Gravity(c)(a, a) == ZERO
  {
    assert Direction(a, a) == ZERO;
  }

  lemma AddZero(a: Vec4)
    ensures Add(ZERO, a) == a && Add(a, ZERO) == a
  {
  }

  lemma ForceOfPair(f: Interaction, pos: seq<Vec4>, a: Vec4)
    requires |pos| == 2
    ensures Force(f, pos, a, 2) == Add(f(a, pos[0]), f(a, pos[1]))
  {
    AddZero(f(a, pos[0]));
    assert Force(f, pos, a, 0) == ZERO;
    assert Force(f, pos, a, 1) == f(a, pos[0]);
  }

  lemma ForceOfTwo(f: Interaction, pos: seq<Vec4>, i: nat, j: nat)
    requires |pos| == 2 && i + j == 1 && f(pos[i], pos[i]) == ZERO
    ensures Force(f, pos, pos[i], 2) == f(pos[i], pos[j])
  {
    ForceOfPair(f, pos, pos[i]);
    AddZero(f(pos[i], pos[j]));
  }

  lemma MovedIsKicked(v: Vec4, f: Vec4, a: Vec4, delta: real)
    ensures var u := Add(v, Scale(f, delta));
      var p := Add(a, Scale(u, delta));
      Kicks1(v.x, f.x, u.x, a.x, p.x, delta) && Kicks1(v.y, f.y, u.y, a.y, p.y, delta) && Kicks1(v.z, f.z, u.z, a.z, p.z, delta)
  {
  }

  lemma StepOfTwo(c: Constants, s: System, i: nat, j: nat)
    requires c.Ok() && |s.pos| == 2 && i + j == 1
    ensures var t, f := KernelStep(Gravity(c), c.delta, s), Gravity(c)(s.pos[i], s.pos[j]);
      t.vel[i] == Add(s.vel[i], Scale(f, c.delta)) && t.pos[i] == Add(s.pos[i], Scale(t.vel[i], c.delta))
  {
    NoSelfPull(c, s.pos[i]);
    ForceOfTwo(Gravity(c), s.pos, i, j);
  }

  /** One step of two bodies. */
  lemma TwoBodies(c: Constants, s: System, i: nat, j: nat)
    requires c.Ok() && |s.pos| == 2 && i + j == 1
    ensures Attracted(c, s, KernelStep(Gravity(c), c.delta, s), i, j)
  {
    var f, r := Gravity(c)(s.pos[i], s.pos[j]), c.sqrt(Separation(c, s.pos[i], s.pos[j]));
    StepOfTwo(c, s, i, j);
    MovedIsKicked(s.vel[i], f, s.pos[i], c.delta);
    GravityIs(c, s.pos[i], s.pos[j], r, r * r * r);
    AttractedByAll(c, s, KernelStep(Gravity(c), c.delta, s), i, j, f, r, r * r * r);
  }

  lemma AttractedByAll(c: Constants, s: System, t: System, i: nat, j: nat, f: Vec4, r: real, cube: real)
    requires |s.pos| == |t.pos| == 2 && i < 2 && j < 2
    requires r == c.sqrt(Separation(c, s.pos[i], s.pos[j])) && cube == r * r * r
    requires var a, b := s.pos[i], s.pos[j];
      Attracts(f.x, a.x, b.x, b.w, cube) && Attracts(f.y, a.y, b.y, b.w, cube) && Attracts(f.z, a.z, b.z, b.w, cube)
    requires var a, v, u, p := s.pos[i], s.vel[i], t.vel[i], t.pos[i];
      && Kicks1(v.x, f.x, u.x, a.x, p.x, c.delta) && Kicks1(v.y, f.y, u.y, a.y, p.y, c.delta)
      && Kicks1(v.z, f.z, u.z, a.z, p.z, c.delta)
    ensures Attracted(c, s, t, i, j)
  {
    var a, b, v, u, p := s.pos[i], s.pos[j], s.vel[i], t.vel[i], t.pos[i];
    AttractedBy(v.x, f.x, u.x, a.x, p.x, b.x, b.w, cube, c.delta);
    AttractedBy(v.y, f.y, u.y, a.y, p.y, b.y, b.w, cube, c.delta);
    AttractedBy(v.z, f.z, u.z, a.z, p.z, b.z, b.w, cube, c.delta);
  }

  lemma AttractedBy(v: real, gain: real, v': real, p: real, p': real, other: real, m: real, cube: real, delta: real)
    requires Attracts(gain, p, other, m, cube) && Kicks1(v, gain, v', p, p', delta)
    ensures AttractedAlong(v, v', p, p', other, m, cube, delta)
  {
  }
}
