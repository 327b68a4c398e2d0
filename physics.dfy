/**
  BlobPhysics: a damped spring pulling a blob toward a target once per tick,
  and the radius the blob takes from its speed.
 */
module Physics {

  /** The tuning constants; the source sets them when a body is made and never changes them. */
  const Stiffness: real := 0.08
  const Damping: real := 0.85
  const MaxStretch: real := 1.5

  /** Position and velocity of a body. */
  datatype Motion = Motion(x: real, y: real, vx: real, vy: real)

  /** One tick toward (tx, ty): spring force, then damping, then the move. No tick length enters. */
  function Spring(m: Motion, tx: real, ty: real): Motion
  {
    var vx := (m.vx + (tx - m.x) * Stiffness) * Damping;
    var vy := (m.vy + (ty - m.y) * Stiffness) * Damping;
    Motion(m.x + vx, m.y + vy, vx, vy)
  }

  /** The squared speed of a body. */
  function SpeedSquared(m: Motion): (s: real)
    ensures s >= 0.0
  {
    assert m.vx * m.vx >= 0.0 && m.vy * m.vy >= 0.0;
    m.vx * m.vx + m.vy * m.vy
  }

  /** The body sits on the target and does not move. */
  predicate AtRest(m: Motion, tx: real, ty: real)
  {
    m.x == tx && m.y == ty && m.vx == 0.0 && m.vy == 0.0
  }

  /** k ticks toward the same target, as a driver that calls update in a loop performs them. */
  function Ticks(m: Motion, tx: real, ty: real, k: nat): Motion
    decreases k
  {
    if k == 0 then m else Ticks(Spring(m, tx, ty), tx, ty, k - 1)
  }

  /** k ticks are k - 1 ticks followed by one more: each further call of update adds one Spring. */
  lemma {:induction false} TicksLast(m: Motion, tx: real, ty: real, k: nat)
    requires k > 0
    ensures Ticks(m, tx, ty, k) == Spring(Ticks(m, tx, ty, k - 1), tx, ty)
    decreases k
  {
    if k > 1 {
      TicksLast(Spring(m, tx, ty), tx, ty, k - 1);
    }
  }

  /** A tick leaves the body where it was exactly when it is at rest on the target. */
  lemma SpringFixedPoint(m: Motion, tx: real, ty: real)
    ensures Spring(m, tx, ty) == m <==> AtRest(m, tx, ty)
  {
    var m' := Spring(m, tx, ty);
    if m' == m {
      assert m'.vx == 0.0 && m'.vy == 0.0;
      assert (tx - m.x) * Stiffness * Damping == 0.0;
      assert (ty - m.y) * Stiffness * Damping == 0.0;
    }
  }

  /** A body at rest on its target stays there for any number of ticks. */
  lemma {:induction false} RestIsStable(m: Motion, tx: real, ty: real, k: nat)
    requires AtRest(m, tx, ty)
    ensures Ticks(m, tx, ty, k) == m
  {
    if k > 0 {
      SpringFixedPoint(m, tx, ty);
      RestIsStable(m, tx, ty, k - 1);
    }
  }

  /** Moving body and target by the same offset moves the result by that offset and
      leaves the velocity as it was: the tick sees only the distance to the target. */
  lemma SpringShift(m: Motion, tx: real, ty: real, ox: real, oy: real)
    ensures var s := Spring(Motion(m.x + ox, m.y + oy, m.vx, m.vy), tx + ox, ty + oy);
      var r := Spring(m, tx, ty);
      s == Motion(r.x + ox, r.y + oy, r.vx, r.vy)
  {
  }

  /** A quadratic energy of one axis, with e the offset from the target and v the velocity.
      It bounds the squared velocity and the squared offset from above. */
  function AxisEnergy(e: real, v: real): (r: real)
    ensures r >= 0.0
    ensures r >= 0.8 * v * v
    ensures r >= 0.06 * e * e
  {
    AxisEnergyBounds(e, v);
    0.068 * e * e + 0.082 * e * v + 0.85 * v * v
  }

  lemma AxisEnergyBounds(e: real, v: real)
    ensures 0.068 * e * e + 0.082 * e * v + 0.85 * v * v >= 0.0
    ensures 0.068 * e * e + 0.082 * e * v + 0.85 * v * v >= 0.8 * v * v
    ensures 0.068 * e * e + 0.082 * e * v + 0.85 * v * v >= 0.06 * e * e
  {
    var a := e + (0.082 / 0.136) * v;
    assert 0.068 * e * e + 0.082 * e * v + 0.85 * v * v == 0.068 * (a * a) + (0.85 - 0.082 * 0.082 / 0.272) * (v * v);
    assert a * a >= 0.0 && v * v >= 0.0;
    var c := v + (0.082 / 1.7) * e;
    assert 0.068 * e * e + 0.082 * e * v + 0.85 * v * v == 0.85 * (c * c) + (0.068 - 0.082 * 0.082 / 3.4) * (e * e);
    assert c * c >= 0.0 && e * e >= 0.0;
  }

  /** The energy of a body relative to the target (tx, ty): the sum over both axes. */
  function Energy(m: Motion, tx: real, ty: real): (r: real)
    ensures r >= 0.0
  {
    AxisEnergy(m.x - tx, m.vx) + AxisEnergy(m.y - ty, m.vy)
  }

  /** Each tick multiplies the energy by exactly Damping: the spring loses 15 percent of it. */
  lemma SpringEnergy(m: Motion, tx: real, ty: real)
    ensures Energy(Spring(m, tx, ty), tx, ty) == Damping * Energy(m, tx, ty)
  {
  }

  /** e scaled down by Damping k times, that is e * 0.85^k. */
  function Decayed(e: real, k: nat): (r: real)
    ensures e >= 0.0 ==> 0.0 <= r <= e
  {
    if k == 0 then e else Damping * Decayed(e, k - 1)
  }

  /** 0.85^k falls at least as fast as 1 / (1 + 0.15 k), so it tends to 0. */
  lemma {:induction false} DecayedBound(e: real, k: nat)
    requires e >= 0.0
    ensures Decayed(e, k) * (1.0 + 0.15 * k as real) <= e
  {
    if k > 0 {
      DecayedBound(e, k - 1);
      var d, n := Decayed(e, k - 1), k as real;
      assert d * n >= 0.0;
      assert Decayed(e, k) * (1.0 + 0.15 * n) == 0.85 * d + 0.1275 * (d * n);
      assert d * (1.0 + 0.15 * (k - 1) as real) == 0.85 * d + 0.15 * (d * n);
    }
  }

  /** Any measure of the body that each tick multiplies by Damping is scaled by 0.85^k
      over k ticks. */
  lemma {:induction false} ShrinksEachTick(f: Motion -> real, m: Motion, tx: real, ty: real, k: nat)
    requires forall s: Motion :: f(Spring(s, tx, ty)) == Damping * f(s)
    ensures f(Ticks(m, tx, ty, k)) == Decayed(f(m), k)
    decreases k
  {
    if k > 0 {
      ShrinksEachTick(f, m, tx, ty, k - 1);
      TicksLast(m, tx, ty, k);
      var n := Ticks(m, tx, ty, k - 1);
      assert f(Spring(n, tx, ty)) == Damping * f(n);
    }
  }

  /** After k ticks toward a fixed target the energy is 0.85^k times the starting energy. */
  lemma TicksEnergy(m: Motion, tx: real, ty: real, k: nat)
    ensures Energy(Ticks(m, tx, ty, k), tx, ty) == Decayed(Energy(m, tx, ty), k)
  {
    var f := (s: Motion) => Energy(s, tx, ty);
    forall s: Motion ensures f(Spring(s, tx, ty)) == Damping * f(s) {
      SpringEnergy(s, tx, ty);
    }
    ShrinksEachTick(f, m, tx, ty, k);
  }

  lemma BoundsFromEnergy(ex: real, ey: real, dx: real, dy: real, vx: real, vy: real, bound: real)
    requires ex >= 0.8 * vx * vx && ex >= 0.06 * dx * dx
    requires ey >= 0.8 * vy * vy && ey >= 0.06 * dy * dy
    requires ex + ey == bound
    ensures 0.8 * (vx * vx + vy * vy) <= bound
    ensures 0.06 * (dx * dx + dy * dy) <= bound
  {
    assert 0.8 * vx * vx == 0.8 * (vx * vx) && 0.8 * vy * vy == 0.8 * (vy * vy);
    assert 0.06 * dx * dx == 0.06 * (dx * dx) && 0.06 * dy * dy == 0.06 * (dy * dy);
  }

  /** The energy bounds the squared speed and the squared distance to the target. */
  lemma EnergyBounds(n: Motion, tx: real, ty: real)
    ensures 0.8 * SpeedSquared(n) <= Energy(n, tx, ty)
    ensures 0.06 * ((n.x - tx) * (n.x - tx) + (n.y - ty) * (n.y - ty)) <= Energy(n, tx, ty)
  {
    BoundsFromEnergy(AxisEnergy(n.x - tx, n.vx), AxisEnergy(n.y - ty, n.vy), n.x - tx, n.y - ty, n.vx, n.vy,
      Energy(n, tx, ty));
  }

  /** A body held at a fixed target converges to it: after k ticks its squared speed and its
      squared distance to the target are bounded by a constant times the decayed starting
      energy, which is at most the starting energy divided by 1 + 0.15 k. */
  lemma TicksConverge(m: Motion, tx: real, ty: real, k: nat)
    ensures var n, e := Ticks(m, tx, ty, k), Energy(m, tx, ty);
      && 0.8 * SpeedSquared(n) <= Decayed(e, k)
      && 0.06 * ((n.x - tx) * (n.x - tx) + (n.y - ty) * (n.y - ty)) <= Decayed(e, k)
      && Decayed(e, k) * (1.0 + 0.15 * k as real) <= e
  {
    TicksEnergy(m, tx, ty, k);
    DecayedBound(Energy(m, tx, ty), k);
    EnergyBounds(Ticks(m, tx, ty, k), tx, ty);
  }

  /** min(speed / 0.5, MaxStretch - 1), as Python's min picks it. */
  function StretchFactor(speed: real): (f: real)
    ensures f <= MaxStretch - 1.0
    ensures speed >= 0.0 ==> f >= 0.0
    ensures f == 0.0 <==> speed == 0.0
    ensures f < MaxStretch - 1.0 ==> f == speed / 0.5
    ensures f <= speed / 0.5
    ensures f == MaxStretch - 1.0 || f == speed / 0.5
  {
    var a, b := speed / 0.5, MaxStretch - 1.0;
    if b < a then b else a
  }

  /** The radius a body of base radius base takes at the given speed. */
  function StretchedRadius(base: real, speed: real): real
  {
    base * (1.0 + StretchFactor(speed) * 0.3)
  }

  /** A non-negative base radius grows by at most 15 percent. */
  lemma RadiusBounds(base: real, speed: real)
    requires base >= 0.0 && speed >= 0.0
    ensures base <= StretchedRadius(base, speed) <= base * 1.15
    ensures StretchedRadius(base, speed) <= base + base * 0.6 * speed
  {
    var f := StretchFactor(speed);
    assert 0.0 <= f <= 0.5;
    assert base * (1.0 + f * 0.3) == base + base * f * 0.3;
    assert base * f >= 0.0;
    assert base * f <= base * 0.5;
    assert base * f <= base * (speed / 0.5);
  }

  /** A positive base radius is kept exactly when the body does not move. */
  lemma RadiusAtSpeed(base: real, speed: real)
    requires base > 0.0 && speed >= 0.0
    ensures StretchedRadius(base, speed) == base <==> speed == 0.0
    ensures speed > 0.0 ==> StretchedRadius(base, speed) > base
  {
    var f := StretchFactor(speed);
    assert base * (1.0 + f * 0.3) == base + base * f * 0.3;
    if speed > 0.0 {
      assert f > 0.0;
      assert base * f > 0.0;
    }
  }

  /** sqrt is a square root on the non-negative reals. */
  ghost predicate IsSqrt(sqrt: real -> real)
  {
    forall s: real :: 0.0 <= s ==> 0.0 <= sqrt(s) && sqrt(s) * sqrt(s) == s
  }

  /** The radius after one tick: within 15 percent above a non-negative base radius, and
      exactly the base radius for a body at rest on its target. */
  lemma SpringRadius(m: Motion, tx: real, ty: real, base: real, sqrt: real -> real)
    requires IsSqrt(sqrt)
    ensures var r := StretchedRadius(base, sqrt(SpeedSquared(Spring(m, tx, ty))));
      && (base >= 0.0 ==> base <= r <= base * 1.15)
      && (AtRest(m, tx, ty) ==> Spring(m, tx, ty) == m && r == base)
  {
    var speed := sqrt(SpeedSquared(Spring(m, tx, ty)));
    assert speed >= 0.0;
    if base >= 0.0 {
      RadiusBounds(base, speed);
    }
    if AtRest(m, tx, ty) {
      SpringFixedPoint(m, tx, ty);
      assert SpeedSquared(m) == 0.0;
    }
  }

  class BlobPhysics {
    var x: real
    var y: real
    var vx: real
    var vy: real
    var radius: real
    /** Set at construction and never changed. */
    const baseRadius: real

    constructor (x: real := 0.0, y: real := 0.0, radius: real := 1.5)
      ensures this.x == x && this.y == y && vx == 0.0 && vy == 0.0
      ensures baseRadius == radius && this.radius == radius
    {
      this.x := x;
      this.y := y;
      vx := 0.0;
      vy := 0.0;
      baseRadius := radius;
      this.radius := radius;
    }

    function State(): Motion
      reads this
    {
      Motion(x, y, vx, vy)
    }

    /** One tick toward (targetX, targetY). The square root of the source's numeric
        library is the parameter sqrt; dt is accepted and not used. */
    method Update(targetX: real, targetY: real, sqrt: real -> real, dt: real := 1.0 / 60.0)
      requires IsSqrt(sqrt)
      modifies this
      ensures State() == Spring(old(State()), targetX, targetY)
      ensures radius == StretchedRadius(baseRadius, sqrt(SpeedSquared(State())))
      ensures baseRadius >= 0.0 ==> baseRadius <= radius <= baseRadius * 1.15
      ensures AtRest(old(State()), targetX, targetY) ==> State() == old(State()) && radius == baseRadius
    {
      var dx := targetX - x;
      var dy := targetY - y;
      vx := vx + dx * Stiffness;
      vy := vy + dy * Stiffness;
      vx := vx * Damping;
      vy := vy * Damping;
      x := x + vx;
      y := y + vy;
      var speed := sqrt(SpeedSquared(State()));
      var stretchFactor := if MaxStretch - 1.0 < speed / 0.5 then MaxStretch - 1.0 else speed / 0.5;
      radius := baseRadius * (1.0 + stretchFactor * 0.3);
      assert stretchFactor == StretchFactor(speed);
      SpringRadius(old(State()), targetX, targetY, baseRadius, sqrt);
    }

    method GetPosition() returns (px: real, py: real)
      ensures px == x && py == y
    {
      return x, y;
    }
  }
}
