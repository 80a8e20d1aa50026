/** The second phase of each physics sub-step of GravitySimulation.loop:
    every live body takes one semi-implicit Euler step under its net force,
    the velocity first and then the position with the new velocity. */
module Integrator {
  import opened Vectors
  import opened Bodies
  import opened Forces

  /** Multiplying by m undoes dividing the force by m. */
  lemma ImpulseStep(m: real, v: real, f: real, dt: real)
    requires m != 0.0
    ensures m * (v + (f / m) * dt) == m * v + f * dt
  {
    assert m * (f / m) == f;
    assert m * ((f / m) * dt) == (m * (f / m)) * dt;
  }

  /** One body's update under force `f` over `dt` seconds. */
  function Advance(b: BodyState, f: Vec, dt: real): (r: BodyState)
    requires b.mass > 0.0
    ensures r == b.(x := r.x, y := r.y, vx := r.vx, vy := r.vy)
    ensures b.mass * r.vx == b.mass * b.vx + f.x * dt
    ensures b.mass * r.vy == b.mass * b.vy + f.y * dt
    ensures r.x == b.x + r.vx * dt && r.y == b.y + r.vy * dt
  {
    var vx := b.vx + (f.x / b.mass) * dt;
    var vy := b.vy + (f.y / b.mass) * dt;
    ImpulseStep(b.mass, b.vx, f.x, dt);
    ImpulseStep(b.mass, b.vy, f.y, dt);
    b.(vx := vx, vy := vy, x := b.x + vx * dt, y := b.y + vy * dt)
  }

  /** The update loop over all bodies: live ones advance, dead ones are
      left exactly as they are. */
  function Integrated(s: seq<BodyState>, forces: seq<Vec>, dt: real): (r: seq<BodyState>)
    requires |forces| == |s| && PositiveMasses(s)
    ensures |r| == |s|
    ensures forall k :: 0 <= k < |s| ==>
      r[k] == if s[k].dead then s[k] else Advance(s[k], forces[k], dt)
  {
    seq(|s|, k requires 0 <= k < |s| => if s[k].dead then s[k] else Advance(s[k], forces[k], dt))
  }

  /** The momentum m * v of one body. */
  function MomentumOf(b: BodyState): Vec
  {
    Vec(b.mass * b.vx, b.mass * b.vy)
  }

  /** A live body's step adds the impulse dt * f to its momentum. */
  lemma AdvanceMomentum(b: BodyState, f: Vec, dt: real)
    requires b.mass > 0.0
    ensures MomentumOf(Advance(b, f, dt)) == Add(MomentumOf(b), Scale(dt, f))
  {
    assert dt * f.x == f.x * dt && dt * f.y == f.y * dt;
  }

  /** The total momentum of all bodies. */
  function Momentum(s: seq<BodyState>): Vec
  {
    Sum(seq(|s|, k requires 0 <= k < |s| => MomentumOf(s[k])))
  }

  /** The update changes the total momentum by the total impulse. */
  lemma MomentumChange(s: seq<BodyState>, forces: seq<Vec>, dt: real)
    requires |forces| == |s| && PositiveMasses(s)
    requires forall k :: 0 <= k < |s| && s[k].dead ==> forces[k] == Zero
    ensures Momentum(Integrated(s, forces, dt)) == Add(Momentum(s), Scale(dt, Sum(forces)))
  {
    var r := Integrated(s, forces, dt);
    var before := seq(|s|, k requires 0 <= k < |s| => MomentumOf(s[k]));
    var after := seq(|s|, k requires 0 <= k < |s| => MomentumOf(r[k]));
    var impulses := seq(|s|, k requires 0 <= k < |s| => Scale(dt, forces[k]));
    forall k | 0 <= k < |s|
      ensures after[k] == Add(before[k], impulses[k])
    {
      if !s[k].dead {
        AdvanceMomentum(s[k], forces[k], dt);
      }
    }
    SumPointwise(before, impulses, after);
    SumScale(dt, forces, impulses);
  }

  /** Gravity between the bodies only redistributes momentum: with the net
      forces of the accumulation loop the update keeps the total momentum,
      whatever `sqrt` returns. */
  lemma MomentumConserved(s: seq<BodyState>, sqrt: real -> real, dt: real)
    requires PositiveMasses(s)
    ensures Momentum(Integrated(s, NetForces(s, sqrt), dt)) == Momentum(s)
  {
    NetForcesBalance(s, sqrt);
    MomentumChange(s, NetForces(s, sqrt), dt);
  }

  /** One live body's step, in place: the velocity first, then the
      position with the new velocity. */
  method AdvanceBody(body: Body, f: Vec, dt: real)
    requires body.mass > 0.0
    modifies body
    ensures body.State() == Advance(old(body.State()), f, dt)
  {
    var vx := body.vx + (f.x / body.mass) * dt;
    var vy := body.vy + (f.y / body.mass) * dt;
    body.vx, body.vy := vx, vy;
    body.x, body.y := body.x + vx * dt, body.y + vy * dt;
  }

  /** The update loop, in place: body i takes its step under forces[i]. */
  method Integrate(bodies: seq<Body>, forces: array<Vec>, dt: real)
    requires Distinct(bodies) && forces.Length == |bodies|
    requires PositiveMasses(Snap(bodies))
    modifies set b | b in bodies
    ensures Snap(bodies) == Integrated(old(Snap(bodies)), forces[..], dt)
  {
    ghost var s0 := Snap(bodies);
    ghost var next := Integrated(s0, forces[..], dt);
    for i := 0 to |bodies|
      invariant forall k :: 0 <= k < i ==> bodies[k].State() == next[k]
      invariant forall k :: i <= k < |bodies| ==> bodies[k].State() == s0[k]
    {
      if !bodies[i].dead {
        AdvanceBody(bodies[i], forces[i], dt);
      }
    }
  }
}
