/** The Body of gravity.js: a gravitating mass point with a visual radius,
    a colour and a bounded trail of past positions.

    `Body` is the object the simulation updates in place; `BodyState` is the
    value of its fields at one moment, and the physics is specified on those
    values. */
module Bodies {
  import opened Vectors

  /** Gravitational constant, in N m^2 / kg^2. */
  const G: real := 6.67430e-11
  /** Metres per pixel. */
  const SCALE: real := 1e9
  /** Simulated seconds per frame: one day. */
  const TIMESTEP: real := 86400.0
  /** Radius (pixels) at or below which bodies bounce instead of shattering. */
  const MIN_RADIUS: int := 3
  /** Mass (kg) at or below which a destroyed body leaves no fragments. */
  const MIN_MASS: real := 1e20
  /** Capacity of a body's trail. */
  const MAX_TRAIL: nat := 50

  /** The body's display colour, an rgb(...) triple. */
  datatype Color = Rgb(red: int, green: int, blue: int)

  /** One trail sample {x, y}. */
  datatype Point = Point(x: real, y: real)

  datatype BodyState = BodyState(
    x: real, y: real,
    vx: real, vy: real,
    mass: real,
    radius: int,
    color: Color,
    dead: bool,
    trail: seq<Point>)

  // ---------------------------------------------------------------------
  // Trail

  /** The last `n` entries of `s` (all of `s` when it is shorter). */
  function Recent<T>(s: seq<T>, n: nat): seq<T>
  {
    if |s| <= n then s else s[|s| - n..]
  }

  /** updatePosition's trail step: push the current position, then drop the
      oldest sample once the trail is longer than its capacity. */
  function PushTrail(trail: seq<Point>, p: Point): (r: seq<Point>)
    ensures r != [] && r[|r| - 1] == p
    ensures r[..|r| - 1] == if |trail| >= MAX_TRAIL then trail[1..] else trail
    ensures |trail| <= MAX_TRAIL ==> |r| <= MAX_TRAIL && r == Recent(trail + [p], MAX_TRAIL)
  {
    var pushed := trail + [p];
    if |pushed| > MAX_TRAIL then
      assert pushed[1..][..|pushed| - 2] == trail[1..];
      pushed[1..]
    else
      assert pushed[..|pushed| - 1] == trail;
      pushed
  }

  // ---------------------------------------------------------------------
  // Geometry between two bodies

  /** dx * dx + dy * dy for the displacement from `a` to `b`. */
  function SquaredDistance(a: BodyState, b: BodyState): real
  {
    (b.x - a.x) * (b.x - a.x) + (b.y - a.y) * (b.y - a.y)
  }

  /** distanceTo: Math.sqrt of the squared distance. */
  function Distance(a: BodyState, b: BodyState, sqrt: real -> real): real
  {
    sqrt(SquaredDistance(a, b))
  }

  /** The sum of the two radii, converted from pixels to metres. */
  function Reach(a: BodyState, b: BodyState): real
  {
    a.radius as real * SCALE + b.radius as real * SCALE
  }

  /** collidesWith: the centres are no farther apart than the scaled radii. */
  predicate Collides(a: BodyState, b: BodyState, sqrt: real -> real)
  {
    Distance(a, b, sqrt) <= Reach(a, b)
  }

  /** The distance is the same measured from either body, whatever `sqrt` is. */
  lemma DistanceSymmetric(a: BodyState, b: BodyState, sqrt: real -> real)
    ensures Distance(a, b, sqrt) == Distance(b, a, sqrt)
    ensures Collides(a, b, sqrt) == Collides(b, a, sqrt)
  {
    assert (a.x - b.x) * (a.x - b.x) == (b.x - a.x) * (b.x - a.x);
    assert (a.y - b.y) * (a.y - b.y) == (b.y - a.y) * (b.y - a.y);
  }

  /** For non-negative reals, comparing them is comparing their squares. */
  lemma SquareMonotone(p: real, q: real)
    requires 0.0 <= p && 0.0 <= q
    ensures p <= q <==> p * p <= q * q
  {
    if p <= q {
      assert q * q - p * p == (q - p) * (q + p);
      assert (q - p) * (q + p) >= 0.0 by {
        if q - p > 0.0 && q + p > 0.0 { ProductPositive(q - p, q + p); }
      }
    } else {
      assert p * p - q * q == (p - q) * (p + q);
      ProductPositive(p - q, p + q);
    }
  }

  /** With a true square root, two bodies collide exactly when the squared
      distance between their centres is at most the squared reach. */
  lemma CollidesIffWithinReach(a: BodyState, b: BodyState, sqrt: real -> real)
    requires a.radius >= 0 && b.radius >= 0
    requires sqrt(SquaredDistance(a, b)) >= 0.0
    requires sqrt(SquaredDistance(a, b)) * sqrt(SquaredDistance(a, b)) == SquaredDistance(a, b)
    ensures Collides(a, b, sqrt) <==> SquaredDistance(a, b) <= Reach(a, b) * Reach(a, b)
  {
    assert a.radius as real * SCALE >= 0.0 && b.radius as real * SCALE >= 0.0;
    SquareMonotone(Distance(a, b, sqrt), Reach(a, b));
  }

  // ---------------------------------------------------------------------
  // bounceOff

  /** The unit vector from `a` towards `b`, when their distance is not 0. */
  function Normal(a: BodyState, b: BodyState, sqrt: real -> real): Vec
    requires Distance(a, b, sqrt) != 0.0
  {
    var distance := Distance(a, b, sqrt);
    Vec((b.x - a.x) / distance, (b.y - a.y) / distance)
  }

  /** The relative velocity of `b` with respect to `a`, along the normal:
      positive when the bodies move apart. */
  function ImpactSpeed(a: BodyState, b: BodyState, sqrt: real -> real): real
    requires Distance(a, b, sqrt) != 0.0
  {
    var n := Normal(a, b, sqrt);
    (b.vx - a.vx) * n.x + (b.vy - a.vy) * n.y
  }

  /** bounceOff, exactly as written: it returns early when the bodies coincide
      or already separate; otherwise it SUBTRACTS the impulse from `a` and adds
      it to `b`, which is the opposite sign of an elastic bounce (see
      BounceAsWrittenSpeedsUp). Only the velocities change. */
  function Bounce(a: BodyState, b: BodyState, sqrt: real -> real): (r: (BodyState, BodyState))
    requires a.mass > 0.0 && b.mass > 0.0
    ensures r.0 == a.(vx := r.0.vx, vy := r.0.vy) && r.1 == b.(vx := r.1.vx, vy := r.1.vy)
    ensures Distance(a, b, sqrt) == 0.0 ==> r == (a, b)
    ensures Distance(a, b, sqrt) != 0.0 && ImpactSpeed(a, b, sqrt) > 0.0 ==> r == (a, b)
  {
    if Distance(a, b, sqrt) == 0.0 then (a, b)
    else
      var n := Normal(a, b, sqrt);
      var impactSpeed := ImpactSpeed(a, b, sqrt);
      if impactSpeed > 0.0 then (a, b)
      else
        var impulse := (2.0 * impactSpeed) / (a.mass + b.mass);
        (a.(vx := a.vx - impulse * b.mass * n.x, vy := a.vy - impulse * b.mass * n.y),
         b.(vx := b.vx + impulse * a.mass * n.x, vy := b.vy + impulse * a.mass * n.y))
  }

  /** bounceOff conserves momentum, whatever `sqrt` returns. */
  lemma BounceConservesMomentum(a: BodyState, b: BodyState, sqrt: real -> real)
    requires a.mass > 0.0 && b.mass > 0.0
    ensures var r := Bounce(a, b, sqrt);
      a.mass * r.0.vx + b.mass * r.1.vx == a.mass * a.vx + b.mass * b.vx &&
      a.mass * r.0.vy + b.mass * r.1.vy == a.mass * a.vy + b.mass * b.vy
  {
    if Distance(a, b, sqrt) != 0.0 && ImpactSpeed(a, b, sqrt) <= 0.0 {
      var r := Bounce(a, b, sqrt);
      var n := Normal(a, b, sqrt);
      var impulse := (2.0 * ImpactSpeed(a, b, sqrt)) / (a.mass + b.mass);
      assert r.0.vx == a.vx - impulse * b.mass * n.x && r.1.vx == b.vx + impulse * a.mass * n.x;
      assert r.0.vy == a.vy - impulse * b.mass * n.y && r.1.vy == b.vy + impulse * a.mass * n.y;
      ExchangeConserves(a.mass, b.mass, a.vx, b.vx, impulse, n.x);
      ExchangeConserves(a.mass, b.mass, a.vy, b.vy, impulse, n.y);
    }
  }

  /** One velocity component of bounceOff's exchange: `a` loses k * mb and
      `b` gains k * ma, so ma * va + mb * vb is unchanged. */
  lemma ExchangeConserves(ma: real, mb: real, va: real, vb: real, impulse: real, n: real)
    ensures ma * (va - impulse * mb * n) + mb * (vb + impulse * ma * n) == ma * va + mb * vb
  {
    var k := impulse * n;
    assert impulse * mb * n == k * mb;
    assert impulse * ma * n == k * ma;
    assert ma * (va - k * mb) == ma * va - ma * (k * mb);
    assert mb * (vb + k * ma) == mb * vb + mb * (k * ma);
    assert ma * (k * mb) == mb * (k * ma);
  }

  /** Two equal masses approaching head-on at +1 and -1 leave at +3 and -3:
      the reversed signs make bounceOff accelerate the approach. */
  lemma BounceAsWrittenSpeedsUp(a: BodyState, b: BodyState, sqrt: real -> real)
    requires a.x == 0.0 && a.y == 0.0 && b.x == 1.0 && b.y == 0.0
    requires a.vx == 1.0 && a.vy == 0.0 && b.vx == -1.0 && b.vy == 0.0
    requires a.mass == 1.0 && b.mass == 1.0
    requires sqrt(1.0) == 1.0
    ensures Bounce(a, b, sqrt).0.vx == 3.0 && Bounce(a, b, sqrt).1.vx == -3.0
  {
    assert SquaredDistance(a, b) == 1.0;
    assert Normal(a, b, sqrt) == Vec(1.0, 0.0);
    assert ImpactSpeed(a, b, sqrt) == -2.0;
  }

  // ---------------------------------------------------------------------
  // The Body object

  class Body {
    var x: real
    var y: real
    var vx: real
    var vy: real
    var mass: real
    var radius: int
    var color: Color
    var dead: bool
    var trail: seq<Point>

    /** The values of all fields. */
    function State(): BodyState
      reads this
    {
      BodyState(x, y, vx, vy, mass, radius, color, dead, trail)
    }

    /** A live body with an empty trail. */
    constructor (x: real, y: real, vx: real, vy: real, mass: real, radius: int, color: Color)
      ensures State() == BodyState(x, y, vx, vy, mass, radius, color, false, [])
    {
      this.x, this.y := x, y;
      this.vx, this.vy := vx, vy;
      this.mass, this.radius, this.color := mass, radius, color;
      this.dead := false;
      this.trail := [];
    }

    /** Records the current position in the trail; nothing else changes. */
    method UpdatePosition()
      modifies this
      ensures State() == old(State()).(trail := PushTrail(old(trail), Point(x, y)))
    {
      trail := trail + [Point(x, y)];
      if |trail| > MAX_TRAIL {
        trail := trail[1..];
      }
    }

    function DistanceTo(other: Body, sqrt: real -> real): real
      reads this, other
    {
      Distance(State(), other.State(), sqrt)
    }

    predicate CollidesWith(other: Body, sqrt: real -> real)
      reads this, other
    {
      Collides(State(), other.State(), sqrt)
    }

    /** bounceOff: updates the velocities of this body and `other` in place,
        as Bounce computes them from the two bodies' current states. */
    method BounceOff(other: Body, sqrt: real -> real)
      requires this != other
      requires mass > 0.0 && other.mass > 0.0
      modifies this, other
      ensures (State(), other.State()) == Bounce(old(State()), old(other.State()), sqrt)
    {
      var r := Bounce(State(), other.State(), sqrt);
      vx, vy := r.0.vx, r.0.vy;
      other.vx, other.vy := r.1.vx, r.1.vy;
    }
  }

  // ---------------------------------------------------------------------
  // Collections of bodies

  /** The states of a sequence of bodies, in order. */
  function Snap(bs: seq<Body>): (s: seq<BodyState>)
    reads set b | b in bs
    ensures |s| == |bs| && forall k :: 0 <= k < |bs| ==> s[k] == bs[k].State()
  {
    seq(|bs|, k requires 0 <= k < |bs| reads set b | b in bs => bs[k].State())
  }

  lemma SnapAppend(a: seq<Body>, b: seq<Body>)
    ensures Snap(a + b) == Snap(a) + Snap(b)
  {
  }

  /** No body object occurs twice. */
  predicate Distinct(bs: seq<Body>)
  {
    forall p, q :: 0 <= p < q < |bs| ==> bs[p] != bs[q]
  }

  /** Joining two lists without a common object keeps the objects distinct. */
  lemma DistinctAppend(a: seq<Body>, b: seq<Body>)
    requires Distinct(a) && Distinct(b)
    requires forall p, q :: 0 <= p < |a| && 0 <= q < |b| ==> a[p] != b[q]
    ensures Distinct(a + b)
  {
  }

  /** Appending an object not yet in the list keeps the objects distinct. */
  lemma DistinctPush(bs: seq<Body>, b: Body)
    requires Distinct(bs) && b !in bs
    ensures Distinct(bs + [b])
  {
  }

  predicate PositiveMasses(s: seq<BodyState>)
  {
    forall k :: 0 <= k < |s| ==> s[k].mass > 0.0
  }

  /** The sum of the masses. */
  function MassOf(s: seq<BodyState>): real
  {
    if s == [] then 0.0 else MassOf(s[..|s| - 1]) + s[|s| - 1].mass
  }

  lemma {:induction false} MassOfAppend(s: seq<BodyState>, t: seq<BodyState>)
    ensures MassOf(s + t) == MassOf(s) + MassOf(t)
  {
    if t != [] {
      assert (s + t)[..|s + t| - 1] == s + t[..|t| - 1];
      MassOfAppend(s, t[..|t| - 1]);
    } else {
      assert s + t == s;
    }
  }
}
