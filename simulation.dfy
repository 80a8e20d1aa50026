/** GravitySimulation: the controller around the bodies. It seeds the Sun and
    the Earth, injects a body for each mouse drag, and on each animation
    frame (while running) advances the physics by eight sub-steps of force
    accumulation, integration and collision handling, then extends every
    body's trail. */
module Simulation {
  import opened Vectors
  import opened Bodies
  import opened Forces
  import opened Integrator
  import opened Collisions

  /** Sub-steps per animation frame. */
  const SUB_STEPS: nat := 8
  /** The length of one sub-step, in seconds: TIMESTEP / SUB_STEPS. */
  const DT: real := TIMESTEP / 8.0

  // ---------------------------------------------------------------------
  // Canvas coordinates

  /** Body.draw's transform from world metres to canvas pixels: the origin
      sits at the centre of the canvas and the y axis points down. */
  function ToPixel(p: Point, width: real, height: real): Point
  {
    Point(width / 2.0 + p.x / SCALE, height / 2.0 - p.y / SCALE)
  }

  /** handleMouseUp's transform from a canvas pixel to world metres. */
  function ToWorld(px: real, py: real, width: real, height: real): Point
  {
    Point((px - width / 2.0) * SCALE, -(py - height / 2.0) * SCALE)
  }

  /** A body injected at a pixel is drawn at that same pixel. */
  lemma PixelRoundTrip(px: real, py: real, width: real, height: real)
    ensures ToPixel(ToWorld(px, py, width, height), width, height) == Point(px, py)
  {
  }

  /** Drawing a world point and reading the pixel back gives the point. */
  lemma WorldRoundTrip(p: Point, width: real, height: real)
    ensures var q := ToPixel(p, width, height);
      ToWorld(q.x, q.y, width, height) == p
  {
  }

  // ---------------------------------------------------------------------
  // A body injected by a mouse drag

  /** The slingshot: 1000 m/s per pixel, against the horizontal drag and
      along the vertical one. */
  function LaunchVelocity(startX: real, startY: real, endX: real, endY: real): (v: Vec)
    ensures endX == startX && endY == startY ==> v == Zero
  {
    Vec(-(endX - startX) * 1000.0, (endY - startY) * 1000.0)
  }

  /** In world coordinates the body is launched opposite to the drag, at
      1000 m/s per pixel. */
  lemma LaunchOpposesDrag(startX: real, startY: real, endX: real, endY: real, width: real, height: real)
    ensures var a := ToWorld(startX, startY, width, height);
      var b := ToWorld(endX, endY, width, height);
      LaunchVelocity(startX, startY, endX, endY) == Scale(-1000.0 / SCALE, Vec(b.x - a.x, b.y - a.y))
  {
    var a := ToWorld(startX, startY, width, height);
    var b := ToWorld(endX, endY, width, height);
    assert b.x - a.x == (endX - startX) * SCALE;
    assert b.y - a.y == -(endY - startY) * SCALE;
  }

  /** Math.random() * (1e30 - 1e28) + 1e28. */
  function SpawnMass(u: Unit): (m: real)
    ensures 1e28 <= m < 1e30
  {
    ProductPositive(1.0 - u, 1e30 - 1e28);
    u * (1e30 - 1e28) + 1e28
  }

  /** Math.floor(Math.random() * 11) + 10. */
  function SpawnRadius(u: Unit): (r: int)
    ensures 10 <= r <= 20
  {
    PickBelow(u, 11) + 10
  }

  /** One colour channel, Math.floor(Math.random() * 156) + 100. */
  function Channel(u: Unit): (c: int)
    ensures 100 <= c <= 255
  {
    PickBelow(u, 156) + 100
  }

  /** The body handleMouseUp appends for a drag from (startX, startY) to
      (endX, endY), drawing five values from Math.random starting at `c`:
      the mass, the radius and the three colour channels. */
  function Spawned(startX: real, startY: real, endX: real, endY: real, width: real, height: real,
                   random: nat -> Unit, c: nat): (r: (BodyState, nat))
    ensures r.1 == c + 5
    ensures ToPixel(Point(r.0.x, r.0.y), width, height) == Point(startX, startY)
    ensures Vec(r.0.vx, r.0.vy) == LaunchVelocity(startX, startY, endX, endY)
    ensures Newborn(r.0) && 1e28 <= r.0.mass < 1e30 && 10 <= r.0.radius <= 20
  {
    var p := ToWorld(startX, startY, width, height);
    PixelRoundTrip(startX, startY, width, height);
    var v := LaunchVelocity(startX, startY, endX, endY);
    var color := Rgb(Channel(random(c + 2)), Channel(random(c + 3)), Channel(random(c + 4)));
    (BodyState(p.x, p.y, v.x, v.y, SpawnMass(random(c)), SpawnRadius(random(c + 1)), color, false, []), c + 5)
  }

  // ---------------------------------------------------------------------
  // The bodies a running simulation keeps

  /** A body as the simulation keeps it between frames: alive, with positive
      mass, at least MIN_RADIUS across, and a trail within its capacity. */
  predicate Fit(b: BodyState)
  {
    !b.dead && b.mass > 0.0 && b.radius >= MIN_RADIUS && |b.trail| <= MAX_TRAIL
  }

  predicate Healthy(s: seq<BodyState>)
  {
    forall k :: 0 <= k < |s| ==> Fit(s[k])
  }

  /** reset's two bodies: the Sun at rest at the origin and the Earth one
      astronomical unit away on the x axis, moving along y at 29783 m/s. */
  function Seeds(): (s: seq<BodyState>)
    ensures |s| == 2 && Healthy(s)
    ensures s[0].trail == [] && s[1].trail == []
    ensures s[0].mass == 1.989e30 && (s[0].x, s[0].y, s[0].vx, s[0].vy) == (0.0, 0.0, 0.0, 0.0)
    ensures s[1].mass == 5.972e24 && (s[1].x, s[1].y, s[1].vx, s[1].vy) == (1.496e11, 0.0, 0.0, 29783.0)
  {
    [BodyState(0.0, 0.0, 0.0, 0.0, 1.989e30, 30, Rgb(255, 255, 0), false, []),
     BodyState(1.496e11, 0.0, 0.0, 29783.0, 5.972e24, 10, Rgb(0, 0, 255), false, [])]
  }

  /** Equal masses, body by body, give equal totals. */
  lemma {:induction false} MassOfSameMasses(s: seq<BodyState>, t: seq<BodyState>)
    requires |s| == |t| && forall k :: 0 <= k < |s| ==> s[k].mass == t[k].mass
    ensures MassOf(s) == MassOf(t)
  {
    if s != [] {
      MassOfSameMasses(s[..|s| - 1], t[..|t| - 1]);
    }
  }

  /** The integration step moves bodies but keeps them fit and keeps every
      mass. */
  lemma IntegratedKeeps(s: seq<BodyState>, forces: seq<Vec>, dt: real)
    requires |forces| == |s| && Healthy(s)
    ensures Healthy(Integrated(s, forces, dt))
    ensures MassOf(Integrated(s, forces, dt)) == MassOf(s)
  {
    var r := Integrated(s, forces, dt);
    assert forall k :: 0 <= k < |s| ==> r[k].mass == s[k].mass && r[k].trail == s[k].trail;
    MassOfSameMasses(r, s);
  }

  /** handleCollisions keeps the bodies fit and never adds mass. */
  lemma CollidedKeeps(s: seq<BodyState>, math: MathLib, c: nat)
    requires Healthy(s)
    ensures Healthy(Collided(s, math, c).0)
    ensures MassOf(Collided(s, math, c).0) <= MassOf(s)
  {
    var r := Collided(s, math, c).0;
    CollidedOrigins(s, math, c);
    CollidedMass(s, math, c);
    forall k | 0 <= k < |r|
      ensures Fit(r[k])
    {
      var b := r[k];
      assert b in r;
      if !Viable(b) {
        var i :| 0 <= i < |s| && Persists(s[i], b);
        assert Fit(s[i]);
      }
    }
  }

  // ---------------------------------------------------------------------
  // One frame of loop, on states

  /** One physics sub-step: every live body moves under the net force of
      all others, then collisions are handled. */
  function SubStep(s: seq<BodyState>, math: MathLib, c: nat): (r: (seq<BodyState>, nat))
    requires PositiveMasses(s)
    ensures PositiveMasses(r.0) && r.1 >= c
  {
    var moved := Integrated(s, NetForces(s, math.sqrt), DT);
    assert forall k :: 0 <= k < |s| ==> moved[k].mass == s[k].mass;
    Collided(moved, math, c)
  }

  /** The first `n` sub-steps of a frame. */
  function Run(s: seq<BodyState>, math: MathLib, c: nat, n: nat): (r: (seq<BodyState>, nat))
    requires PositiveMasses(s)
    ensures PositiveMasses(r.0) && r.1 >= c
  {
    if n == 0 then (s, c)
    else
      var t := Run(s, math, c, n - 1);
      SubStep(t.0, math, t.1)
  }

  /** The trail update after the sub-steps: each body records its position. */
  function Trailed(s: seq<BodyState>): seq<BodyState>
  {
    seq(|s|, k requires 0 <= k < |s| => s[k].(trail := PushTrail(s[k].trail, Point(s[k].x, s[k].y))))
  }

  /** One frame of a running simulation, and the next unused Math.random
      draw. */
  function Frame(s: seq<BodyState>, math: MathLib, c: nat): (r: (seq<BodyState>, nat))
    requires PositiveMasses(s)
  {
    var t := Run(s, math, c, SUB_STEPS);
    (Trailed(t.0), t.1)
  }

  /** A sub-step keeps every body fit and never adds mass. */
  lemma SubStepKeeps(s: seq<BodyState>, math: MathLib, c: nat)
    requires Healthy(s)
    ensures Healthy(SubStep(s, math, c).0)
    ensures MassOf(SubStep(s, math, c).0) <= MassOf(s)
  {
    var forces := NetForces(s, math.sqrt);
    IntegratedKeeps(s, forces, DT);
    CollidedKeeps(Integrated(s, forces, DT), math, c);
  }

  /** So do any number of sub-steps. */
  lemma {:induction false} RunKeeps(s: seq<BodyState>, math: MathLib, c: nat, n: nat)
    requires Healthy(s)
    ensures Healthy(Run(s, math, c, n).0)
    ensures MassOf(Run(s, math, c, n).0) <= MassOf(s)
  {
    if n > 0 {
      RunKeeps(s, math, c, n - 1);
      var t := Run(s, math, c, n - 1);
      SubStepKeeps(t.0, math, t.1);
    }
  }

  /** The trail update keeps every body fit, each trail within its capacity
      and ending at the body's position; nothing else changes. */
  lemma TrailedKeeps(s: seq<BodyState>)
    requires Healthy(s)
    ensures Healthy(Trailed(s)) && MassOf(Trailed(s)) == MassOf(s)
    ensures forall k :: 0 <= k < |s| ==>
      Trailed(s)[k] == s[k].(trail := Trailed(s)[k].trail) &&
      Trailed(s)[k].trail == Recent(s[k].trail + [Point(s[k].x, s[k].y)], MAX_TRAIL)
  {
    MassOfSameMasses(Trailed(s), s);
  }

  /** A frame keeps every body alive and fit and never adds mass: bodies
      only leave the simulation as collision debris. */
  lemma FrameKeeps(s: seq<BodyState>, math: MathLib, c: nat)
    requires Healthy(s)
    ensures Healthy(Frame(s, math, c).0)
    ensures MassOf(Frame(s, math, c).0) <= MassOf(s)
  {
    var t := Run(s, math, c, SUB_STEPS);
    RunKeeps(s, math, c, SUB_STEPS);
    TrailedKeeps(t.0);
  }

  // ---------------------------------------------------------------------
  // Body objects

  /** handleMouseUp's new body object, drawing its mass, radius and colour
      from Math.random. */
  method SpawnBody(startX: real, startY: real, endX: real, endY: real, width: real, height: real,
                   random: nat -> Unit, c: nat) returns (body: Body, next: nat)
    ensures fresh(body)
    ensures (body.State(), next) == Spawned(startX, startY, endX, endY, width, height, random, c)
  {
    var p := ToWorld(startX, startY, width, height);
    var v := LaunchVelocity(startX, startY, endX, endY);
    var newMass := SpawnMass(random(c));
    var newRadius := SpawnRadius(random(c + 1));
    var color := Rgb(Channel(random(c + 2)), Channel(random(c + 3)), Channel(random(c + 4)));
    body := new Body(p.x, p.y, v.x, v.y, newMass, newRadius, color);
    next := c + 5;
  }

  /** Appending a new fit body keeps the bodies distinct and fit. */
  lemma AppendFit(bodies: seq<Body>, body: Body)
    requires Distinct(bodies) && Healthy(Snap(bodies))
    requires body !in bodies && Fit(body.State())
    ensures Distinct(bodies + [body]) && Healthy(Snap(bodies + [body]))
  {
    SnapAppend(bodies, [body]);
  }

  /** One physics sub-step on body objects: the force accumulation and
      update loops in place, then handleCollisions, whose result replaces
      the bodies. Every returned body was there before or is new. */
  method SubStepBodies(bodies: seq<Body>, math: MathLib, c: nat, ghost s: seq<BodyState>)
    returns (result: seq<Body>, next: nat)
    requires Distinct(bodies) && Snap(bodies) == s && Healthy(s)
    modifies set b | b in bodies
    ensures Snap(result) == SubStep(s, math, c).0 && next == SubStep(s, math, c).1
    ensures Distinct(result) && Healthy(Snap(result))
    ensures forall b :: b in result ==> b in bodies || fresh(b)
  {
    SubStepKeeps(s, math, c);
    var forces := AccumulateForces(bodies, math.sqrt);
    Integrate(bodies, forces, DT);
    IntegratedKeeps(s, forces[..], DT);
    result, next := HandleCollisions(bodies, math, c);
  }

  /** The trail update loop of loop, in place. */
  method UpdateTrails(bodies: seq<Body>)
    requires Distinct(bodies)
    modifies set b | b in bodies
    ensures Snap(bodies) == Trailed(old(Snap(bodies)))
  {
    ghost var s0 := Snap(bodies);
    ghost var next := Trailed(s0);
    for k := 0 to |bodies|
      invariant forall j :: 0 <= j < k ==> bodies[j].State() == next[j]
      invariant forall j :: k <= j < |bodies| ==> bodies[j].State() == s0[j]
    {
      bodies[k].UpdatePosition();
    }
  }

  /** The controller's interaction state: the canvas size, the running
      flag and the drag. */
  datatype Controls = Controls(
    width: nat, height: nat,
    isRunning: bool, isDragging: bool,
    startX: real, startY: real, currentX: real, currentY: real)

  class GravitySimulation {
    /** The host's Math.sqrt and Math.random. */
    const math: MathLib
    /** The canvas size in pixels, as the host lays it out. */
    var width: nat
    var height: nat
    var bodies: seq<Body>
    var isRunning: bool
    var isDragging: bool
    var startX: real
    var startY: real
    var currentX: real
    var currentY: real
    /** How many Math.random values have been drawn so far. */
    var draws: nat

    /** Every body object occurs once and every body is fit. */
    predicate Valid()
      reads this, set b | b in bodies
    {
      Distinct(bodies) && Healthy(Snap(bodies))
    }

    function State(): Controls
      reads this
    {
      Controls(width, height, isRunning, isDragging, startX, startY, currentX, currentY)
    }

    /** A stopped simulation holding reset's two bodies. */
    constructor (math: MathLib, width: nat, height: nat)
      ensures Valid() && Snap(bodies) == Seeds() && this.math == math && draws == 0
      ensures forall b :: b in bodies ==> fresh(b)
      ensures State() == Controls(width, height, false, false, 0.0, 0.0, 0.0, 0.0)
    {
      this.math := math;
      this.width, this.height := width, height;
      bodies := [];
      isRunning, isDragging := false, false;
      startX, startY, currentX, currentY := 0.0, 0.0, 0.0, 0.0;
      draws := 0;
      new;
      Reset();
    }

    /** Replaces the bodies by the Sun and the Earth. */
    method Reset()
      modifies this
      ensures Valid() && Snap(bodies) == Seeds()
      ensures forall b :: b in bodies ==> fresh(b)
      ensures State() == old(State()) && draws == old(draws)
    {
      var sun := new Body(0.0, 0.0, 0.0, 0.0, 1.989e30, 30, Rgb(255, 255, 0));
      var earth := new Body(1.496e11, 0.0, 0.0, 29783.0, 5.972e24, 10, Rgb(0, 0, 255));
      bodies := [sun, earth];
    }

    /** Starts a stopped simulation, which runs its first frame at once; a
        running one is left alone. */
    method Start()
      requires Valid()
      modifies this, set b | b in bodies
      ensures Valid() && State() == old(State()).(isRunning := true)
      ensures old(isRunning) ==> bodies == old(bodies) && Snap(bodies) == old(Snap(bodies)) && draws == old(draws)
      ensures !old(isRunning) ==> (Snap(bodies), draws) == Frame(old(Snap(bodies)), math, old(draws))
      ensures forall b :: b in bodies ==> b in old(bodies) || fresh(b)
    {
      if !isRunning {
        isRunning := true;
        Loop();
      }
    }

    /** Stops the simulation; nothing else changes. */
    method Stop()
      modifies this
      ensures State() == old(State()).(isRunning := false)
      ensures bodies == old(bodies) && draws == old(draws)
    {
      isRunning := false;
    }

    /** Begins a drag at the pointer's canvas position. */
    method HandleMouseDown(clientX: real, clientY: real, left: real, top: real)
      modifies this
      ensures State() == old(State()).(isDragging := true,
        startX := clientX - left, startY := clientY - top,
        currentX := clientX - left, currentY := clientY - top)
      ensures bodies == old(bodies) && draws == old(draws)
    {
      isDragging := true;
      startX := clientX - left;
      startY := clientY - top;
      currentX := startX;
      currentY := startY;
    }

    /** Follows the pointer while dragging; changes nothing otherwise. */
    method HandleMouseMove(clientX: real, clientY: real, left: real, top: real)
      modifies this
      ensures old(isDragging) ==>
        State() == old(State()).(currentX := clientX - left, currentY := clientY - top)
      ensures !old(isDragging) ==> State() == old(State())
      ensures bodies == old(bodies) && draws == old(draws)
    {
      if isDragging {
        currentX := clientX - left;
        currentY := clientY - top;
      }
    }

    /** Ends a drag by appending exactly one new body, launched from the
        drag's start; without a drag nothing changes. */
    method HandleMouseUp(clientX: real, clientY: real, left: real, top: real)
      requires Valid()
      modifies this
      ensures Valid() && State() == old(State()).(isDragging := false)
      ensures !old(isDragging) ==> bodies == old(bodies) && draws == old(draws)
      ensures old(isDragging) ==>
        |bodies| == |old(bodies)| + 1 && bodies[..|old(bodies)|] == old(bodies) &&
        fresh(bodies[|old(bodies)|]) &&
        (bodies[|old(bodies)|].State(), draws) ==
          Spawned(old(startX), old(startY), clientX - left, clientY - top,
                  width as real, height as real, math.random, old(draws))
      ensures forall b :: b in bodies ==> b in old(bodies) || fresh(b)
    {
      if isDragging {
        isDragging := false;
        var body;
        body, draws := SpawnBody(startX, startY, clientX - left, clientY - top,
                                 width as real, height as real, math.random, draws);
        AppendFit(bodies, body);
        ghost var before := bodies;
        bodies := bodies + [body];
        assert bodies[..|before|] == before;
      }
    }

    /** One physics sub-step of loop, in place: accumulate the forces,
        integrate, then handle collisions, which replaces the bodies. */
    method Step()
      requires Valid()
      modifies this, set b | b in bodies
      ensures Valid() && State() == old(State())
      ensures Snap(bodies) == SubStep(old(Snap(bodies)), math, old(draws)).0
      ensures draws == SubStep(old(Snap(bodies)), math, old(draws)).1
      ensures forall b :: b in bodies ==> b in old(bodies) || fresh(b)
    {
      bodies, draws := SubStepBodies(bodies, math, draws, Snap(bodies));
    }

    /** One animation frame: nothing happens unless running; otherwise
        eight sub-steps, then every body records its position. */
    method Loop()
      requires Valid()
      modifies this, set b | b in bodies
      ensures Valid() && State() == old(State())
      ensures !old(isRunning) ==> bodies == old(bodies) && Snap(bodies) == old(Snap(bodies)) && draws == old(draws)
      ensures old(isRunning) ==> (Snap(bodies), draws) == Frame(old(Snap(bodies)), math, old(draws))
      ensures forall b :: b in bodies ==> b in old(bodies) || fresh(b)
    {
      if !isRunning {
        return;
      }
      ghost var s0, c0 := Snap(bodies), draws;
      for step := 0 to SUB_STEPS
        invariant Valid() && State() == old(State())
        invariant (Snap(bodies), draws) == Run(s0, math, c0, step)
        invariant forall b :: b in bodies ==> b in old(bodies) || fresh(b)
      {
        Step();
      }
      ghost var t := Snap(bodies);
      UpdateTrails(bodies);
      TrailedKeeps(t);
    }
  }

  /** The standalone page: build a simulation and start it at once. Its first
      frame runs from reset's two bodies. */
  method AutoStart(math: MathLib, width: nat, height: nat) returns (sim: GravitySimulation)
    ensures fresh(sim) && sim.Valid() && sim.isRunning && !sim.isDragging
    ensures (Snap(sim.bodies), sim.draws) == Frame(Seeds(), math, 0)
    ensures forall b :: b in sim.bodies ==> fresh(b)
  {
    sim := new GravitySimulation(math, width, height);
    sim.Start();
  }
}
