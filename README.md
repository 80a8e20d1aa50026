# N-body gravity toy and contact-form handler, modelled in Dafny

This project models two parts of a personal portfolio site.

**The gravity simulation (`gravity.js`).** A `GravitySimulation` controller
owns a list of `Body` objects. Each body has a position, a velocity, a mass,
an integer radius in pixels, a colour, a `dead` flag and a trail of at most
50 past positions. While the simulation runs, each animation frame does
eight physics sub-steps of one eighth of a day each. A sub-step has three
phases:

1. It accumulates pairwise Newtonian forces. For each pair i < j of live
   bodies it adds +f to body i and -f to body j.
2. It takes a semi-implicit Euler step. The velocity is updated first, then
   the position with the new velocity.
3. It handles collisions. The pass visits every ordered pair of distinct
   live bodies that overlap:
   - two small bodies (radius at most `MIN_RADIUS`) go through `bounceOff`;
   - any other overlapping pair is pushed apart and both bodies are marked
     dead. A dead body larger than `MIN_RADIUS` and heavier than `MIN_MASS`
     is split into 2 or 3 equal-mass fragments.

   The result is the surviving bodies, in their order, followed by every
   fragment.

After the sub-steps every body appends its position to its trail. Outside a
frame:

- `reset` seeds the Sun and the Earth;
- `start` and `stop` toggle the running flag;
- a mouse drag injects one new body at the drag's start pixel, converted to
  world coordinates. Its velocity is 1000 m/s per pixel of drag, against
  the drag on x and along it on y.

**The contact endpoint (`api/contact.ts`).** The handler checks, in this
order: the HTTP method, the honeypot field, the required fields, the sender
address pattern, the mail credentials and the recipient address. It ends in
an error response or in exactly one mail send. The outcome of that send
decides the reply.

Files:

- `vectors.dfy` holds plane vectors, sums of vector sequences, and the
  `MathLib` datatype. `MathLib` stands for the host's `Math.sqrt` and for
  the stream of values `Math.random` returns.
- `bodies.dfy` holds the `Body` class, the trail, distance, collision and
  `bounceOff`.
- `forces.dfy` holds `computeGravitationalForce` and the accumulation loop.
  The loop is proved against a reference net force: the sum over all other
  live bodies.
- `integrator.dfy` holds the velocity and position update and the
  conservation of momentum.
- `collisions.dfy` holds `splitBody` and `handleCollisions`. The value
  function `Scan` mirrors the nested loops one pair at a time. The in-place
  methods are proved equal to it.
- `simulation.dfy` holds the controller: the canvas coordinate maps, drag
  injection, `reset`, `start`, `stop` and `loop`.
- `contact.dfy` holds the e-mail pattern and the handler's decision chain.

Floats are modelled as `real`, so every identity below is exact. The model
assumes nothing about `Math.sqrt`. The force, momentum and bounce facts hold
for any square-root function. A lemma that needs a true square root (the
collision test as a squared comparison, attraction, push-apart ending in
contact) states that fact about the one value it uses as a `requires`.
`Math.random` draws are numbered in the order the program makes them. Each
operation that draws takes the next unused number and returns the one after
its last draw.

`bounceOff` is modelled as written. It subtracts the impulse from the first
body and adds it to the second. That is the opposite sign of an elastic
bounce: two equal masses meeting at +1 and -1 leave at +3 and -3
(`Bodies.BounceAsWrittenSpeedsUp`). So the model claims only what the code
keeps: momentum is conserved, and the two guard exits change nothing.

## Model

| member | source | states |
|---|---|---|
| Bodies.PushTrail | gravity.js:49-56 | The new trail ends with the current position. Before it come the old trail, minus its oldest entry when the old trail was already full. A trail of at most 50 entries stays within 50 and equals the last 50 of old trail + [position]. |
| Bodies.Body.constructor | gravity.js:9-20 | A new body has the given position, velocity, mass, radius and colour, is alive, and has an empty trail. |
| Bodies.Body.UpdatePosition | gravity.js:49-56 | Only the trail changes, as PushTrail says. |
| Bodies.DistanceSymmetric | gravity.js:58-69 | distanceTo and collidesWith give the same answer from either body, for any sqrt. |
| Bodies.CollidesIffWithinReach | gravity.js:64-69 | With a true square root, two bodies collide exactly when the squared distance is at most the squared sum of the scaled radii. |
| Bodies.Bounce | gravity.js:71-94 | bounceOff changes only the two velocities. It changes nothing when the distance is 0 or when the impact speed is positive. |
| Bodies.BounceConservesMomentum | gravity.js:84-93 | bounceOff keeps m1·v1 + m2·v2 exactly on both axes, for any sqrt. |
| Bodies.BounceAsWrittenSpeedsUp | gravity.js:88-93 | Equal unit masses approaching at +1 and -1 leave at +3 and -3. The signs as written speed the approach up. |
| Bodies.Body.BounceOff | gravity.js:71-94 | In place, both bodies end with the states Bounce computes from their old states. |
| Forces.Force | gravity.js:201-213 | computeGravitationalForce returns the zero vector when the distance is 0. |
| Forces.ForceAntisymmetric | gravity.js:201-213 | The force of b2 on b1 is the exact negation of the force of b1 on b2, for any sqrt. |
| Forces.ForceAttracts | gravity.js:201-213 | With positive masses and a true non-zero distance, the force points from b1 towards b2: it is parallel to the displacement and has a positive dot product with it. |
| Forces.DeadBodyFeelsNoForce | gravity.js:294-305 | A dead body's net force is zero. |
| Forces.NetForcesBalance | gravity.js:292-305 | The net forces of a sub-step sum to the zero vector, and every dead body's entry is zero. |
| Forces.VisitPair | gravity.js:296-303 | One pair adds its force to entry i and the reaction to entry j when both are alive. No other entry changes. |
| Forces.AccumulateRow | gravity.js:295-304 | After row i, every entry holds the forces of all pairs visited up to that row. |
| Forces.AccumulatePulls | gravity.js:292-305 | After both loops, every entry is the sum of its row of pulls. |
| Forces.AccumulateForces | gravity.js:292-305 | The accumulation loop yields, for each body, the net force from every other live body. |
| Integrator.Advance | gravity.js:310-317 | Only velocity and position change. m·v' = m·v + f·dt, and the new position uses the new velocity. |
| Integrator.Integrated | gravity.js:308-319 | Live bodies advance under their own force; dead bodies are left exactly as they were. |
| Integrator.AdvanceMomentum | gravity.js:314-315 | A live body's momentum grows by dt·f. |
| Integrator.MomentumChange | gravity.js:308-319 | The update changes total momentum by dt times the sum of the forces, provided dead bodies get zero force. |
| Integrator.MomentumConserved | gravity.js:292-319 | Force accumulation followed by the update keeps total momentum Σ m·v, for any sqrt. |
| Integrator.AdvanceBody | gravity.js:310-317 | In place, the body takes the Advance step. |
| Integrator.Integrate | gravity.js:308-319 | In place, the bodies end as Integrated says. |
| Collisions.FragmentCount | gravity.js:216 | The fragment count is 2 or 3. |
| Collisions.Kick | gravity.js:223-224 | A velocity perturbation lies in [-1000, 1000). |
| Collisions.Fragment | gravity.js:219-229 | A fragment is alive with an empty trail. It sits at the parent's position, has its colour and mass/n, has radius max(MIN_RADIUS, floor(radius/n)), and its velocity is within 1000 m/s of the parent's on each axis. |
| Collisions.FragmentShrinks | gravity.js:220-221 | A fragment's radius is at least MIN_RADIUS, smaller than a large parent's radius, and its mass lies strictly between 0 and the parent's mass. |
| Collisions.Split | gravity.js:215-231 | splitBody returns 2 or 3 fragments and uses 1 + 2n random draws. |
| Collisions.SplitShares | gravity.js:219-229 | Every fragment is one of n equal shares of the parent. |
| Collisions.SplitAt | gravity.js:219-229 | Fragment k uses random draws c+1+2k and c+2+2k. |
| Collisions.SplitKeepsMass | gravity.js:215-231 | The fragments' total mass is the parent's mass. |
| Collisions.SplitShrinks | gravity.js:215-231 | Every fragment is alive, at least MIN_RADIUS across, and smaller and lighter than its parent. |
| Collisions.NewFragment | gravity.js:220-228 | Creates a fresh Body holding the Fragment state. |
| Collisions.SplitBody | gravity.js:215-231 | The loop builds distinct fresh Body objects whose states are exactly Split's. |
| Collisions.PushApart | gravity.js:247-258 | Only positions change, and the midpoint of the two bodies is kept. No overlap, or a zero distance, changes nothing. |
| Collisions.PushApartTouches | gravity.js:247-258 | With a true square root, overlapping bodies end exactly touching: their distance equals the sum of the scaled radii. |
| Collisions.AliveStates | gravity.js:276 | The filter returns only live bodies drawn from its input, never more than the input. |
| Collisions.Kept | gravity.js:276 | The filter keeps exactly the indices of the live bodies, in increasing order. |
| Collisions.KeptSelects | gravity.js:276 | The filtered list is the input at the kept indices, in order. |
| Collisions.Shatter | gravity.js:264-269 | Two bodies that cannot fragment give no fragments and use no draws. Otherwise the result is b1's split, when b1 may fragment, followed by b2's split, when b2 may, drawn on from where b1's split stopped. |
| Collisions.ShatterFragments | gravity.js:264-269 | The fragments weigh the masses of the fragmentable bodies. A body with radius ≤ MIN_RADIUS or mass ≤ MIN_MASS adds none. Every fragment is viable. |
| Collisions.ResolvePair | gravity.js:238-270 | One inner iteration keeps the number of bodies and keeps every mass positive. |
| Collisions.ResolvePairCases | gravity.js:238-270 | A pair that is the same body, holds a dead body, or does not collide changes nothing. Two small bodies bounce. Otherwise both are pushed apart, marked dead and shattered. No other body changes, and a dead body is never changed. |
| Collisions.ResolvePairFragments | gravity.js:261-269 | Per pair, the fragment mass is exactly the mass of the destroyed fragmentable bodies, and every fragment is viable. |
| Collisions.ResolvePairLedger | gravity.js:238-270 | Mass still held by bodies plus fragment mass is unchanged by one pair. |
| Collisions.SettledStep | gravity.js:238-270 | After resolving a pair, no visited pair of live bodies overlaps unless both bodies are small. |
| Collisions.Scan | gravity.js:236-274 | The nested loops keep the number of bodies, and the draw cursor never moves backwards. |
| Collisions.ScanPersists | gravity.js:236-274 | Through the pass, every body keeps its mass, radius, colour and trail. A dead body stays untouched, and a body that ends alive has not moved. |
| Collisions.ScanAppends | gravity.js:236-274 | The pass only appends fragments. |
| Collisions.ScanFragments | gravity.js:236-274 | Every fragment appended is alive, has positive mass and is at least MIN_RADIUS across. |
| Collisions.ScanLedger | gravity.js:236-274 | The pass keeps the held mass plus the fragment mass. |
| Collisions.ScanSettles | gravity.js:236-274 | After the pass, no two live overlapping bodies remain unless both are small. |
| Collisions.Collided | gravity.js:233-277 | handleCollisions returns no dead body and no body without positive mass. |
| Collisions.CollidedMass | gravity.js:233-277 | Output mass plus the mass of destroyed unfragmentable bodies equals input mass. That lost mass is never negative. |
| Collisions.CollidedOrigins | gravity.js:233-277 | Every returned body is a viable fragment or an input body that persisted through the pass. |
| Collisions.PushApartBodies | gravity.js:247-258 | In place, the two bodies take the PushApart states. |
| Collisions.ShatterBodies | gravity.js:264-269 | Builds distinct fresh fragment objects whose states are exactly Shatter's. |
| Collisions.ResolvePairAt | gravity.js:238-270 | In place, one iteration leaves the bodies and fragments as ResolvePair says. |
| Collisions.ResolveCell | gravity.js:238-270 | One iteration advances the scan by exactly one pair. |
| Collisions.ResolveRow | gravity.js:237-273 | The inner loop for row i advances the scan to row i+1. |
| Collisions.ResolveAll | gravity.js:236-274 | The nested loops leave the bodies and the fresh fragments exactly as the whole scan says. |
| Collisions.Survivors | gravity.js:276 | bodies.filter(b => !b.dead) keeps the live objects in their order. |
| Collisions.HandleCollisions | gravity.js:233-277 | The result's states are Collided's. Surviving input objects keep their relative order and come before all the fresh fragment objects. No object appears twice. |
| Simulation.PixelRoundTrip | gravity.js:185-186 | A body injected at a pixel is drawn at that same pixel under the draw transform. |
| Simulation.WorldRoundTrip | gravity.js:23-24 | The pixel-to-world map inverts the draw transform. |
| Simulation.LaunchVelocity | gravity.js:189-190 | A release at the press point launches with zero velocity. |
| Simulation.LaunchOpposesDrag | gravity.js:185-190 | In world coordinates, the launch velocity is the drag vector scaled by -1000/SCALE, against the drag. |
| Simulation.SpawnMass | gravity.js:193 | The spawned mass lies in [1e28, 1e30). |
| Simulation.SpawnRadius | gravity.js:194 | The spawned radius is an integer from 10 to 20. |
| Simulation.Channel | gravity.js:195 | Each colour channel lies in 100..255. |
| Simulation.Spawned | gravity.js:185-197 | The injected body is alive with an empty trail. It is drawn at the drag's start pixel and has the launch velocity, with mass and radius in their ranges. It uses five random draws. |
| Simulation.Seeds | gravity.js:132-137 | reset gives exactly two bodies. The first has mass 1.989e30 and is at rest at the origin. The second has mass 5.972e24, sits at (1.496e11, 0) and moves at (0, 29783). Both are alive, at least MIN_RADIUS across, and have empty trails. |
| Simulation.IntegratedKeeps | gravity.js:308-319 | The update keeps every body fit and keeps total mass. |
| Simulation.CollidedKeeps | gravity.js:233-277 | handleCollisions keeps every body fit and never adds mass. |
| Simulation.SubStep | gravity.js:290-323 | A sub-step keeps every mass positive, and the draw cursor never moves backwards. |
| Simulation.Run | gravity.js:290-323 | Any number of sub-steps keeps every mass positive. |
| Simulation.SubStepKeeps | gravity.js:290-323 | A sub-step keeps every body fit and never adds mass. |
| Simulation.RunKeeps | gravity.js:290-323 | Any number of sub-steps keeps every body fit and never adds mass. |
| Simulation.TrailedKeeps | gravity.js:325-328 | Each trail grows by the body's position and keeps its last 50 entries. Nothing else changes. |
| Simulation.FrameKeeps | gravity.js:279-328 | A whole frame keeps every body alive and fit and never adds mass. |
| Simulation.SpawnBody | gravity.js:185-197 | Creates a fresh Body holding the Spawned state. |
| Simulation.AppendFit | gravity.js:197 | Appending a new fit body keeps the list distinct and fit. |
| Simulation.SubStepBodies | gravity.js:290-323 | In place, a sub-step leaves the bodies as SubStep says. Every returned object was there before or is fresh. |
| Simulation.UpdateTrails | gravity.js:325-328 | In place, every body's trail is updated as Trailed says. |
| Simulation.GravitySimulation.constructor | gravity.js:98-130 | A new controller is stopped and not dragging, with zeroed drag points. It holds reset's two bodies as fresh objects. |
| Simulation.GravitySimulation.Reset | gravity.js:132-137 | The body list becomes exactly the Sun and the Earth, as fresh objects. Nothing else changes. |
| Simulation.GravitySimulation.Start | gravity.js:146-152 | A running simulation is left unchanged. A stopped one becomes running and runs one frame at once. Every body afterwards is an old object or a fresh one. |
| Simulation.GravitySimulation.Stop | gravity.js:154-159 | isRunning becomes false. Nothing else changes. |
| Simulation.GravitySimulation.HandleMouseDown | gravity.js:161-168 | Starts dragging with start and current point set to the pointer's canvas position. |
| Simulation.GravitySimulation.HandleMouseMove | gravity.js:170-176 | While dragging, only the current point follows the pointer. Otherwise nothing changes. |
| Simulation.GravitySimulation.HandleMouseUp | gravity.js:178-199 | Without a drag nothing changes. With a drag, dragging stops and exactly one fresh body, the Spawned one, is appended after the unchanged old list. |
| Simulation.GravitySimulation.Step | gravity.js:290-323 | One sub-step in place, as SubStep says. The controls are unchanged. |
| Simulation.GravitySimulation.Loop | gravity.js:279-328 | When not running nothing changes. When running the bodies become the Frame of the old bodies: 8 sub-steps, then the trail update. Every body afterwards is an old object or a fresh one. |
| Simulation.AutoStart | gravity.js:349-353 | The standalone page builds a simulation and starts it. It is running and not dragging, and holds the frame computed from reset's two bodies. All its bodies are fresh. |
| Contact.Or | api/contact.ts:28 | The JavaScript "or" of two values is truthy exactly when one of them is. It yields the first when that one is truthy and the second otherwise. |
| Contact.PatternHasShape | api/contact.ts:21 | A matching address has no white space, exactly one '@' (not first), and a '.' strictly inside the domain. |
| Contact.ShapeMatchesPattern | api/contact.ts:21 | Every string of that shape matches the pattern. |
| Contact.EmailPatternShape | api/contact.ts:21 | The pattern accepts exactly the strings of that shape. |
| Contact.Decide | api/contact.ts:4-59 | A non-POST method gets 405 and a filled honeypot gets 200. A mail is sent exactly when every check passes. It is sent from EMAIL_USER to the recipient, replies go to the submitter, and the subject names the submitter. |
| Contact.Handle | api/contact.ts:4-67 | Status 200 means a filled honeypot, or an acceptable request whose mail was delivered. An acceptable request gets 200 on delivery and 500 "Failed to send email" otherwise. |
| Contact.MethodCheckedFirst | api/contact.ts:5-7 | A non-POST method gets 405 whatever the body, the settings and the send outcome. |
| Contact.HoneypotSilent | api/contact.ts:11-15 | A filled honeypot gets 200 "Email sent successfully" and nothing is sent, before any other check. |
| Contact.ErrorPrecedence | api/contact.ts:17-36 | Each error comes exactly when the earlier checks pass: missing fields 400, bad address 400, missing credentials 500, bad recipient 500. |

## Left out

- Canvas drawing is left out: `Body.draw`, the clear and the drag line in
  `loop`, `resizeCanvas` and listener registration. Only
  the coordinate map of `draw` is kept. The canvas size is a field the host
  sets.
- `requestAnimationFrame` and `cancelAnimationFrame` are host scheduling.
  `start`, `stop` and `loop` are modelled through the running flag only.
- IEEE floating point (rounding, NaN, Infinity) is not modelled. Numbers are
  exact reals and `Math.sqrt` is an arbitrary function. No claim is made about
  orbital accuracy or energy; the code promises neither.
- `Math.random` is a numbered stream of values in [0, 1). The colour is an
  rgb triple, not the formatted string.
- `Collisions.PushApart`: the source divides by the distance without a guard,
  which gives NaN positions when two centres coincide. The model leaves both
  bodies in place when the distance is 0.
- `Bodies.Bounce`: no energy conservation or separation is claimed, because
  the reversed signs do not keep either.
- The update, collision and frame functions require positive masses. Every
  body the source creates has one, and the controller's invariant keeps it.
- `gravity.js` has no merge with momentum, no body-count cap, no camera
  offset or panning and no keyboard input, and it splits a body into 2 or 3
  fragments. The model has none of these either.
- Contact.Request: every body field is modelled as absent or a string. The
  handler reads `req.body` as parsed JSON, so a field can hold any JSON value.
  The model does not capture these cases:
  - a non-string truthy honeypot such as `true` or `1`;
  - falsy non-strings such as `0`;
  - an array e-mail that the pattern test converts to a string.
  A missing `req.body`, which throws before any guard runs, is not modelled
  either.
- The nodemailer transport and the `process.env` reads are parameters. The
  send outcome is an abstract boolean. The error logged on a failed send is
  left out.
- api/chat.ts and script.js are not part of this model.
