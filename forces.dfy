/** computeGravitationalForce and the force-accumulation loop at the start of
    each physics sub-step of GravitySimulation.loop. */
module Forces {
  import opened Vectors
  import opened Bodies

  /** Newton's law of gravitation: the size of the pull between masses `m1`
      and `m2` at distance `d`. */
  function Magnitude(m1: real, m2: real, d: real): real
    requires d != 0.0
  {
    (G * m1 * m2) / (d * d)
  }

  lemma MagnitudeSymmetric(m1: real, m2: real, d: real)
    requires d != 0.0
    ensures Magnitude(m1, m2, d) == Magnitude(m2, m1, d)
  {
    assert G * m1 * m2 == G * m2 * m1;
  }

  /** computeGravitationalForce(b1, b2): Newton's attraction of `b1` towards
      `b2`, or no force at all when their distance is 0. */
  function Force(b1: BodyState, b2: BodyState, sqrt: real -> real): (f: Vec)
    ensures Distance(b1, b2, sqrt) == 0.0 ==> f == Zero
  {
    var dx := b2.x - b1.x;
    var dy := b2.y - b1.y;
    var distance := Distance(b1, b2, sqrt);
    if distance == 0.0 then Zero
    else
      var force := Magnitude(b1.mass, b2.mass, distance);
      Vec(force * (dx / distance), force * (dy / distance))
  }

  /** Newton's third law: the pull of `a` on `b` is the exact opposite of the
      pull of `b` on `a`, whatever `sqrt` returns. */
  lemma ForceAntisymmetric(a: BodyState, b: BodyState, sqrt: real -> real)
    ensures Force(b, a, sqrt) == Neg(Force(a, b, sqrt))
  {
    DistanceSymmetric(a, b, sqrt);
    var d := Distance(a, b, sqrt);
    if d != 0.0 {
      var k := Magnitude(a.mass, b.mass, d);
      MagnitudeSymmetric(a.mass, b.mass, d);
      var ux, uy := (b.x - a.x) / d, (b.y - a.y) / d;
      assert Force(a, b, sqrt) == Vec(k * ux, k * uy);
      assert (a.x - b.x) / d == -ux && (a.y - b.y) / d == -uy;
      assert Force(b, a, sqrt) == Vec(k * -ux, k * -uy);
    }
  }

  /** The force is attractive: with positive masses and a true, non-zero
      distance it points along the displacement from `a` to `b`. */
  lemma ForceAttracts(a: BodyState, b: BodyState, sqrt: real -> real)
    requires a.mass > 0.0 && b.mass > 0.0
    requires Distance(a, b, sqrt) > 0.0
    requires Distance(a, b, sqrt) * Distance(a, b, sqrt) == SquaredDistance(a, b)
    ensures Force(a, b, sqrt).x * (b.y - a.y) == Force(a, b, sqrt).y * (b.x - a.x)
    ensures Force(a, b, sqrt).x * (b.x - a.x) + Force(a, b, sqrt).y * (b.y - a.y) > 0.0
  {
    var d := Distance(a, b, sqrt);
    var dx, dy := b.x - a.x, b.y - a.y;
    var force := Magnitude(a.mass, b.mass, d);
    assert force > 0.0 by {
      ProductPositive(G, a.mass);
      ProductPositive(G * a.mass, b.mass);
      ProductPositive(d, d);
    }
    var k := force / d;
    assert Force(a, b, sqrt) == Vec(force * (dx / d), force * (dy / d));
    assert force * (dx / d) == k * dx;
    assert force * (dy / d) == k * dy;
    assert (k * dx) * dy == (k * dy) * dx;
    assert (k * dx) * dx + (k * dy) * dy == k * (d * d);
    ProductPositive(d, d);
    ProductPositive(k, d * d);
  }

  // ---------------------------------------------------------------------
  // The net force on each body: the reference definition

  /** The force on body `k` from body `j` in one sub-step: none from itself
      and none when either of them is dead. */
  function PairForce(s: seq<BodyState>, k: nat, j: nat, sqrt: real -> real): Vec
    requires k < |s| && j < |s|
  {
    if k == j || s[k].dead || s[j].dead then Zero else Force(s[k], s[j], sqrt)
  }

  lemma PairForceAntisymmetric(s: seq<BodyState>, k: nat, j: nat, sqrt: real -> real)
    requires k < |s| && j < |s|
    ensures PairForce(s, j, k, sqrt) == Neg(PairForce(s, k, j, sqrt))
  {
    if k != j && !s[k].dead && !s[j].dead {
      ForceAntisymmetric(s[k], s[j], sqrt);
    }
  }

  /** The pull on every body from every body in one sub-step: row k holds
      the forces on body k. */
  function Pulls(s: seq<BodyState>, sqrt: real -> real): (m: seq<seq<Vec>>)
    ensures Square(m) && |m| == |s|
    ensures forall k, j :: 0 <= k < |s| && 0 <= j < |s| ==> m[k][j] == PairForce(s, k, j, sqrt)
  {
    seq(|s|, k requires 0 <= k < |s| => seq(|s|, j requires 0 <= j < |s| => PairForce(s, k, j, sqrt)))
  }

  /** An n-by-n table of forces. */
  predicate Square(m: seq<seq<Vec>>)
  {
    forall k :: 0 <= k < |m| ==> |m[k]| == |m|
  }

  /** No body pulls on itself, and every pull in the table comes with an
      equal and opposite reaction. */
  predicate Antisymmetric(m: seq<seq<Vec>>)
    requires Square(m)
  {
    (forall k :: 0 <= k < |m| ==> m[k][k] == Zero) &&
    (forall k, j :: 0 <= k < j < |m| ==> m[j][k] == Neg(m[k][j]))
  }

  lemma PullsAntisymmetric(s: seq<BodyState>, sqrt: real -> real)
    ensures Antisymmetric(Pulls(s, sqrt))
  {
    forall k, j | 0 <= k < j < |s|
      ensures Pulls(s, sqrt)[j][k] == Neg(Pulls(s, sqrt)[k][j])
    {
      PairForceAntisymmetric(s, k, j, sqrt);
    }
  }

  /** The force on body `k` from bodies 0 .. c-1. */
  function RowSum(m: seq<seq<Vec>>, k: nat, c: nat): Vec
    requires Square(m) && k < |m| && c <= |m|
  {
    if c == 0 then Zero else Add(RowSum(m, k, c - 1), m[k][c - 1])
  }

  /** The force on body `k` from every other live body. */
  function NetForce(s: seq<BodyState>, k: nat, sqrt: real -> real): Vec
    requires k < |s|
  {
    RowSum(Pulls(s, sqrt), k, |s|)
  }

  function NetForces(s: seq<BodyState>, sqrt: real -> real): (f: seq<Vec>)
    ensures |f| == |s| && forall k :: 0 <= k < |s| ==> f[k] == NetForce(s, k, sqrt)
  {
    seq(|s|, k requires 0 <= k < |s| => NetForce(s, k, sqrt))
  }

  /** A row of zeros sums to zero. */
  lemma {:induction false} ZeroRow(m: seq<seq<Vec>>, k: nat, c: nat)
    requires Square(m) && k < |m| && c <= |m|
    requires forall j :: 0 <= j < |m| ==> m[k][j] == Zero
    ensures RowSum(m, k, c) == Zero
  {
    if c > 0 {
      ZeroRow(m, k, c - 1);
    }
  }

  /** A dead body feels no force. */
  lemma DeadBodyFeelsNoForce(s: seq<BodyState>, k: nat, sqrt: real -> real)
    requires k < |s| && s[k].dead
    ensures NetForce(s, k, sqrt) == Zero
  {
    ZeroRow(Pulls(s, sqrt), k, |s|);
  }

  /** The force on bodies 0 .. r-1 from body `c`. */
  ghost function ColSum(m: seq<seq<Vec>>, c: nat, r: nat): Vec
    requires Square(m) && c < |m| && r <= |m|
  {
    if r == 0 then Zero else Add(ColSum(m, c, r - 1), m[r - 1][c])
  }

  lemma {:induction false} ColSumIsNegatedRow(m: seq<seq<Vec>>, c: nat, r: nat)
    requires Square(m) && Antisymmetric(m) && c < |m| && r <= |m|
    ensures ColSum(m, c, r) == Neg(RowSum(m, c, r))
  {
    if r > 0 {
      ColSumIsNegatedRow(m, c, r - 1);
      NegAdd(RowSum(m, c, r - 1), m[c][r - 1]);
    }
  }

  /** The total force on bodies 0 .. r-1 from bodies 0 .. c-1. */
  ghost function Block(m: seq<seq<Vec>>, r: nat, c: nat): Vec
    requires Square(m) && r <= |m| && c <= |m|
  {
    if r == 0 then Zero else Add(Block(m, r - 1, c), RowSum(m, r - 1, c))
  }

  lemma {:induction false} BlockWiden(m: seq<seq<Vec>>, r: nat, c: nat)
    requires Square(m) && r <= |m| && c < |m|
    ensures Block(m, r, c + 1) == Add(Block(m, r, c), ColSum(m, c, r))
  {
    if r > 0 {
      BlockWiden(m, r - 1, c);
    }
  }

  /** Adding row and column n-1 to the square block of bodies 0 .. n-2
      adds a row and its negation. */
  lemma SquareBlockGrow(m: seq<seq<Vec>>, n: nat)
    requires Square(m) && Antisymmetric(m) && 0 < n <= |m|
    ensures Block(m, n, n) == Add(Block(m, n - 1, n - 1), Add(Neg(RowSum(m, n - 1, n - 1)), RowSum(m, n - 1, n - 1)))
  {
    var p := n - 1;
    BlockWiden(m, p, p);
    ColSumIsNegatedRow(m, p, p);
  }

  /** The forces within bodies 0 .. n-1 cancel out. */
  lemma {:induction false} SquareBlockIsZero(m: seq<seq<Vec>>, n: nat)
    requires Square(m) && Antisymmetric(m) && n <= |m|
    ensures Block(m, n, n) == Zero
  {
    if n > 0 {
      SquareBlockIsZero(m, n - 1);
      SquareBlockGrow(m, n);
    }
  }

  lemma {:induction false} SumIsBlock(s: seq<BodyState>, r: nat, sqrt: real -> real)
    requires r <= |s|
    ensures Sum(NetForces(s, sqrt)[..r]) == Block(Pulls(s, sqrt), r, |s|)
  {
    if r > 0 {
      assert NetForces(s, sqrt)[..r][..r - 1] == NetForces(s, sqrt)[..r - 1];
      SumIsBlock(s, r - 1, sqrt);
    }
  }

  /** The net forces of one sub-step add up to the zero vector, and every dead
      body's entry is zero. */
  lemma NetForcesBalance(s: seq<BodyState>, sqrt: real -> real)
    ensures Sum(NetForces(s, sqrt)) == Zero
    ensures forall k :: 0 <= k < |s| && s[k].dead ==> NetForces(s, sqrt)[k] == Zero
  {
    assert NetForces(s, sqrt)[..|s|] == NetForces(s, sqrt);
    SumIsBlock(s, |s|, sqrt);
    PullsAntisymmetric(s, sqrt);
    SquareBlockIsZero(Pulls(s, sqrt), |s|);
    forall k | 0 <= k < |s| && s[k].dead
      ensures NetForces(s, sqrt)[k] == Zero
    {
      DeadBodyFeelsNoForce(s, k, sqrt);
    }
  }

  // ---------------------------------------------------------------------
  // The accumulation loop

  /** Whether the loop has visited the unordered pair {k, j} by the time its
      outer index is `i` and its inner index is `jj`: it visits each pair
      (lo, hi) with lo < hi once, row by row. */
  predicate Visited(k: nat, j: nat, i: nat, jj: nat)
  {
    var lo := if k < j then k else j;
    var hi := if k < j then j else k;
    lo < i || (lo == i && hi < jj)
  }

  /** What the accumulator holds for body `k`: the forces from the bodies
      among 0 .. c-1 whose pair with `k` has been visited. */
  ghost function PartialNet(m: seq<seq<Vec>>, k: nat, i: nat, jj: nat, c: nat): Vec
    requires Square(m) && k < |m| && c <= |m|
  {
    if c == 0 then Zero
    else
      Add(PartialNet(m, k, i, jj, c - 1), if Visited(k, c - 1, i, jj) then m[k][c - 1] else Zero)
  }

  /** Visiting pair (i, jj) adds its force to entry i and its reaction to
      entry jj, and leaves every other entry alone. */
  lemma {:induction false} PartialNetStep(m: seq<seq<Vec>>, k: nat, i: nat, jj: nat, c: nat)
    requires Square(m) && i < jj < |m| && k < |m| && c <= |m|
    ensures PartialNet(m, k, i, jj + 1, c) ==
      Add(PartialNet(m, k, i, jj, c),
          if k == i && jj < c then m[i][jj]
          else if k == jj && i < c then m[jj][i]
          else Zero)
  {
    if c > 0 {
      PartialNetStep(m, k, i, jj, c - 1);
    }
  }

  /** Entries agree when the same pairs have been visited. */
  lemma {:induction false} PartialNetSameVisits(m: seq<seq<Vec>>, k: nat, i1: nat, j1: nat, i2: nat, j2: nat, c: nat)
    requires Square(m) && k < |m| && c <= |m|
    requires forall j :: 0 <= j < c && j != k ==> (Visited(k, j, i1, j1) <==> Visited(k, j, i2, j2))
    requires m[k][k] == Zero
    ensures PartialNet(m, k, i1, j1, c) == PartialNet(m, k, i2, j2, c)
  {
    if c > 0 {
      PartialNetSameVisits(m, k, i1, j1, i2, j2, c - 1);
    }
  }

  /** Before any pair is visited every entry is zero. */
  lemma {:induction false} PartialNetNothingVisited(m: seq<seq<Vec>>, k: nat, c: nat)
    requires Square(m) && k < |m| && c <= |m| && m[k][k] == Zero
    ensures PartialNet(m, k, 0, 1, c) == Zero
  {
    if c > 0 {
      PartialNetNothingVisited(m, k, c - 1);
    }
  }

  /** Once every pair is visited an entry is the whole row. */
  lemma {:induction false} PartialNetAllVisited(m: seq<seq<Vec>>, k: nat, c: nat)
    requires Square(m) && k < |m| && c <= |m| && m[k][k] == Zero
    ensures PartialNet(m, k, |m|, |m| + 1, c) == RowSum(m, k, c)
  {
    if c > 0 {
      PartialNetAllVisited(m, k, c - 1);
    }
  }

  lemma PartialNetStart(m: seq<seq<Vec>>)
    requires Square(m) && Antisymmetric(m)
    ensures forall k :: 0 <= k < |m| ==> PartialNet(m, k, 0, 1, |m|) == Zero
  {
    forall k | 0 <= k < |m| {
      PartialNetNothingVisited(m, k, |m|);
    }
  }

  lemma PartialNetEnd(m: seq<seq<Vec>>)
    requires Square(m) && Antisymmetric(m)
    ensures forall k :: 0 <= k < |m| ==> PartialNet(m, k, |m|, |m| + 1, |m|) == RowSum(m, k, |m|)
  {
    forall k | 0 <= k < |m| {
      PartialNetAllVisited(m, k, |m|);
    }
  }

  /** The pulls the force loop computes: table `m` holds, above its
      diagonal, the pull on each body from each later body. */
  predicate UpperPulls(m: seq<seq<Vec>>, bodies: seq<Body>, sqrt: real -> real)
    reads set b | b in bodies
    requires Square(m) && |m| == |bodies|
  {
    forall a, b :: 0 <= a < b < |bodies| ==> m[a][b] == PairForce(Snap(bodies), a, b, sqrt)
  }

  lemma PullsTable(s: seq<BodyState>, sqrt: real -> real)
    ensures Antisymmetric(Pulls(s, sqrt))
    ensures forall a, b :: 0 <= a < b < |s| ==> Pulls(s, sqrt)[a][b] == PairForce(s, a, b, sqrt)
  {
    PullsAntisymmetric(s, sqrt);
  }

  /** One iteration of the inner loop: the pair (i, j) adds the pull of j
      to entry i and the opposite to entry j when both bodies live. */
  method VisitPair(bodies: seq<Body>, forces: array<Vec>, i: nat, j: nat, ghost m: seq<seq<Vec>>, sqrt: real -> real)
    requires Square(m) && |m| == |bodies| && forces.Length == |bodies| && i < j < |bodies|
    requires m[i][i] == Zero && m[j][j] == Zero
    requires m[i][j] == PairForce(Snap(bodies), i, j, sqrt) && m[j][i] == Neg(m[i][j])
    requires forall k :: 0 <= k < |bodies| ==> forces[k] == PartialNet(m, k, i, j, |bodies|)
    modifies forces
    ensures forall k :: 0 <= k < |bodies| ==> forces[k] == PartialNet(m, k, i, j + 1, |bodies|)
  {
    var n := |bodies|;
    forall k | 0 <= k < n {
      PartialNetStep(m, k, i, j, n);
    }
    if !bodies[i].dead && !bodies[j].dead {
      var f := Force(bodies[i].State(), bodies[j].State(), sqrt);
      forces[i] := Vec(forces[i].x + f.x, forces[i].y + f.y);
      forces[j] := Vec(forces[j].x - f.x, forces[j].y - f.y);
    }
  }

  /** The inner loop of the force loop for row i: visits the pairs
      (i, i + 1), ..., (i, n - 1). */
  method AccumulateRow(bodies: seq<Body>, forces: array<Vec>, i: nat, ghost m: seq<seq<Vec>>, sqrt: real -> real)
    requires Square(m) && |m| == |bodies| && Antisymmetric(m) && UpperPulls(m, bodies, sqrt)
    requires forces.Length == |bodies| && i < |bodies|
    requires forall k :: 0 <= k < |bodies| ==> forces[k] == PartialNet(m, k, i, i + 1, |bodies|)
    modifies forces
    ensures forall k :: 0 <= k < |bodies| ==> forces[k] == PartialNet(m, k, i + 1, i + 2, |bodies|)
  {
    var n := |bodies|;
    for j := i + 1 to n
      invariant forall k :: 0 <= k < n ==> forces[k] == PartialNet(m, k, i, j, n)
    {
      VisitPair(bodies, forces, i, j, m, sqrt);
    }
    forall k | 0 <= k < n
      ensures PartialNet(m, k, i, n, n) == PartialNet(m, k, i + 1, i + 2, n)
    {
      PartialNetSameVisits(m, k, i, n, i + 1, i + 2, n);
    }
  }

  /** The two loops of the force loop, over the table of pulls `m`: every
      entry ends up as the sum of its row. */
  method AccumulatePulls(bodies: seq<Body>, ghost m: seq<seq<Vec>>, sqrt: real -> real) returns (forces: array<Vec>)
    requires Square(m) && |m| == |bodies| && Antisymmetric(m) && UpperPulls(m, bodies, sqrt)
    ensures forces.Length == |bodies|
    ensures forall k :: 0 <= k < |bodies| ==> forces[k] == RowSum(m, k, |bodies|)
  {
    var n := |bodies|;
    forces := new Vec[n](_ => Zero);
    PartialNetStart(m);
    for i := 0 to n
      invariant forall k :: 0 <= k < n ==> forces[k] == PartialNet(m, k, i, i + 1, n)
    {
      AccumulateRow(bodies, forces, i, m, sqrt);
    }
    PartialNetEnd(m);
  }

  /** The force loop of one sub-step: for each pair i < j of live bodies it
      adds the pull of j to entry i and the opposite to entry j. The result is
      each body's net force from every other live body. */
  method AccumulateForces(bodies: seq<Body>, sqrt: real -> real) returns (forces: array<Vec>)
    ensures forces.Length == |bodies|
    ensures forces[..] == NetForces(Snap(bodies), sqrt)
  {
    ghost var s := Snap(bodies);
    ghost var m := Pulls(s, sqrt);
    PullsTable(s, sqrt);
    forces := AccumulatePulls(bodies, m, sqrt);
    assert forces[..] == NetForces(s, sqrt);
  }
}
