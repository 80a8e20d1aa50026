/** The collision phase of each physics sub-step: splitBody and
    handleCollisions of GravitySimulation.

    The pass visits every ordered pair (i, j) of the body list in row order.
    A live pair that collides either bounces (both bodies small) or is
    pushed apart and destroyed, each destroyed body that is large and heavy
    enough leaving two or three fragments. Survivors keep their order and
    are followed by all fragments. */
module Collisions {
  import opened Vectors
  import opened Bodies

  function Max(a: int, b: int): (m: int)
    ensures m >= a && m >= b && (m == a || m == b)
  {
    if a >= b then a else b
  }

  /** A body that was created in this pass: alive, with an empty trail. */
  predicate Newborn(b: BodyState)
  {
    !b.dead && b.trail == []
  }

  /** Bodies at or below this radius bounce instead of shattering. */
  predicate Small(b: BodyState)
  {
    b.radius <= MIN_RADIUS
  }

  /** A destroyed body leaves fragments only when it is both larger than the
      minimum radius and heavier than the minimum mass. */
  predicate Fragmentable(b: BodyState)
  {
    b.radius > MIN_RADIUS && b.mass > MIN_MASS
  }

  // ---------------------------------------------------------------------
  // splitBody

  /** Math.floor(Math.random() * 2) + 2. */
  function FragmentCount(u: Unit): (n: nat)
    ensures n == 2 || n == 3
  {
    PickBelow(u, 2) + 2
  }

  /** Math.random() * 2000 - 1000: a velocity kick in [-1000, 1000) m/s. */
  function Kick(u: Unit): (k: real)
    ensures -1000.0 <= k < 1000.0
  {
    u * 2000.0 - 1000.0
  }

  /** Bodies of equal mass `w` weigh `w` times their count. */
  lemma {:induction false} MassOfUniform(s: seq<BodyState>, w: real)
    requires forall k :: 0 <= k < |s| ==> s[k].mass == w
    ensures MassOf(s) == |s| as real * w
  {
    if s != [] {
      MassOfUniform(s[..|s| - 1], w);
    }
  }

  /** `f` is one of `n` equal shares of `b`: alive, with no trail, at b's
      position and in b's colour, with b.mass / n of the mass, the radius
      Math.max(MIN_RADIUS, Math.floor(b.radius / n)), and b's velocity kicked
      by less than 1000 m/s on each axis. */
  predicate FragmentOf(b: BodyState, n: nat, f: BodyState)
    requires n > 0
  {
    Newborn(f) && f.x == b.x && f.y == b.y && f.color == b.color &&
    f.mass == b.mass / n as real && f.radius == Max(MIN_RADIUS, b.radius / n) &&
    b.vx - 1000.0 <= f.vx < b.vx + 1000.0 && b.vy - 1000.0 <= f.vy < b.vy + 1000.0
  }

  /** One of `n` fragments of `b`, kicked by the draws `u` and `w`. */
  function Fragment(b: BodyState, n: nat, u: Unit, w: Unit): (f: BodyState)
    requires n > 0
    ensures FragmentOf(b, n, f)
  {
    BodyState(b.x, b.y, b.vx + Kick(u), b.vy + Kick(w),
              b.mass / n as real, Max(MIN_RADIUS, b.radius / n),
              b.color, false, [])
  }

  /** A share of two or three is never below the minimum radius, and is
      strictly smaller and lighter than the body it came from. */
  lemma FragmentShrinks(b: BodyState, n: nat, f: BodyState)
    requires (n == 2 || n == 3) && FragmentOf(b, n, f)
    ensures f.radius >= MIN_RADIUS
    ensures b.radius > MIN_RADIUS ==> f.radius < b.radius
    ensures b.mass > 0.0 ==> 0.0 < f.mass < b.mass
  {
    if n == 2 {
      assert b.radius > MIN_RADIUS ==> b.radius / 2 < b.radius;
    } else {
      assert b.radius > MIN_RADIUS ==> b.radius / 3 < b.radius;
    }
  }

  /** `n` shares of m / n make m. */
  lemma SharesMakeWhole(m: real, n: nat)
    requires n > 0
    ensures n as real * (m / n as real) == m
  {
  }

  /** splitBody with its Math.random draws numbered from `c`: draw c picks
      the count n, draws c+1+2k and c+2+2k kick fragment k. Returns the
      fragments and the number of the next unused draw. */
  function Split(b: BodyState, random: nat -> Unit, c: nat): (r: (seq<BodyState>, nat))
    ensures |r.0| == 2 || |r.0| == 3
    ensures r.1 == c + 1 + 2 * |r.0|
  {
    var n := FragmentCount(random(c));
    var frags := seq(n, k requires 0 <= k < n =>
      Fragment(b, n, random(c + 1 + 2 * k), random(c + 2 + 2 * k)));
    (frags, c + 1 + 2 * n)
  }

  /** Every fragment of a split is one of its equal shares. */
  lemma SplitShares(b: BodyState, random: nat -> Unit, c: nat)
    ensures var f := Split(b, random, c).0;
      forall k :: 0 <= k < |f| ==> FragmentOf(b, |f|, f[k])
  {
    var f := Split(b, random, c).0;
    forall k | 0 <= k < |f|
      ensures FragmentOf(b, |f|, f[k])
    {
      SplitAt(b, random, c, k);
    }
  }

  /** Fragment k of a split is kicked by draws c + 1 + 2k and c + 2 + 2k. */
  lemma SplitAt(b: BodyState, random: nat -> Unit, c: nat, k: nat)
    requires k < FragmentCount(random(c))
    ensures var n := FragmentCount(random(c));
      |Split(b, random, c).0| == n &&
      Split(b, random, c).0[k] == Fragment(b, n, random(c + 1 + 2 * k), random(c + 2 + 2 * k))
  {
  }

  /** The fragments together weigh what their parent weighed. */
  lemma SplitKeepsMass(b: BodyState, random: nat -> Unit, c: nat)
    ensures MassOf(Split(b, random, c).0) == b.mass
  {
    var f := Split(b, random, c).0;
    SplitShares(b, random, c);
    MassOfUniform(f, b.mass / |f| as real);
    SharesMakeWhole(b.mass, |f|);
  }

  /** Every fragment splitBody makes is alive, at least MIN_RADIUS across,
      and strictly smaller and lighter than its parent. */
  lemma SplitShrinks(b: BodyState, random: nat -> Unit, c: nat)
    ensures var f := Split(b, random, c).0;
      forall k :: 0 <= k < |f| ==>
        Newborn(f[k]) && f[k].radius >= MIN_RADIUS &&
        (b.radius > MIN_RADIUS ==> f[k].radius < b.radius) &&
        (b.mass > 0.0 ==> 0.0 < f[k].mass < b.mass)
  {
    var f := Split(b, random, c).0;
    SplitShares(b, random, c);
    forall k | 0 <= k < |f| {
      FragmentShrinks(b, |f|, f[k]);
    }
  }

  /** One fragment of splitBody as a new Body, kicked by draws d and d + 1. */
  method NewFragment(body: Body, n: nat, random: nat -> Unit, d: nat) returns (fragment: Body)
    requires n > 0
    ensures fresh(fragment) && fragment.State() == Fragment(body.State(), n, random(d), random(d + 1))
  {
    var newMass := body.mass / n as real;
    var newRadius := Max(MIN_RADIUS, body.radius / n);
    var newVx := body.vx + Kick(random(d));
    var newVy := body.vy + Kick(random(d + 1));
    fragment := new Body(body.x, body.y, newVx, newVy, newMass, newRadius, body.color);
  }

  /** The bodies of `fragments` carry the first |fragments| of `states`. */
  predicate Carries(fragments: seq<Body>, states: seq<BodyState>)
    reads set f | f in fragments
  {
    |fragments| <= |states| && forall k :: 0 <= k < |fragments| ==> fragments[k].State() == states[k]
  }

  lemma CarriesAppend(fragments: seq<Body>, f: Body, states: seq<BodyState>)
    requires Carries(fragments, states) && |fragments| < |states| && f.State() == states[|fragments|]
    ensures Carries(fragments + [f], states)
  {
  }

  /** splitBody: builds the fragments of `body` as new Body objects. */
  method SplitBody(body: Body, random: nat -> Unit, c: nat) returns (fragments: seq<Body>, next: nat)
    ensures Snap(fragments) == Split(body.State(), random, c).0
    ensures next == Split(body.State(), random, c).1
    ensures Distinct(fragments) && forall f :: f in fragments ==> fresh(f)
  {
    ghost var parent := body.State();
    ghost var expected := Split(parent, random, c).0;
    var numFragments := FragmentCount(random(c));
    next := c + 1;
    fragments := [];
    for i := 0 to numFragments
      invariant next == c + 1 + 2 * i && |fragments| == i && body.State() == parent
      invariant Carries(fragments, expected)
      invariant Distinct(fragments) && forall f :: f in fragments ==> fresh(f)
    {
      SplitAt(parent, random, c, i);
      var fragment := NewFragment(body, numFragments, random, next);
      CarriesAppend(fragments, fragment, expected);
      DistinctPush(fragments, fragment);
      fragments := fragments + [fragment];
      next := next + 2;
    }
  }

  // ---------------------------------------------------------------------
  // Pushing two overlapping bodies apart

  /** Moves `a` and `b` apart along the line of their centres, each by half
      the overlap. The source divides by the distance without a guard; here
      a zero distance leaves both bodies where they are. */
  function PushApart(a: BodyState, b: BodyState, sqrt: real -> real): (r: (BodyState, BodyState))
    ensures r.0 == a.(x := r.0.x, y := r.0.y) && r.1 == b.(x := r.1.x, y := r.1.y)
    ensures r.0.x + r.1.x == a.x + b.x && r.0.y + r.1.y == a.y + b.y
    ensures Reach(a, b) - Distance(a, b, sqrt) <= 0.0 || Distance(a, b, sqrt) == 0.0 ==> r == (a, b)
  {
    var dist := Distance(a, b, sqrt);
    var overlap := Reach(a, b) - dist;
    if overlap > 0.0 && dist != 0.0 then
      var pushDist := overlap / 2.0;
      var dx := (a.x - b.x) / dist;
      var dy := (a.y - b.y) / dist;
      (a.(x := a.x + pushDist * dx, y := a.y + pushDist * dy),
       b.(x := b.x - pushDist * dx, y := b.y - pushDist * dy))
    else (a, b)
  }

  /** Moving each end of a separation `e` out by half of `reach - d` along
      `e / d` stretches it by the factor `reach / d`. */
  lemma Stretch(e: real, d: real, reach: real)
    requires d != 0.0
    ensures e + ((reach - d) / 2.0) * (e / d) - (-(((reach - d) / 2.0) * (e / d))) == (reach / d) * e
  {
    var h := (reach - d) / 2.0;
    assert h * (e / d) + h * (e / d) == (reach - d) * (e / d);
    assert (reach - d) * (e / d) == reach * (e / d) - d * (e / d);
    assert d * (e / d) == e;
    assert reach * (e / d) == (reach / d) * e;
  }

  /** Scaling both components of a displacement by `t` scales its square
      length by `t * t`. */
  lemma ScaledSquare(ex: real, ey: real, t: real)
    ensures (t * ex) * (t * ex) + (t * ey) * (t * ey) == (t * t) * (ex * ex + ey * ey)
  {
  }

  /** With a true square root, overlapping bodies end up exactly touching:
      their new distance is the sum of the scaled radii. */
  lemma PushApartTouches(a: BodyState, b: BodyState, sqrt: real -> real)
    requires Distance(a, b, sqrt) > 0.0
    requires Distance(a, b, sqrt) * Distance(a, b, sqrt) == SquaredDistance(a, b)
    requires Reach(a, b) - Distance(a, b, sqrt) > 0.0
    ensures SquaredDistance(PushApart(a, b, sqrt).0, PushApart(a, b, sqrt).1) == Reach(a, b) * Reach(a, b)
  {
    var d, reach := Distance(a, b, sqrt), Reach(a, b);
    var r := PushApart(a, b, sqrt);
    var t := reach / d;
    Stretch(a.x - b.x, d, reach);
    Stretch(a.y - b.y, d, reach);
    assert r.0.x - r.1.x == t * (a.x - b.x);
    assert r.0.y - r.1.y == t * (a.y - b.y);
    assert SquaredDistance(r.0, r.1) == (t * (a.x - b.x)) * (t * (a.x - b.x)) + (t * (a.y - b.y)) * (t * (a.y - b.y));
    ScaledSquare(a.x - b.x, a.y - b.y, t);
    assert (a.x - b.x) * (a.x - b.x) + (a.y - b.y) * (a.y - b.y) == d * d;
    assert t * d == reach;
    assert (t * t) * (d * d) == (t * d) * (t * d);
  }

  // ---------------------------------------------------------------------
  // Mass bookkeeping of a pass

  /** The mass a body still stands for during a pass: a destroyed body that
      can fragment has handed its mass on to its fragments; any other body,
      live or destroyed, keeps it. */
  function Weight(b: BodyState): real
  {
    if b.dead && Fragmentable(b) then 0.0 else b.mass
  }

  function Ledger(s: seq<BodyState>): real
  {
    if s == [] then 0.0 else Ledger(s[..|s| - 1]) + Weight(s[|s| - 1])
  }

  lemma {:induction false} LedgerUpdate(s: seq<BodyState>, k: nat, v: BodyState)
    requires k < |s|
    ensures Ledger(s[k := v]) == Ledger(s) - Weight(s[k]) + Weight(v)
  {
    var n := |s| - 1;
    if k < n {
      assert s[k := v][..n] == s[..n][k := v];
      LedgerUpdate(s[..n], k, v);
    } else {
      assert s[k := v][..n] == s[..n];
    }
  }

  /** The mass of destroyed bodies too small or too light to fragment: it
      leaves the simulation. */
  function Debris(s: seq<BodyState>): real
  {
    if s == [] then 0.0
    else Debris(s[..|s| - 1]) + (if s[|s| - 1].dead && !Fragmentable(s[|s| - 1]) then s[|s| - 1].mass else 0.0)
  }

  /** bodies.filter(b => !b.dead), on states. */
  function AliveStates(s: seq<BodyState>): (r: seq<BodyState>)
    ensures |r| <= |s|
    ensures forall k :: 0 <= k < |r| ==> !r[k].dead && r[k] in s
    ensures PositiveMasses(s) ==> PositiveMasses(r)
  {
    if s == [] then []
    else AliveStates(s[..|s| - 1]) + (if s[|s| - 1].dead then [] else [s[|s| - 1]])
  }

  /** The indices the filter keeps, in increasing order: exactly the live ones. */
  function Kept(s: seq<BodyState>): (ks: seq<nat>)
    ensures forall t :: 0 <= t < |ks| ==> ks[t] < |s| && !s[ks[t]].dead
    ensures forall t, u :: 0 <= t < u < |ks| ==> ks[t] < ks[u]
    ensures forall k :: 0 <= k < |s| && !s[k].dead ==> k in ks
  {
    if s == [] then []
    else Kept(s[..|s| - 1]) + (if s[|s| - 1].dead then [] else [|s| - 1])
  }

  /** Extending the scanned prefix by one state extends the kept indices by
      its index exactly when it is live. */
  lemma KeptStep(s: seq<BodyState>, k: nat)
    requires k < |s|
    ensures Kept(s[..k + 1]) == Kept(s[..k]) + (if s[k].dead then [] else [k])
  {
    assert s[..k + 1][..k] == s[..k];
  }

  /** The filter keeps the states at the kept indices, in order. */
  lemma {:induction false} KeptSelects(s: seq<BodyState>)
    ensures |Kept(s)| == |AliveStates(s)|
    ensures forall t :: 0 <= t < |Kept(s)| ==> AliveStates(s)[t] == s[Kept(s)[t]]
  {
    if s != [] {
      var n := |s| - 1;
      KeptSelects(s[..n]);
      var ks, alive := Kept(s[..n]), AliveStates(s[..n]);
      assert Kept(s) == ks + (if s[n].dead then [] else [n]);
      assert AliveStates(s) == alive + (if s[n].dead then [] else [s[n]]);
      forall t | 0 <= t < |ks|
        ensures AliveStates(s)[t] == s[Kept(s)[t]]
      {
        assert ks[t] < n && alive[t] == s[..n][ks[t]];
      }
    }
  }

  /** A pass's ledger is the live mass plus the debris. */
  lemma {:induction false} LedgerSplits(s: seq<BodyState>)
    ensures Ledger(s) == MassOf(AliveStates(s)) + Debris(s)
  {
    if s != [] {
      var n := |s| - 1;
      LedgerSplits(s[..n]);
      MassOfAppend(AliveStates(s[..n]), if s[n].dead then [] else [s[n]]);
      assert MassOf([s[n]]) == s[n].mass by {
        assert [s[n]][..0] == [];
      }
    }
  }

  /** Before a pass, when every body is alive, the ledger is the total mass. */
  lemma {:induction false} LedgerOfLiving(s: seq<BodyState>)
    requires forall k :: 0 <= k < |s| ==> !s[k].dead
    ensures Ledger(s) == MassOf(s)
  {
    if s != [] {
      LedgerOfLiving(s[..|s| - 1]);
    }
  }

  /** Debris never weighs less than nothing. */
  lemma {:induction false} DebrisNonNegative(s: seq<BodyState>)
    requires PositiveMasses(s)
    ensures Debris(s) >= 0.0
  {
    if s != [] {
      DebrisNonNegative(s[..|s| - 1]);
    }
  }

  // ---------------------------------------------------------------------
  // One iteration of the nested loops

  /** The state of a pass: the body states, the fragments created so far and
      the number of the next unused Math.random draw. */
  datatype Pass = Pass(states: seq<BodyState>, fragments: seq<BodyState>, cursor: nat)

  /** The pair (i, j) is examined: two different live bodies that collide. */
  predicate Hit(s: seq<BodyState>, i: nat, j: nat, sqrt: real -> real)
    requires i < |s| && j < |s|
  {
    i != j && !s[i].dead && !s[j].dead && Collides(s[i], s[j], sqrt)
  }

  /** What a pass may do to one body: mass, radius, colour and trail stay;
      a destroyed body is never touched again; a body that ends alive was
      alive and has not moved. */
  predicate Persists(a: BodyState, b: BodyState)
  {
    b.mass == a.mass && b.radius == a.radius && b.color == a.color && b.trail == a.trail &&
    (a.dead ==> b == a) &&
    (!b.dead ==> !a.dead && b.x == a.x && b.y == a.y)
  }

  /** A fragment as handleCollisions appends it: newborn, with positive
      mass and at least MIN_RADIUS across. */
  predicate Viable(f: BodyState)
  {
    Newborn(f) && f.mass > 0.0 && f.radius >= MIN_RADIUS
  }

  predicate AllViable(fs: seq<BodyState>)
  {
    forall k :: 0 <= k < |fs| ==> Viable(fs[k])
  }

  lemma AllViableAppend(a: seq<BodyState>, b: seq<BodyState>)
    requires AllViable(a) && AllViable(b)
    ensures AllViable(a + b)
  {
  }

  /** The fragments of two destroyed bodies: those of the first when it is
      fragmentable, then those of the second when it is. */
  function Shatter(b1: BodyState, b2: BodyState, random: nat -> Unit, c: nat): (r: (seq<BodyState>, nat))
    ensures r.1 >= c
    ensures !Fragmentable(b1) && !Fragmentable(b2) ==> r == ([], c)
    ensures Fragmentable(b1) ==> var first := Split(b1, random, c);
      |first.0| <= |r.0| && r.0[..|first.0|] == first.0 &&
      (Fragmentable(b2) ==> r == (first.0 + Split(b2, random, first.1).0, Split(b2, random, first.1).1)) &&
      (!Fragmentable(b2) ==> r == first)
    ensures !Fragmentable(b1) && Fragmentable(b2) ==> r == Split(b2, random, c)
  {
    var split1 := if Fragmentable(b1) then Split(b1, random, c) else ([], c);
    var split2 := if Fragmentable(b2) then Split(b2, random, split1.1) else ([], split1.1);
    assert split1.0 + [] == split1.0 && [] + split2.0 == split2.0;
    (split1.0 + split2.0, split2.1)
  }

  /** One body's share of a shatter: its fragments when it is fragmentable,
      nothing otherwise. */
  lemma MaybeSplitFacts(b: BodyState, random: nat -> Unit, c: nat)
    requires b.mass > 0.0
    ensures var p := if Fragmentable(b) then Split(b, random, c) else ([], c);
      MassOf(p.0) == (if Fragmentable(b) then b.mass else 0.0) && AllViable(p.0)
  {
    if Fragmentable(b) {
      SplitKeepsMass(b, random, c);
      SplitShrinks(b, random, c);
    }
  }

  /** Each fragmentable body hands on its whole mass, the others nothing;
      every fragment is viable. */
  lemma ShatterFragments(b1: BodyState, b2: BodyState, random: nat -> Unit, c: nat)
    requires b1.mass > 0.0 && b2.mass > 0.0
    ensures MassOf(Shatter(b1, b2, random, c).0) ==
      (if Fragmentable(b1) then b1.mass else 0.0) + (if Fragmentable(b2) then b2.mass else 0.0)
    ensures !Fragmentable(b1) && !Fragmentable(b2) ==> Shatter(b1, b2, random, c).0 == []
    ensures AllViable(Shatter(b1, b2, random, c).0)
  {
    var split1 := if Fragmentable(b1) then Split(b1, random, c) else ([], c);
    var split2 := if Fragmentable(b2) then Split(b2, random, split1.1) else ([], split1.1);
    MaybeSplitFacts(b1, random, c);
    MaybeSplitFacts(b2, random, split1.1);
    MassOfAppend(split1.0, split2.0);
    AllViableAppend(split1.0, split2.0);
  }

  /** The inner-loop body of handleCollisions for the pair (i, j): a pair
      that is not two different live colliding bodies is skipped; two small
      bodies bounce; otherwise both are pushed apart and destroyed, and each
      fragmentable one is split, the first before the second. */
  function ResolvePair(s: seq<BodyState>, i: nat, j: nat, math: MathLib, c: nat): (r: Pass)
    requires i < |s| && j < |s| && PositiveMasses(s)
    ensures |r.states| == |s| && r.cursor >= c && PositiveMasses(r.states)
  {
    if !Hit(s, i, j, math.sqrt) then Pass(s, [], c)
    else if Small(s[i]) && Small(s[j]) then
      var p := Bounce(s[i], s[j], math.sqrt);
      Pass(s[i := p.0][j := p.1], [], c)
    else
      var p := PushApart(s[i], s[j], math.sqrt);
      var b1 := p.0.(dead := true);
      var b2 := p.1.(dead := true);
      var shards := Shatter(b1, b2, math.random, c);
      Pass(s[i := b1][j := b2], shards.0, shards.1)
  }

  /** What resolving a pair does: the bodies persist and only the pair
      changes; a miss changes nothing, two small bodies bounce, anything
      else pushes both apart, destroys them and shatters them. */
  lemma ResolvePairCases(s: seq<BodyState>, i: nat, j: nat, math: MathLib, c: nat)
    requires i < |s| && j < |s| && PositiveMasses(s)
    ensures var r := ResolvePair(s, i, j, math, c);
      (forall k :: 0 <= k < |s| ==> Persists(s[k], r.states[k])) &&
      (forall k :: 0 <= k < |s| && k != i && k != j ==> r.states[k] == s[k]) &&
      (!Hit(s, i, j, math.sqrt) ==> r == Pass(s, [], c)) &&
      (Hit(s, i, j, math.sqrt) && Small(s[i]) && Small(s[j]) ==>
        (r.states[i], r.states[j]) == Bounce(s[i], s[j], math.sqrt) && r.fragments == [] && r.cursor == c) &&
      (Hit(s, i, j, math.sqrt) && !(Small(s[i]) && Small(s[j])) ==>
        r.states[i].dead && r.states[j].dead &&
        (r.states[i].(dead := false), r.states[j].(dead := false)) == PushApart(s[i], s[j], math.sqrt) &&
        (r.fragments, r.cursor) == Shatter(r.states[i], r.states[j], math.random, c))
  {
  }

  /** A destroyed body hands on its whole mass when it is fragmentable and
      nothing otherwise; every fragment is viable. */
  lemma ResolvePairFragments(s: seq<BodyState>, i: nat, j: nat, math: MathLib, c: nat)
    requires i < |s| && j < |s| && PositiveMasses(s)
    ensures var r := ResolvePair(s, i, j, math, c);
      var destroyed := Hit(s, i, j, math.sqrt) && !(Small(s[i]) && Small(s[j]));
      MassOf(r.fragments) ==
        (if destroyed && Fragmentable(s[i]) then s[i].mass else 0.0) +
        (if destroyed && Fragmentable(s[j]) then s[j].mass else 0.0)
    ensures !Fragmentable(s[i]) && !Fragmentable(s[j]) ==> ResolvePair(s, i, j, math, c).fragments == []
    ensures AllViable(ResolvePair(s, i, j, math, c).fragments)
  {
    var r := ResolvePair(s, i, j, math, c);
    ResolvePairCases(s, i, j, math, c);
    if Hit(s, i, j, math.sqrt) && !(Small(s[i]) && Small(s[j])) {
      ShatterFragments(r.states[i], r.states[j], math.random, c);
    }
  }

  /** Resolving a pair keeps the ledger: what a destroyed body stops
      standing for is exactly what its fragments weigh. */
  lemma ResolvePairLedger(s: seq<BodyState>, i: nat, j: nat, math: MathLib, c: nat)
    requires i < |s| && j < |s| && PositiveMasses(s)
    ensures var r := ResolvePair(s, i, j, math, c);
      Ledger(r.states) + MassOf(r.fragments) == Ledger(s)
  {
    var r := ResolvePair(s, i, j, math, c);
    ResolvePairFragments(s, i, j, math, c);
    ResolvePairCases(s, i, j, math, c);
    if Hit(s, i, j, math.sqrt) {
      var t := s[i := r.states[i]];
      assert r.states == t[j := r.states[j]];
      LedgerUpdate(s, i, r.states[i]);
      LedgerUpdate(t, j, r.states[j]);
    }
  }

  // ---------------------------------------------------------------------
  // The whole pass

  /** Bodies p and q are not a live overlapping pair unless both are small. */
  predicate PairSettled(s: seq<BodyState>, p: nat, q: nat, sqrt: real -> real)
    requires p < |s| && q < |s|
  {
    p != q && !s[p].dead && !s[q].dead && Collides(s[p], s[q], sqrt) ==>
      Small(s[p]) && Small(s[q])
  }

  /** Every pair the nested loops visit before (i, j) is settled. */
  predicate Settled(s: seq<BodyState>, i: nat, j: nat, sqrt: real -> real)
  {
    forall p, q :: 0 <= p < |s| && 0 <= q < |s| && (p < i || (p == i && q < j)) ==>
      PairSettled(s, p, q, sqrt)
  }

  /** Whether two bodies collide depends only on their positions and radii,
      which stay put while they live. */
  lemma CollidesPersists(a: BodyState, a': BodyState, b: BodyState, b': BodyState, sqrt: real -> real)
    requires Persists(a, a') && Persists(b, b') && !a'.dead && !b'.dead
    ensures Collides(a', b', sqrt) == Collides(a, b, sqrt)
  {
    assert SquaredDistance(a', b') == SquaredDistance(a, b);
  }

  /** Resolving the pair (i, j) extends the settled region by that pair. */
  lemma SettledStep(s: seq<BodyState>, i: nat, j: nat, math: MathLib, c: nat)
    requires i < |s| && j < |s| && PositiveMasses(s)
    requires Settled(s, i, j, math.sqrt)
    ensures Settled(ResolvePair(s, i, j, math, c).states, i, j + 1, math.sqrt)
  {
    var t := ResolvePair(s, i, j, math, c).states;
    ResolvePairCases(s, i, j, math, c);
    forall p, q | 0 <= p < |t| && 0 <= q < |t| && (p < i || (p == i && q < j + 1))
      ensures PairSettled(t, p, q, math.sqrt)
    {
      if p != q && !t[p].dead && !t[q].dead && (p != i || q != j || Hit(s, i, j, math.sqrt)) {
        assert PairSettled(s, p, q, math.sqrt) || (p == i && q == j);
        CollidesPersists(s[p], t[p], s[q], t[q], math.sqrt);
      }
    }
  }

  /** Finishing row i is starting row i + 1. */
  lemma SettledNextRow(s: seq<BodyState>, i: nat, sqrt: real -> real)
    requires Settled(s, i, |s|, sqrt)
    ensures Settled(s, i + 1, 0, sqrt)
  {
  }

  /** The nested loops of handleCollisions from the pair (i, j) on, with
      the fragments `frags` collected so far. Every body persists, and the
      fragments collected so far stay in front. */
  function Scan(s: seq<BodyState>, i: nat, j: nat, frags: seq<BodyState>, math: MathLib, c: nat): (r: Pass)
    requires i <= |s| && j <= |s| && PositiveMasses(s)
    decreases |s| - i, |s| - j
    ensures |r.states| == |s| && r.cursor >= c
  {
    if i == |s| then Pass(s, frags, c)
    else if j == |s| then Scan(s, i + 1, 0, frags, math, c)
    else
      var r := ResolvePair(s, i, j, math, c);
      Scan(r.states, i, j + 1, frags + r.fragments, math, r.cursor)
  }

  /** Every body persists through a scan, so masses stay positive. */
  lemma {:induction false} ScanPersists(s: seq<BodyState>, i: nat, j: nat, frags: seq<BodyState>, math: MathLib, c: nat)
    requires i <= |s| && j <= |s| && PositiveMasses(s)
    decreases |s| - i, |s| - j
    ensures var t := Scan(s, i, j, frags, math, c).states;
      PositiveMasses(t) && forall k :: 0 <= k < |s| ==> Persists(s[k], t[k])
  {
    if i < |s| {
      if j == |s| {
        ScanNextRow(s, i, frags, math, c);
        ScanPersists(s, i + 1, 0, frags, math, c);
      } else {
        var r := ResolvePair(s, i, j, math, c);
        PersistsScanStep(s, i, j, frags, math, c);
        ScanPersists(r.states, i, j + 1, frags + r.fragments, math, r.cursor);
        var t := Scan(r.states, i, j + 1, frags + r.fragments, math, r.cursor).states;
        forall k | 0 <= k < |s|
          ensures Persists(s[k], t[k])
        {
          PersistsTrans(s[k], r.states[k], t[k]);
        }
      }
    } else {
      assert Scan(s, i, j, frags, math, c).states == s;
    }
  }

  /** Persisting through two passes is persisting through both. */
  lemma PersistsTrans(a: BodyState, b: BodyState, c: BodyState)
    requires Persists(a, b) && Persists(b, c)
    ensures Persists(a, c)
  {
  }

  /** One step of a scan: every body persists through the pair resolved. */
  lemma PersistsScanStep(s: seq<BodyState>, i: nat, j: nat, frags: seq<BodyState>, math: MathLib, c: nat)
    requires i < |s| && j < |s| && PositiveMasses(s)
    ensures var r := ResolvePair(s, i, j, math, c);
      PositiveMasses(r.states) && (forall k :: 0 <= k < |s| ==> Persists(s[k], r.states[k])) &&
      Scan(s, i, j, frags, math, c) == Scan(r.states, i, j + 1, frags + r.fragments, math, r.cursor)
  {
    ScanStep(s, i, j, frags, math, c);
    ResolvePairCases(s, i, j, math, c);
  }

  /** A scan only appends to the fragments collected so far. */
  lemma {:induction false} ScanAppends(s: seq<BodyState>, i: nat, j: nat, frags: seq<BodyState>, math: MathLib, c: nat)
    requires i <= |s| && j <= |s| && PositiveMasses(s)
    decreases |s| - i, |s| - j
    ensures var f := Scan(s, i, j, frags, math, c).fragments;
      |frags| <= |f| && f[..|frags|] == frags
  {
    if i < |s| {
      if j == |s| {
        ScanNextRow(s, i, frags, math, c);
        ScanAppends(s, i + 1, 0, frags, math, c);
      } else {
        var r := ResolvePair(s, i, j, math, c);
        ScanStep(s, i, j, frags, math, c);
        ScanAppends(r.states, i, j + 1, frags + r.fragments, math, r.cursor);
        var f := Scan(r.states, i, j + 1, frags + r.fragments, math, r.cursor).fragments;
        assert f[..|frags|] == f[..|frags + r.fragments|][..|frags|];
      }
    } else {
      assert Scan(s, i, j, frags, math, c).fragments == frags;
    }
  }

  /** Resolving (i, j) and scanning on from (i, j + 1) is scanning from (i, j). */
  lemma ScanStep(s: seq<BodyState>, i: nat, j: nat, frags: seq<BodyState>, math: MathLib, c: nat)
    requires i < |s| && j < |s| && PositiveMasses(s)
    ensures var r := ResolvePair(s, i, j, math, c);
      PositiveMasses(r.states) &&
      Scan(s, i, j, frags, math, c) == Scan(r.states, i, j + 1, frags + r.fragments, math, r.cursor)
  {
  }

  /** Finishing row i of a scan is starting row i + 1. */
  lemma ScanNextRow(s: seq<BodyState>, i: nat, frags: seq<BodyState>, math: MathLib, c: nat)
    requires i < |s| && PositiveMasses(s)
    ensures Scan(s, i, |s|, frags, math, c) == Scan(s, i + 1, 0, frags, math, c)
  {
  }

  /** The fragments a scan adds are viable. */
  lemma {:induction false} ScanFragments(s: seq<BodyState>, i: nat, j: nat, frags: seq<BodyState>, math: MathLib, c: nat)
    requires i <= |s| && j <= |s| && PositiveMasses(s)
    decreases |s| - i, |s| - j
    ensures var f := Scan(s, i, j, frags, math, c).fragments;
      forall k :: |frags| <= k < |f| ==> Viable(f[k])
  {
    if i < |s| {
      if j == |s| {
        ScanNextRow(s, i, frags, math, c);
        ScanFragments(s, i + 1, 0, frags, math, c);
      } else {
        var r := ResolvePair(s, i, j, math, c);
        var g := frags + r.fragments;
        ViableScanStep(s, i, j, frags, math, c);
        ScanFragments(r.states, i, j + 1, g, math, r.cursor);
        ScanAppends(r.states, i, j + 1, g, math, r.cursor);
        ViableTail(frags, r.fragments, Scan(r.states, i, j + 1, g, math, r.cursor).fragments);
      }
    } else {
      assert Scan(s, i, j, frags, math, c).fragments == frags;
    }
  }

  /** One step of a scan adds only viable fragments. */
  lemma ViableScanStep(s: seq<BodyState>, i: nat, j: nat, frags: seq<BodyState>, math: MathLib, c: nat)
    requires i < |s| && j < |s| && PositiveMasses(s)
    ensures var r := ResolvePair(s, i, j, math, c);
      PositiveMasses(r.states) && AllViable(r.fragments) &&
      Scan(s, i, j, frags, math, c) == Scan(r.states, i, j + 1, frags + r.fragments, math, r.cursor)
  {
    ScanStep(s, i, j, frags, math, c);
    ResolvePairFragments(s, i, j, math, c);
  }

  /** A list that starts with frags + extra, where extra and everything after
      it is viable, is viable from |frags| on. */
  lemma ViableTail(frags: seq<BodyState>, extra: seq<BodyState>, f: seq<BodyState>)
    requires |frags + extra| <= |f| && f[..|frags + extra|] == frags + extra
    requires AllViable(extra) && forall k :: |frags + extra| <= k < |f| ==> Viable(f[k])
    ensures forall k :: |frags| <= k < |f| ==> Viable(f[k])
  {
    var g := frags + extra;
    forall k | |frags| <= k < |g|
      ensures Viable(f[k])
    {
      assert f[k] == f[..|g|][k] == extra[k - |frags|];
    }
  }

  /** A scan keeps the ledger plus the mass of the collected fragments. */
  lemma {:induction false} ScanLedger(s: seq<BodyState>, i: nat, j: nat, frags: seq<BodyState>, math: MathLib, c: nat)
    requires i <= |s| && j <= |s| && PositiveMasses(s)
    decreases |s| - i, |s| - j
    ensures var r := Scan(s, i, j, frags, math, c);
      Ledger(r.states) + MassOf(r.fragments) == Ledger(s) + MassOf(frags)
  {
    if i < |s| {
      if j == |s| {
        ScanNextRow(s, i, frags, math, c);
        ScanLedger(s, i + 1, 0, frags, math, c);
      } else {
        var r := ResolvePair(s, i, j, math, c);
        ScanStep(s, i, j, frags, math, c);
        ResolvePairLedger(s, i, j, math, c);
        MassOfAppend(frags, r.fragments);
        ScanLedger(r.states, i, j + 1, frags + r.fragments, math, r.cursor);
      }
    }
  }

  /** One step of a settled scan stays settled one pair further on. */
  lemma SettledScanStep(s: seq<BodyState>, i: nat, j: nat, frags: seq<BodyState>, math: MathLib, c: nat)
    requires i < |s| && j < |s| && PositiveMasses(s)
    requires Settled(s, i, j, math.sqrt)
    ensures var r := ResolvePair(s, i, j, math, c);
      PositiveMasses(r.states) && Settled(r.states, i, j + 1, math.sqrt) &&
      Scan(s, i, j, frags, math, c) == Scan(r.states, i, j + 1, frags + r.fragments, math, r.cursor)
  {
    ScanStep(s, i, j, frags, math, c);
    SettledStep(s, i, j, math, c);
  }

  /** A scan that starts settled ends with every pair settled. */
  lemma {:induction false} ScanSettles(s: seq<BodyState>, i: nat, j: nat, frags: seq<BodyState>, math: MathLib, c: nat)
    requires i <= |s| && j <= |s| && PositiveMasses(s)
    requires Settled(s, i, j, math.sqrt)
    decreases |s| - i, |s| - j
    ensures Settled(Scan(s, i, j, frags, math, c).states, |s|, 0, math.sqrt)
  {
    if i < |s| {
      if j == |s| {
        ScanNextRow(s, i, frags, math, c);
        SettledNextRow(s, i, math.sqrt);
        ScanSettles(s, i + 1, 0, frags, math, c);
      } else {
        var r := ResolvePair(s, i, j, math, c);
        SettledScanStep(s, i, j, frags, math, c);
        ScanSettles(r.states, i, j + 1, frags + r.fragments, math, r.cursor);
      }
    } else {
      assert Scan(s, i, j, frags, math, c).states == s;
    }
  }

  /** handleCollisions on states, before the filter. */
  function Collide(s: seq<BodyState>, math: MathLib, c: nat): Pass
    requires PositiveMasses(s)
  {
    Scan(s, 0, 0, [], math, c)
  }

  /** handleCollisions on states: the survivors in their order, then every
      fragment, and the number of the next unused Math.random draw. */
  function Collided(s: seq<BodyState>, math: MathLib, c: nat): (r: (seq<BodyState>, nat))
    requires PositiveMasses(s)
    ensures forall k :: 0 <= k < |r.0| ==> !r.0[k].dead && r.0[k].mass > 0.0
  {
    var p := Collide(s, math, c);
    ScanPersists(s, 0, 0, [], math, c);
    ScanFragments(s, 0, 0, [], math, c);
    (AliveStates(p.states) + p.fragments, p.cursor)
  }

  /** When every body starts alive, handleCollisions keeps the total mass,
      except for the debris of destroyed bodies that could not fragment; it
      never creates mass. */
  lemma CollidedMass(s: seq<BodyState>, math: MathLib, c: nat)
    requires PositiveMasses(s)
    requires forall k :: 0 <= k < |s| ==> !s[k].dead
    ensures var debris := Debris(Collide(s, math, c).states);
      MassOf(Collided(s, math, c).0) + debris == MassOf(s) && debris >= 0.0
  {
    var p := Collide(s, math, c);
    ScanLedger(s, 0, 0, [], math, c);
    ScanPersists(s, 0, 0, [], math, c);
    LedgerOfLiving(s);
    LedgerSplits(p.states);
    MassOfAppend(AliveStates(p.states), p.fragments);
    DebrisNonNegative(p.states);
  }

  /** Every body handleCollisions returns is a viable fragment, or an input
      body that persisted through the pass. */
  lemma CollidedOrigins(s: seq<BodyState>, math: MathLib, c: nat)
    requires PositiveMasses(s)
    ensures forall b :: b in Collided(s, math, c).0 ==>
      Viable(b) || exists k :: 0 <= k < |s| && Persists(s[k], b)
  {
    var p := Collide(s, math, c);
    ScanPersists(s, 0, 0, [], math, c);
    ScanFragments(s, 0, 0, [], math, c);
    var alive := AliveStates(p.states);
    forall b | b in Collided(s, math, c).0
      ensures Viable(b) || exists k :: 0 <= k < |s| && Persists(s[k], b)
    {
      if b in alive {
        var k :| 0 <= k < |p.states| && p.states[k] == b;
        assert Persists(s[k], b);
      } else {
        assert b in p.fragments;
      }
    }
  }

  // ---------------------------------------------------------------------
  // handleCollisions on Body objects

  /** The push-apart step of handleCollisions, in place. */
  method PushApartBodies(b1: Body, b2: Body, sqrt: real -> real)
    requires b1 != b2
    modifies b1, b2
    ensures (b1.State(), b2.State()) == PushApart(old(b1.State()), old(b2.State()), sqrt)
  {
    ghost var r := PushApart(b1.State(), b2.State(), sqrt);
    var dist := b1.DistanceTo(b2, sqrt);
    var overlap := Reach(b1.State(), b2.State()) - dist;
    if overlap > 0.0 && dist != 0.0 {
      var pushDist := overlap / 2.0;
      var dx := (b1.x - b2.x) / dist;
      var dy := (b1.y - b2.y) / dist;
      var x1, y1 := b1.x + pushDist * dx, b1.y + pushDist * dy;
      var x2, y2 := b2.x - pushDist * dx, b2.y - pushDist * dy;
      b1.x, b1.y := x1, y1;
      b2.x, b2.y := x2, y2;
      assert b1.State() == r.0 && b2.State() == r.1;
    }
  }

  /** The splitting step of handleCollisions: the fragments of b1 when it
      is fragmentable, then those of b2 when it is. */
  method ShatterBodies(b1: Body, b2: Body, random: nat -> Unit, c: nat) returns (fragments: seq<Body>, next: nat)
    ensures (Snap(fragments), next) == Shatter(b1.State(), b2.State(), random, c)
    ensures Distinct(fragments) && forall f :: f in fragments ==> fresh(f)
  {
    fragments, next := [], c;
    if b1.radius > MIN_RADIUS && b1.mass > MIN_MASS {
      fragments, next := SplitBody(b1, random, next);
    }
    ghost var first := Snap(fragments);
    if b2.radius > MIN_RADIUS && b2.mass > MIN_MASS {
      var more;
      more, next := SplitBody(b2, random, next);
      forall p, q | 0 <= p < |fragments| && 0 <= q < |more|
        ensures fragments[p] != more[q]
      {
        assert more[q] in more;
      }
      DistinctAppend(fragments, more);
      SnapAppend(fragments, more);
      fragments := fragments + more;
      forall f | f in fragments
        ensures fresh(f)
      {
        assert f in fragments[..|fragments| - |more|] || f in more;
      }
    } else {
      assert Snap(fragments) == first + [];
    }
  }

  /** One iteration of the nested loops, in place on bodies[i] and
      bodies[j]; returns the new fragment objects. */
  method ResolvePairAt(bodies: seq<Body>, i: nat, j: nat, math: MathLib, c: nat) returns (fragments: seq<Body>, next: nat)
    requires i < |bodies| && j < |bodies| && Distinct(bodies)
    requires PositiveMasses(Snap(bodies))
    modifies bodies[i], bodies[j]
    ensures var r := ResolvePair(old(Snap(bodies)), i, j, math, c);
      Snap(bodies) == r.states && Snap(fragments) == r.fragments && next == r.cursor
    ensures Distinct(fragments) && forall f :: f in fragments ==> fresh(f)
  {
    ghost var s := Snap(bodies);
    ghost var r := ResolvePair(s, i, j, math, c);
    ResolvePairCases(s, i, j, math, c);
    fragments, next := [], c;
    if i != j && !bodies[i].dead && !bodies[j].dead {
      if bodies[i].CollidesWith(bodies[j], math.sqrt) {
        var b1 := bodies[i];
        var b2 := bodies[j];
        assert Hit(s, i, j, math.sqrt);
        if b1.radius <= MIN_RADIUS && b2.radius <= MIN_RADIUS {
          b1.BounceOff(b2, math.sqrt);
        } else {
          PushApartBodies(b1, b2, math.sqrt);
          b1.dead := true;
          b2.dead := true;
          fragments, next := ShatterBodies(b1, b2, math.random, next);
        }
        assert b1.State() == r.states[i] && b2.State() == r.states[j];
        forall k | 0 <= k < |bodies|
          ensures bodies[k].State() == r.states[k]
        {
          if k != i && k != j {
            assert bodies[k] != b1 && bodies[k] != b2;
          }
        }
      }
    }
  }

  /** ResolvePairAt as one step of the scan, appending the new fragment
      objects to `added`. The bodies' states are `st` before the step and
      `st'` after it; `got` holds the states of the fragments collected
      before the pair (i, j), the objects in `added`. */
  method ResolveCell(bodies: seq<Body>, i: nat, j: nat, ghost st: seq<BodyState>,
                     added: seq<Body>, ghost got: seq<BodyState>, math: MathLib, c: nat)
    returns (more: seq<Body>, next: nat, ghost st': seq<BodyState>, ghost got': seq<BodyState>)
    requires i < |bodies| && j < |bodies| && Distinct(bodies)
    requires Snap(bodies) == st && PositiveMasses(st)
    requires Snap(added) == got && Distinct(added) && forall f :: f in added ==> f !in bodies
    modifies bodies[i], bodies[j]
    ensures Snap(bodies) == st' && PositiveMasses(st') && Snap(more) == got'
    ensures Scan(st', i, j + 1, got', math, next) == Scan(st, i, j, got, math, c)
    ensures Distinct(more) && forall f :: f in more ==> f in added || fresh(f)
  {
    ScanStep(st, i, j, got, math, c);
    var fragments;
    fragments, next := ResolvePairAt(bodies, i, j, math, c);
    st' := Snap(bodies);
    forall k | 0 <= k < |added|
      ensures added[k].State() == got[k]
    {
      assert added[k] in added;
    }
    forall p, q | 0 <= p < |added| && 0 <= q < |fragments|
      ensures added[p] != fragments[q]
    {
      assert fragments[q] in fragments && added[p] in added;
    }
    DistinctAppend(added, fragments);
    SnapAppend(added, fragments);
    more := added + fragments;
    got' := got + Snap(fragments);
    forall f | f in more
      ensures f in added || fresh(f)
    {
      assert f in added || f in fragments;
    }
  }

  /** The inner loop of handleCollisions for row i: resolves the pairs
      (i, 0), ..., (i, |bodies| - 1) in place and appends the fragment
      objects they create to `done`. The bodies' states are `st0` before
      the row and `st` after it; `frags` and `got` are the states of the
      fragments before and after the row. */
  method ResolveRow(bodies: seq<Body>, i: nat, ghost st0: seq<BodyState>, done: seq<Body>, ghost frags: seq<BodyState>, math: MathLib, c: nat)
    returns (added: seq<Body>, next: nat, ghost st: seq<BodyState>, ghost got: seq<BodyState>)
    requires i < |bodies| && Distinct(bodies) && Snap(bodies) == st0 && PositiveMasses(st0)
    requires Snap(done) == frags && Distinct(done) && forall f :: f in done ==> f !in bodies
    modifies set b | b in bodies
    ensures Snap(bodies) == st && PositiveMasses(st) && Snap(added) == got
    ensures Scan(st, i + 1, 0, got, math, next) == Scan(st0, i, 0, frags, math, c)
    ensures Distinct(added) && forall f :: f in added ==> f in done || fresh(f)
  {
    st, got := st0, frags;
    added, next := done, c;
    for j := 0 to |bodies|
      invariant Snap(bodies) == st && PositiveMasses(st)
      invariant Scan(st, i, j, got, math, next) == Scan(st0, i, 0, frags, math, c)
      invariant Snap(added) == got && Distinct(added)
      invariant forall f :: f in added ==> f in done || fresh(f)
    {
      assert forall f :: f in added ==> f !in bodies;
      added, next, st, got := ResolveCell(bodies, i, j, st, added, got, math, next);
    }
    ScanNextRow(st, i, got, math, next);
  }

  /** The nested loops of handleCollisions: resolves every ordered pair in
      place and returns the new fragment objects. */
  method ResolveAll(bodies: seq<Body>, math: MathLib, c: nat) returns (newBodies: seq<Body>, next: nat)
    requires Distinct(bodies) && PositiveMasses(Snap(bodies))
    modifies set b | b in bodies
    ensures var p := Collide(old(Snap(bodies)), math, c);
      Snap(bodies) == p.states && Snap(newBodies) == p.fragments && next == p.cursor
    ensures Distinct(newBodies) && forall f :: f in newBodies ==> fresh(f)
  {
    ghost var s0 := Snap(bodies);
    ghost var st, got := s0, [];
    newBodies := [];
    next := c;
    for i := 0 to |bodies|
      invariant Snap(bodies) == st && PositiveMasses(st)
      invariant Scan(st, i, 0, got, math, next) == Collide(s0, math, c)
      invariant Snap(newBodies) == got && Distinct(newBodies)
      invariant forall f :: f in newBodies ==> fresh(f)
    {
      assert forall f :: f in newBodies ==> f !in bodies;
      newBodies, next, st, got := ResolveRow(bodies, i, st, newBodies, got, math, next);
    }
  }

  /** `kept` lists the bodies at the indices `ks`, in that order. */
  predicate Selects(bodies: seq<Body>, kept: seq<Body>, ks: seq<nat>)
  {
    |kept| == |ks| && forall t :: 0 <= t < |ks| ==> ks[t] < |bodies| && kept[t] == bodies[ks[t]]
  }

  /** One more step of the filter: the selection follows the kept indices. */
  lemma SelectsStep(bodies: seq<Body>, s: seq<BodyState>, kept: seq<Body>, k: nat)
    requires k < |bodies| == |s| && Selects(bodies, kept, Kept(s[..k]))
    ensures Selects(bodies, if s[k].dead then kept else kept + [bodies[k]], Kept(s[..k + 1]))
  {
    KeptStep(s, k);
  }

  /** The bodies at the kept indices are distinct and carry the live states. */
  lemma SelectedAlive(bodies: seq<Body>, kept: seq<Body>)
    requires Distinct(bodies) && Selects(bodies, kept, Kept(Snap(bodies)))
    ensures Snap(kept) == AliveStates(Snap(bodies)) && Distinct(kept)
    ensures forall b :: b in kept ==> b in bodies
  {
    var s := Snap(bodies);
    var ks := Kept(s);
    KeptSelects(s);
    forall t, u | 0 <= t < u < |kept|
      ensures kept[t] != kept[u]
    {
      assert ks[t] < ks[u];
    }
  }

  /** bodies.filter(b => !b.dead): the live bodies, in their order. */
  method Survivors(bodies: seq<Body>) returns (kept: seq<Body>)
    requires Distinct(bodies)
    ensures Snap(kept) == AliveStates(Snap(bodies)) && Distinct(kept)
    ensures Selects(bodies, kept, Kept(Snap(bodies)))
    ensures forall b :: b in kept ==> b in bodies
  {
    ghost var s := Snap(bodies);
    kept := [];
    for k := 0 to |bodies|
      invariant Selects(bodies, kept, Kept(s[..k]))
    {
      SelectsStep(bodies, s, kept, k);
      if !bodies[k].dead {
        kept := kept + [bodies[k]];
      }
    }
    assert s[..|bodies|] == s;
    SelectedAlive(bodies, kept);
  }

  /** Survivors drawn from `bodies` followed by bodies from elsewhere: no
      object occurs twice, and every one comes from one of the two. */
  lemma JoinFacts(bodies: seq<Body>, kept: seq<Body>, added: seq<Body>)
    requires Distinct(kept) && Distinct(added)
    requires forall b :: b in kept ==> b in bodies
    requires forall b :: b in added ==> b !in bodies
    ensures Distinct(kept + added) && Snap(kept + added) == Snap(kept) + Snap(added)
    ensures forall b :: b in kept + added ==> b in bodies || b in added
    ensures forall t :: |kept| <= t < |kept + added| ==> (kept + added)[t] in added
  {
    SnapAppend(kept, added);
    forall p, q | 0 <= p < |kept| && 0 <= q < |added|
      ensures kept[p] != added[q]
    {
      assert kept[p] in kept && added[q] in added;
    }
    DistinctAppend(kept, added);
  }

  /** handleCollisions: resolves every ordered pair in place, then returns
      the live bodies in their order followed by the new fragments. */
  method HandleCollisions(bodies: seq<Body>, math: MathLib, c: nat) returns (result: seq<Body>, next: nat)
    requires Distinct(bodies) && PositiveMasses(Snap(bodies))
    modifies set b | b in bodies
    ensures Snap(result) == Collided(old(Snap(bodies)), math, c).0
    ensures next == Collided(old(Snap(bodies)), math, c).1
    ensures Distinct(result)
    ensures var kept := Kept(Collide(old(Snap(bodies)), math, c).states);
      |kept| <= |result| &&
      (forall t :: 0 <= t < |kept| ==> result[t] == bodies[kept[t]]) &&
      (forall t :: |kept| <= t < |result| ==> fresh(result[t]))
    ensures forall b :: b in result ==> b in bodies || fresh(b)
  {
    ghost var p := Collide(Snap(bodies), math, c);
    var newBodies;
    newBodies, next := ResolveAll(bodies, math, c);
    var kept := Survivors(bodies);
    assert forall b :: b in newBodies ==> b !in bodies;
    JoinFacts(bodies, kept, newBodies);
    result := kept + newBodies;
    assert Snap(result) == AliveStates(p.states) + p.fragments;
  }
}
