/** Plane vectors over the reals, sums of vector sequences, and the two host
    services the simulation calls: Math.sqrt and Math.random. */
module Vectors {

  /** A force, a momentum or a position difference in the plane. */
  datatype Vec = Vec(x: real, y: real)

  const Zero: Vec := Vec(0.0, 0.0)

  function Add(a: Vec, b: Vec): Vec {
    Vec(a.x + b.x, a.y + b.y)
  }

  function Neg(a: Vec): Vec {
    Vec(-a.x, -a.y)
  }

  lemma NegAdd(a: Vec, b: Vec)
    ensures Neg(Add(a, b)) == Add(Neg(a), Neg(b))
  {
  }

  function Scale(k: real, a: Vec): Vec {
    Vec(k * a.x, k * a.y)
  }

  /** The sum of a sequence of vectors, accumulated from the left. */
  function Sum(vs: seq<Vec>): Vec
  {
    if vs == [] then Zero else Add(Sum(vs[..|vs| - 1]), vs[|vs| - 1])
  }

  /** Summing a pointwise sum of two sequences is adding their sums. */
  lemma {:induction false} SumPointwise(a: seq<Vec>, b: seq<Vec>, c: seq<Vec>)
    requires |a| == |b| == |c|
    requires forall k :: 0 <= k < |c| ==> c[k] == Add(a[k], b[k])
    ensures Sum(c) == Add(Sum(a), Sum(b))
  {
    if c != [] {
      var n := |c| - 1;
      SumPointwise(a[..n], b[..n], c[..n]);
    }
  }

  /** Summing a scaled sequence is scaling its sum. */
  lemma {:induction false} SumScale(k: real, a: seq<Vec>, b: seq<Vec>)
    requires |a| == |b|
    requires forall i :: 0 <= i < |b| ==> b[i] == Scale(k, a[i])
    ensures Sum(b) == Scale(k, Sum(a))
  {
    if b != [] {
      var n := |b| - 1;
      SumScale(k, a[..n], b[..n]);
    }
  }

  /** Nonlinear step the solver needs spelled out. */
  lemma ProductPositive(a: real, b: real)
    requires a > 0.0 && b > 0.0
    ensures a * b > 0.0
  {
  }

  /** A value returned by Math.random: a real in [0, 1). */
  type Unit = u: real | 0.0 <= u < 1.0

  /** The host's Math.sqrt, and the stream of values Math.random returns,
      numbered by the order in which the program draws them. Nothing is
      assumed of `sqrt`; a lemma that needs a square root says so. */
  datatype MathLib = MathLib(sqrt: real -> real, random: nat -> Unit)

  /** Math.floor(u * k) for a Math.random value u and a positive k. */
  function PickBelow(u: Unit, k: nat): (r: int)
    requires k > 0
    ensures 0 <= r < k
  {
    var kr := k as real;
    ProductPositive(1.0 - u, kr);
    (u * kr).Floor
  }
}
