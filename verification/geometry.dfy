/** The distance test of the setpoint publisher.

    The source computes `sqrt(sum((a - b)**2 for a, b in zip(p, q)))` and
    compares it with `< radius`. `zip` stops at the shorter argument, so only
    paired components contribute. The model keeps the sum of squares exact over
    `real` and replaces `sqrt(s) < radius` by the equivalent test
    `radius > 0 && s < radius * radius` (lemma `EuclideanTest`). */
module Geometry {

  function Sq(x: real): real { x * x }

  function Min(a: nat, b: nat): nat { if a <= b then a else b }

  /** Sum of squared differences over the pairs `zip(a, b)` produces. */
  function SquaredDistance(a: seq<real>, b: seq<real>): (s: real)
    ensures s >= 0.0
  {
    if |a| == 0 || |b| == 0 then 0.0
    else Sq(a[0] - b[0]) + SquaredDistance(a[1..], b[1..])
  }

  /** The strict capture test `sqrt(s) < radius`, without the square root. */
  predicate Inside(s: real, radius: real)
  {
    radius > 0.0 && s < radius * radius
  }

  /** For any non-negative `d` with `d * d == s` (the Euclidean distance),
      `d < radius` holds exactly when `Inside(s, radius)`. */
  lemma EuclideanTest(s: real, d: real, radius: real)
    requires d >= 0.0 && d * d == s
    ensures d < radius <==> Inside(s, radius)
  {
    var dd, dr, rr := d * d, d * radius, radius * radius;
    if d < radius {
      assert radius > 0.0;
      assert dd <= dr < rr;
    } else if radius > 0.0 {
      assert dd >= dr >= rr;
    }
  }

  /** A distance exactly equal to the radius is outside it. */
  lemma BoundaryIsOutside(s: real, d: real, radius: real)
    requires d >= 0.0 && d * d == s && d == radius
    ensures !Inside(s, radius)
  {
  }

  /** Only the first `Min(|a|, |b|)` components of either argument take part. */
  lemma {:induction false} ZipPairsPrefixes(a: seq<real>, b: seq<real>)
    ensures SquaredDistance(a, b)
         == SquaredDistance(a[..Min(|a|, |b|)], b[..Min(|a|, |b|)])
    decreases |a|
  {
    var n := Min(|a|, |b|);
    if |a| != 0 && |b| != 0 {
      ZipPairsPrefixes(a[1..], b[1..]);
      assert a[..n][1..] == a[1..][..n - 1];
      assert b[..n][1..] == b[1..][..n - 1];
    }
  }

  /** Components of `a` beyond the length of `b` never influence the distance:
      a row shorter than the position compares fewer axes. */
  lemma {:induction false} UnpairedAxesIgnored(a: seq<real>, a': seq<real>, b: seq<real>)
    requires |a| >= |b| && |a'| >= |b|
    requires a[..|b|] == a'[..|b|]
    ensures SquaredDistance(a, b) == SquaredDistance(a', b)
    decreases |b|
  {
    if |b| != 0 {
      assert a[0] == a[..|b|][0] == a'[..|b|][0] == a'[0];
      assert a[1..][..|b| - 1] == a[..|b|][1..];
      assert a'[1..][..|b| - 1] == a'[..|b|][1..];
      UnpairedAxesIgnored(a[1..], a'[1..], b[1..]);
    }
  }

  lemma SquarePositive(x: real)
    ensures x != 0.0 ==> Sq(x) > 0.0
  {
    var y := if x > 0.0 then x else -x;
    if x != 0.0 {
      calc {
        Sq(x);
        == y * y;
        > 0.0 * y;
        == 0.0;
      }
    }
  }

  /** The distance is zero exactly when the paired components agree. */
  lemma {:induction false} ZeroDistanceIff(a: seq<real>, b: seq<real>)
    ensures SquaredDistance(a, b) == 0.0 <==> a[..Min(|a|, |b|)] == b[..Min(|a|, |b|)]
    decreases |a|
  {
    var n := Min(|a|, |b|);
    if |a| != 0 && |b| != 0 {
      ZeroDistanceIff(a[1..], b[1..]);
      assert a[..n] == [a[0]] + a[1..][..n - 1];
      assert b[..n] == [b[0]] + b[1..][..n - 1];
      SquarePositive(a[0] - b[0]);
    }
  }

  /** With three paired components the distance is the usual 3-D sum of squares. */
  lemma ThreeAxes(p: seq<real>, q: seq<real>)
    requires |p| == 3 && |q| >= 3
    ensures SquaredDistance(p, q) == Sq(p[0] - q[0]) + Sq(p[1] - q[1]) + Sq(p[2] - q[2])
  {
    var t1 := SquaredDistance(p[1..], q[1..]);
    var t2 := SquaredDistance(p[1..][1..], q[1..][1..]);
    assert SquaredDistance(p[1..][1..][1..], q[1..][1..][1..]) == 0.0;
    assert t2 == Sq(p[2] - q[2]);
    assert t1 == Sq(p[1] - q[1]) + t2;
  }
}
