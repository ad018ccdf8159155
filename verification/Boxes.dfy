/** Oriented boxes of the simulator and their rounded axis-aligned bounds. */
module Boxes {
  import opened Basics

  type Vec = v: seq<real> | |v| == 3 witness [0.0, 0.0, 0.0]
  const ZERO: Vec := [0.0, 0.0, 0.0]

  type Matrix = m: seq<Vec> | |m| == 3 witness [ZERO, ZERO, ZERO]

  /** A collider or a placement region: `center`, `rotation` (its rows) and `half` extents. */
  datatype OrientedBox = OrientedBox(center: Vec, rotation: Matrix, half: Vec)

  datatype Bbox = Bbox(lo: Vec, hi: Vec)

  /** The largest error of rounding to six decimals. */
  const ROUNDING := 0.0000005

  /** `round(x, 6)`: a whole number of millionths. */
  function Round6(x: real): (r: real)
    ensures Abs(x - r) <= ROUNDING && exists n: int :: Millionths(r, n)
  {
    var n := RoundHalfEven(x * 1000000.0);
    assert Millionths(n as real / 1000000.0, n);
    n as real / 1000000.0
  }

  predicate Millionths(r: real, n: int) {
    r * 1000000.0 == n as real
  }

  /** The dot product in three dimensions, written out. */
  function Dot3(a: Vec, b: Vec): real {
    a[0] * b[0] + a[1] * b[1] + a[2] * b[2]
  }

  function AbsVec(a: Vec): Vec {
    [Abs(a[0]), Abs(a[1]), Abs(a[2])]
  }

  function Radius(b: OrientedBox, i: nat): real
    requires i < 3
  {
    Dot3(AbsVec(b.rotation[i]), b.half)
  }

  /** `aabb` */
  function Aabb(b: OrientedBox): Bbox {
    Bbox([Round6(b.center[0] - Radius(b, 0)), Round6(b.center[1] - Radius(b, 1)), Round6(b.center[2] - Radius(b, 2))],
         [Round6(b.center[0] + Radius(b, 0)), Round6(b.center[1] + Radius(b, 1)), Round6(b.center[2] + Radius(b, 2))])
  }

  /** `d` is a point of the box in its own axes. */
  predicate Inside(d: Vec, half: Vec) {
    forall k | 0 <= k < 3 :: -half[k] <= d[k] <= half[k]
  }

  /** Coordinate `i`, in the base frame, of the box point `d`. */
  function Coordinate(b: OrientedBox, d: Vec, i: nat): real
    requires i < 3
  {
    b.center[i] + Dot3(b.rotation[i], d)
  }

  function Point(b: OrientedBox, d: Vec): Vec {
    [Coordinate(b, d, 0), Coordinate(b, d, 1), Coordinate(b, d, 2)]
  }

  lemma TermBound(a: real, d: real, h: real)
    requires -h <= d <= h
    ensures -(Abs(a) * h) <= a * d <= Abs(a) * h
  {
  }

  lemma DotBound(a: Vec, d: Vec, half: Vec)
    requires Inside(d, half)
    ensures -Dot3(AbsVec(a), half) <= Dot3(a, d) <= Dot3(AbsVec(a), half)
  {
    TermBound(a[0], d[0], half[0]);
    TermBound(a[1], d[1], half[1]);
    TermBound(a[2], d[2], half[2]);
  }

  /** Whatever the matrix, every point of the oriented box lies in its bound, up to the rounding. */
  lemma AabbContainsBox(b: OrientedBox, d: Vec, i: nat)
    requires Inside(d, b.half) && i < 3
    ensures Aabb(b).lo[i] - ROUNDING <= Coordinate(b, d, i) <= Aabb(b).hi[i] + ROUNDING
  {
    DotBound(b.rotation[i], d, b.half);
  }

  function Signed(a: real, h: real): real {
    if a < 0.0 then -h else h
  }

  lemma SignedTerm(a: real, h: real)
    requires h >= 0.0
    ensures a * Signed(a, h) == Abs(a) * h
    ensures a * -Signed(a, h) == -(Abs(a) * h)
    ensures -h <= Signed(a, h) <= h
  {
  }

  /** The corner of the box that lies furthest along base axis `i`, and the opposite one. */
  function Corner(b: OrientedBox, i: nat): Vec
    requires i < 3
  {
    var row := b.rotation[i];
    [Signed(row[0], b.half[0]), Signed(row[1], b.half[1]), Signed(row[2], b.half[2])]
  }

  function Opposite(b: OrientedBox, i: nat): Vec
    requires i < 3
  {
    var d := Corner(b, i);
    [-d[0], -d[1], -d[2]]
  }

  lemma CornerInside(b: OrientedBox, i: nat)
    requires i < 3 && forall k | 0 <= k < 3 :: b.half[k] >= 0.0
    ensures Inside(Corner(b, i), b.half) && Inside(Opposite(b, i), b.half)
  {
  }

  lemma CornerReach(b: OrientedBox, i: nat)
    requires i < 3 && forall k | 0 <= k < 3 :: b.half[k] >= 0.0
    ensures Dot3(b.rotation[i], Corner(b, i)) == Radius(b, i)
    ensures Dot3(b.rotation[i], Opposite(b, i)) == -Radius(b, i)
  {
    SignedTerm(b.rotation[i][0], b.half[0]);
    SignedTerm(b.rotation[i][1], b.half[1]);
    SignedTerm(b.rotation[i][2], b.half[2]);
  }

  /** Every face of the bound is touched by a corner of the box, up to the rounding. */
  lemma AabbFacesAttained(b: OrientedBox, i: nat)
    requires i < 3 && forall k | 0 <= k < 3 :: b.half[k] >= 0.0
    ensures Inside(Corner(b, i), b.half) && Inside(Opposite(b, i), b.half)
    ensures Abs(Coordinate(b, Corner(b, i), i) - Aabb(b).hi[i]) <= ROUNDING
    ensures Abs(Coordinate(b, Opposite(b, i), i) - Aabb(b).lo[i]) <= ROUNDING
  {
    CornerInside(b, i);
    CornerReach(b, i);
  }

  // ------------------------------------------------------------------ hulls

  function LowFace(boxes: seq<Bbox>, i: nat): (m: real)
    requires boxes != [] && i < 3
    ensures forall b <- boxes :: m <= b.lo[i]
    ensures exists b <- boxes :: m == b.lo[i]
  {
    if |boxes| == 1 then boxes[0].lo[i] else MinReal(boxes[0].lo[i], LowFace(boxes[1..], i))
  }

  function HighFace(boxes: seq<Bbox>, i: nat): (m: real)
    requires boxes != [] && i < 3
    ensures forall b <- boxes :: b.hi[i] <= m
    ensures exists b <- boxes :: m == b.hi[i]
  {
    if |boxes| == 1 then boxes[0].hi[i] else MaxReal(boxes[0].hi[i], HighFace(boxes[1..], i))
  }

  predicate Covers(outer: Bbox, inner: Bbox) {
    forall i | 0 <= i < 3 :: outer.lo[i] <= inner.lo[i] && inner.hi[i] <= outer.hi[i]
  }

  /** `hull` is the least box that covers all of `boxes`. */
  ghost predicate IsLeastCover(hull: Bbox, boxes: set<Bbox>) {
    && (forall b <- boxes :: Covers(hull, b))
    && forall other :: (forall b <- boxes :: Covers(other, b)) ==> Covers(other, hull)
  }

  lemma LeastCoverUnique(a: Bbox, b: Bbox, boxes: set<Bbox>)
    requires IsLeastCover(a, boxes) && IsLeastCover(b, boxes)
    ensures a == b
  {
    assert Covers(a, b) && Covers(b, a);
    assert a.lo == b.lo && a.hi == b.hi by {
      forall i | 0 <= i < 3 ensures a.lo[i] == b.lo[i] && a.hi[i] == b.hi[i] {}
    }
  }

  ghost function AsSet<T>(s: seq<T>): set<T> {
    set x | x in s
  }

  function Hull(boxes: seq<Bbox>): (h: Bbox)
    requires boxes != []
  {
    Bbox([LowFace(boxes, 0), LowFace(boxes, 1), LowFace(boxes, 2)],
         [HighFace(boxes, 0), HighFace(boxes, 1), HighFace(boxes, 2)])
  }

  /** The face-by-face minimum and maximum is the least cover. */
  lemma HullIsLeastCover(boxes: seq<Bbox>)
    requires boxes != []
    ensures IsLeastCover(Hull(boxes), AsSet(boxes))
  {
    hide LowFace, HighFace;
    var h := Hull(boxes);
    forall b | b in boxes ensures Covers(h, b) {}
    forall other: Bbox | forall b <- AsSet(boxes) :: Covers(other, b) ensures Covers(other, h) {
      forall i | 0 <= i < 3 ensures other.lo[i] <= h.lo[i] && h.hi[i] <= other.hi[i] {
        var b :| b in boxes && LowFace(boxes, i) == b.lo[i];
        var c :| c in boxes && HighFace(boxes, i) == c.hi[i];
        assert b in AsSet(boxes) && c in AsSet(boxes);
      }
    }
  }
}
