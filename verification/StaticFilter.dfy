/** The `--max-distance` filter on static geometry. */
module StaticFilter {
  import opened Basics
  import opened Boxes

  function SquaredNorm(v: Vec): real {
    Dot3(v, v)
  }

  /** `n` is the Euclidean norm of `v`. */
  predicate IsNorm(n: real, v: Vec) {
    n >= 0.0 && n * n == SquaredNorm(v)
  }

  function Plus(a: Vec, b: Vec): Vec {
    [a[0] + b[0], a[1] + b[1], a[2] + b[2]]
  }

  /** `nearest_distance_m`, given the norms of the entry's centre and half-extents. */
  function NearestDistance(centreNorm: real, halfNorm: real): real {
    MaxReal(0.0, centreNorm - halfNorm)
  }

  /** The entry is dropped by `--max-distance`. */
  predicate Dropped(centreNorm: real, halfNorm: real, maxDistance: real) {
    !(NearestDistance(centreNorm, halfNorm) <= maxDistance)
  }

  // ------------------------------------------------------------------ vectors

  lemma SquareNonNegative(x: real)
    ensures x * x >= 0.0
  {
  }

  /** The Cauchy-Schwarz inequality in three dimensions, from the three squared minors. */
  lemma CauchySchwarz(a: Vec, b: Vec)
    ensures Dot3(a, b) * Dot3(a, b) <= SquaredNorm(a) * SquaredNorm(b)
  {
    var x, y, z := a[0] * b[1] - a[1] * b[0], a[0] * b[2] - a[2] * b[0], a[1] * b[2] - a[2] * b[1];
    SquareNonNegative(x);
    SquareNonNegative(y);
    SquareNonNegative(z);
    LagrangeIdentity(a[0], a[1], a[2], b[0], b[1], b[2]);
  }

  lemma LagrangeIdentity(a: real, b: real, c: real, p: real, q: real, r: real)
    ensures (a * a + b * b + c * c) * (p * p + q * q + r * r) - (a * p + b * q + c * r) * (a * p + b * q + c * r) ==
            (a * q - b * p) * (a * q - b * p) + (a * r - c * p) * (a * r - c * p) + (b * r - c * q) * (b * r - c * q)
  {
  }

  lemma DifferenceOfSquares(x: real, y: real)
    ensures (x - y) * (x + y) == x * x - y * y
  {
  }

  lemma StrictSquares(x: real, y: real)
    requires x > y >= 0.0
    ensures x * x > y * y
  {
    ProductPositive(x - y, x + y);
    DifferenceOfSquares(x, y);
  }

  lemma SquaresOrder(x: real, y: real)
    requires y >= 0.0 && x * x <= y * y
    ensures -y <= x <= y
  {
    if x > y {
      StrictSquares(x, y);
    } else if -x > y {
      StrictSquares(-x, y);
    }
  }

  /** Moving by an offset of length at most `n` cannot bring a point nearer than its norm less `n`. */
  lemma OffsetNorm(a: Vec, b: Vec, m: real, n: real, s: real)
    requires IsNorm(m, a) && IsNorm(s, Plus(a, b))
    requires n >= 0.0 && SquaredNorm(b) <= n * n
    ensures s >= m - n
  {
    var sum, d := Plus(a, b), Dot3(Plus(a, b), b);
    CauchySchwarz(sum, b);
    ProductOfBounds(s * s, SquaredNorm(b), n * n);
    assert d * d <= (s * n) * (s * n);
    SquaresOrder(d, s * n);
    assert m * m == s * s + SquaredNorm(b) - 2.0 * d;
    assert m * m <= (s + n) * (s + n);
    SquaresOrder(m, s + n);
  }

  lemma ProductOfBounds(x: real, y: real, z: real)
    requires x >= 0.0 && y <= z
    ensures x * y <= x * z
  {
  }

  function Scaled(a: Vec, t: real): Vec {
    [t * a[0], t * a[1], t * a[2]]
  }

  lemma ScaledNorm(a: Vec, t: real)
    ensures SquaredNorm(Scaled(a, t)) == t * t * SquaredNorm(a)
  {
    ScaledSquare(t, a[0]);
    ScaledSquare(t, a[1]);
    ScaledSquare(t, a[2]);
    Distributes(t * t, a[0] * a[0], a[1] * a[1], a[2] * a[2]);
  }

  lemma ScaledSquare(t: real, x: real)
    ensures (t * x) * (t * x) == t * t * (x * x)
  {
  }

  lemma Distributes(s: real, x: real, y: real, z: real)
    ensures s * x + s * y + s * z == s * (x + y + z)
  {
  }

  /** The point at `t` times the centre is `1 - t` times the centre's norm away from it. */
  lemma ScaledOffset(a: Vec, t: real)
    ensures SquaredNorm(Minus(Scaled(a, t), a)) == (1.0 - t) * (1.0 - t) * SquaredNorm(a)
  {
    ScaledNorm(a, t - 1.0);
    assert Minus(Scaled(a, t), a) == Scaled(a, t - 1.0);
    assert (t - 1.0) * (t - 1.0) == (1.0 - t) * (1.0 - t);
  }

  /**
   * `nearest_distance_m` is attained: some point within the half-extents' norm of the centre is exactly
   * that far from the base origin.
   */
  lemma NearestIsAttained(centre: Vec, centreNorm: real, halfNorm: real) returns (x: Vec)
    requires IsNorm(centreNorm, centre) && halfNorm >= 0.0
    ensures SquaredNorm(Minus(x, centre)) <= halfNorm * halfNorm
    ensures IsNorm(NearestDistance(centreNorm, halfNorm), x)
  {
    var t := if centreNorm <= halfNorm then 0.0 else (centreNorm - halfNorm) / centreNorm;
    x := Scaled(centre, t);
    ScaledNorm(centre, t);
    ScaledOffset(centre, t);
    hide SquaredNorm, Scaled;
    if centreNorm <= halfNorm {
      NearOrigin(centreNorm, halfNorm);
    } else {
      FractionOfNorm(centreNorm, halfNorm, t);
    }
  }

  lemma NearOrigin(n: real, h: real)
    requires 0.0 <= n <= h
    ensures n * n <= h * h
  {
    assert h * h - n * n == (h - n) * (h + n);
    NonNegativeProduct(h - n, h + n);
  }

  lemma FractionOfNorm(n: real, h: real, t: real)
    requires 0.0 <= h < n && t == (n - h) / n
    ensures t * t * (n * n) == (n - h) * (n - h)
    ensures (1.0 - t) * (1.0 - t) * (n * n) == h * h
  {
    assert t * n == n - h;
    assert t * t * (n * n) == (t * n) * (t * n);
    assert (1.0 - t) * n == h;
    assert (1.0 - t) * (1.0 - t) * (n * n) == ((1.0 - t) * n) * ((1.0 - t) * n);
  }

  /** `x` is within `r` of the centre. */
  predicate InBall(x: Vec, centre: Vec, r: real) {
    SquaredNorm(Minus(x, centre)) <= r * r
  }

  /**
   * An entry is dropped exactly when every point within the half-extents' norm of its centre is farther
   * than the distance.
   */
  lemma DroppedIffBallIsFar(centre: Vec, centreNorm: real, halfNorm: real, maxDistance: real)
    requires IsNorm(centreNorm, centre) && halfNorm >= 0.0 && maxDistance >= 0.0
    ensures Dropped(centreNorm, halfNorm, maxDistance) <==>
            forall x: Vec, s: real :: InBall(x, centre, halfNorm) && IsNorm(s, x) ==> s > maxDistance
  {
    if Dropped(centreNorm, halfNorm, maxDistance) {
      forall x: Vec, s: real | InBall(x, centre, halfNorm) && IsNorm(s, x) ensures s > maxDistance {
        var offset := Minus(x, centre);
        assert Plus(centre, offset) == x;
        OffsetNorm(centre, offset, centreNorm, halfNorm, s);
      }
    } else {
      var x := NearestIsAttained(centre, centreNorm, halfNorm);
      assert InBall(x, centre, halfNorm) && IsNorm(NearestDistance(centreNorm, halfNorm), x);
    }
  }

  // ------------------------------------------------------------------ rotations

  function Column(m: Matrix, k: nat): Vec
    requires k < 3
  {
    [m[0][k], m[1][k], m[2][k]]
  }

  /** The columns are unit vectors, pairwise orthogonal. */
  predicate Orthonormal(m: Matrix) {
    && Dot3(Column(m, 0), Column(m, 0)) == 1.0 && Dot3(Column(m, 1), Column(m, 1)) == 1.0
    && Dot3(Column(m, 2), Column(m, 2)) == 1.0 && Dot3(Column(m, 0), Column(m, 1)) == 0.0
    && Dot3(Column(m, 0), Column(m, 2)) == 0.0 && Dot3(Column(m, 1), Column(m, 2)) == 0.0
  }

  /** A turn by any angle about the vertical axis is one. */
  lemma TurnIsOrthonormal(cosine: real, sine: real)
    requires cosine * cosine + sine * sine == 1.0
    ensures Orthonormal([[cosine, -sine, 0.0], [sine, cosine, 0.0], [0.0, 0.0, 1.0]])
  {
  }

  function Rotated(m: Matrix, d: Vec): Vec {
    [Dot3(m[0], d), Dot3(m[1], d), Dot3(m[2], d)]
  }

  /** The squared row products, gathered by the products of the columns. */
  lemma GatherColumns(a: real, b: real, c: real, p: real, q: real, r: real, s: real, t: real, u: real,
                      x: real, y: real, z: real)
    ensures (a * x + b * y + c * z) * (a * x + b * y + c * z) + (p * x + q * y + r * z) * (p * x + q * y + r * z)
            + (s * x + t * y + u * z) * (s * x + t * y + u * z) ==
            (a * a + p * p + s * s) * (x * x) + (b * b + q * q + t * t) * (y * y) + (c * c + r * r + u * u) * (z * z)
            + (a * b + p * q + s * t) * (2.0 * x * y) + (a * c + p * r + s * u) * (2.0 * x * z)
            + (b * c + q * r + t * u) * (2.0 * y * z)
  {
  }

  /** A rotation keeps lengths. */
  lemma RotationKeepsNorm(m: Matrix, d: Vec)
    requires Orthonormal(m)
    ensures SquaredNorm(Rotated(m, d)) == SquaredNorm(d)
  {
    var x, y, z := d[0], d[1], d[2];
    GatherColumns(m[0][0], m[0][1], m[0][2], m[1][0], m[1][1], m[1][2], m[2][0], m[2][1], m[2][2], x, y, z);
    WeighProducts(Dot3(Column(m, 0), Column(m, 0)), Dot3(Column(m, 1), Column(m, 1)), Dot3(Column(m, 2), Column(m, 2)),
                  Dot3(Column(m, 0), Column(m, 1)), Dot3(Column(m, 0), Column(m, 2)), Dot3(Column(m, 1), Column(m, 2)),
                  x, y, z);
  }

  lemma WeighProducts(f: real, g: real, h: real, i: real, j: real, k: real, x: real, y: real, z: real)
    requires f == 1.0 && g == 1.0 && h == 1.0 && i == 0.0 && j == 0.0 && k == 0.0
    ensures f * (x * x) + g * (y * y) + h * (z * z) + i * (2.0 * x * y) + j * (2.0 * x * z) + k * (2.0 * y * z)
            == x * x + y * y + z * z
  {
  }

  lemma InsideSquares(d: real, h: real)
    requires -h <= d <= h
    ensures d * d <= h * h
  {
    assert h * h - d * d == (h - d) * (h + d);
  }

  lemma InsideNorm(d: Vec, half: Vec)
    requires Inside(d, half)
    ensures SquaredNorm(d) <= SquaredNorm(half)
  {
    InsideSquares(d[0], half[0]);
    InsideSquares(d[1], half[1]);
    InsideSquares(d[2], half[2]);
  }

  // ------------------------------------------------------------------ what is dropped

  /** No point of a dropped box is within the distance of the base origin. */
  lemma DroppedBoxIsFar(b: OrientedBox, d: Vec, centreNorm: real, halfNorm: real, maxDistance: real, distance: real)
    requires Orthonormal(b.rotation) && Inside(d, b.half)
    requires IsNorm(centreNorm, b.center) && IsNorm(halfNorm, b.half)
    requires Dropped(centreNorm, halfNorm, maxDistance)
    requires IsNorm(distance, Point(b, d))
    ensures distance > maxDistance
  {
    var offset := Rotated(b.rotation, d);
    RotationKeepsNorm(b.rotation, d);
    InsideNorm(d, b.half);
    assert Point(b, d) == Plus(b.center, offset);
    OffsetNorm(b.center, offset, centreNorm, halfNorm, distance);
  }

  // ------------------------------------------------------------------ meshes

  function Least(vertices: seq<Vec>, i: nat): (m: real)
    requires vertices != [] && i < 3
    ensures forall v <- vertices :: m <= v[i]
    ensures exists v <- vertices :: m == v[i]
  {
    if |vertices| == 1 then vertices[0][i] else MinReal(vertices[0][i], Least(vertices[1..], i))
  }

  function Greatest(vertices: seq<Vec>, i: nat): (m: real)
    requires vertices != [] && i < 3
    ensures forall v <- vertices :: v[i] <= m
    ensures exists v <- vertices :: m == v[i]
  {
    if |vertices| == 1 then vertices[0][i] else MaxReal(vertices[0][i], Greatest(vertices[1..], i))
  }

  datatype MeshBounds = MeshBounds(center: Vec, half: Vec)

  function LowCorner(vertices: seq<Vec>): (lo: Vec)
    requires vertices != []
  {
    [Least(vertices, 0), Least(vertices, 1), Least(vertices, 2)]
  }

  function HighCorner(vertices: seq<Vec>): (hi: Vec)
    requires vertices != []
  {
    [Greatest(vertices, 0), Greatest(vertices, 1), Greatest(vertices, 2)]
  }

  function Centred(lo: Vec, hi: Vec): MeshBounds {
    MeshBounds([(lo[0] + hi[0]) / 2.0, (lo[1] + hi[1]) / 2.0, (lo[2] + hi[2]) / 2.0],
               [(hi[0] - lo[0]) / 2.0, (hi[1] - lo[1]) / 2.0, (hi[2] - lo[2]) / 2.0])
  }

  /** `mesh_bounds`; an empty vertex set has none (NumPy raises). */
  function BoundsOf(vertices: seq<Vec>): MeshBounds
    requires vertices != []
  {
    Centred(LowCorner(vertices), HighCorner(vertices))
  }

  function Minus(a: Vec, b: Vec): Vec {
    [a[0] - b[0], a[1] - b[1], a[2] - b[2]]
  }

  /** The point of triangle `u v w` with barycentric weights `p`, `q` and `1 - p - q`. */
  function OnTriangle(u: Vec, v: Vec, w: Vec, p: real, q: real): Vec {
    [Mix(u[0], v[0], w[0], p, q), Mix(u[1], v[1], w[1], p, q), Mix(u[2], v[2], w[2], p, q)]
  }

  function Mix(x: real, y: real, z: real, p: real, q: real): real {
    p * x + q * y + (1.0 - p - q) * z
  }

  lemma WeightedAbove(x: real, y: real, z: real, p: real, q: real, r: real, lo: real)
    requires lo <= x && lo <= y && lo <= z
    requires p >= 0.0 && q >= 0.0 && r >= 0.0 && p + q + r == 1.0
    ensures lo <= p * x + q * y + r * z
  {
    assert p * (x - lo) >= 0.0;
    assert q * (y - lo) >= 0.0;
    assert r * (z - lo) >= 0.0;
    assert p * (x - lo) + q * (y - lo) + r * (z - lo) == p * x + q * y + r * z - (p + q + r) * lo;
  }

  lemma WeightedBelow(x: real, y: real, z: real, p: real, q: real, r: real, hi: real)
    requires x <= hi && y <= hi && z <= hi
    requires p >= 0.0 && q >= 0.0 && r >= 0.0 && p + q + r == 1.0
    ensures p * x + q * y + r * z <= hi
  {
    WeightedAbove(-x, -y, -z, p, q, r, -hi);
    assert p * -x + q * -y + r * -z == -(p * x + q * y + r * z);
  }

  lemma MixBetween(x: real, y: real, z: real, p: real, q: real, lo: real, hi: real)
    requires lo <= x <= hi && lo <= y <= hi && lo <= z <= hi
    requires p >= 0.0 && q >= 0.0 && p + q <= 1.0
    ensures lo <= Mix(x, y, z, p, q) <= hi
  {
    WeightedAbove(x, y, z, p, q, 1.0 - p - q, lo);
    WeightedBelow(x, y, z, p, q, 1.0 - p - q, hi);
  }

  predicate Between(lo: Vec, x: Vec, hi: Vec) {
    forall i | 0 <= i < 3 :: lo[i] <= x[i] <= hi[i]
  }

  lemma TriangleBetween(u: Vec, v: Vec, w: Vec, p: real, q: real, lo: Vec, hi: Vec)
    requires Between(lo, u, hi) && Between(lo, v, hi) && Between(lo, w, hi)
    requires p >= 0.0 && q >= 0.0 && p + q <= 1.0
    ensures Between(lo, OnTriangle(u, v, w, p, q), hi)
  {
    hide Mix;
    MixBetween(u[0], v[0], w[0], p, q, lo[0], hi[0]);
    MixBetween(u[1], v[1], w[1], p, q, lo[1], hi[1]);
    MixBetween(u[2], v[2], w[2], p, q, lo[2], hi[2]);
  }

  /** Every point of every triangle of the mesh lies in the mesh's bound. */
  lemma MeshInsideBounds(vertices: seq<Vec>, u: Vec, v: Vec, w: Vec, p: real, q: real)
    requires u in vertices && v in vertices && w in vertices
    requires p >= 0.0 && q >= 0.0 && p + q <= 1.0
    ensures var m := BoundsOf(vertices); Inside(Minus(OnTriangle(u, v, w, p, q), m.center), m.half)
  {
    hide Mix;
    var lo, hi := LowCorner(vertices), HighCorner(vertices);
    TriangleBetween(u, v, w, p, q, lo, hi);
    CentredInside(lo, OnTriangle(u, v, w, p, q), hi);
  }

  lemma CentredInside(lo: Vec, x: Vec, hi: Vec)
    requires Between(lo, x, hi)
    ensures var m := Centred(lo, hi); Inside(Minus(x, m.center), m.half)
  {
  }

  /** The bound of a mesh is as tight as can be: every face of it holds a vertex. */
  lemma MeshFacesAttained(vertices: seq<Vec>, i: nat)
    requires vertices != [] && i < 3
    ensures var m := BoundsOf(vertices);
            && (exists v <- vertices :: v[i] == m.center[i] - m.half[i])
            && (exists v <- vertices :: v[i] == m.center[i] + m.half[i])
  {
    hide Centred;
    CentredFaces(LowCorner(vertices), HighCorner(vertices), i);
    hide Least, Greatest;
    CornersAt(vertices, i);
    hide LowCorner, HighCorner;
  }

  lemma CentredFaces(lo: Vec, hi: Vec, i: nat)
    requires i < 3
    ensures var m := Centred(lo, hi); m.center[i] - m.half[i] == lo[i] && m.center[i] + m.half[i] == hi[i]
  {
  }

  lemma CornersAt(vertices: seq<Vec>, i: nat)
    requires vertices != [] && i < 3
    ensures LowCorner(vertices)[i] == Least(vertices, i) && HighCorner(vertices)[i] == Greatest(vertices, i)
  {
    hide Least, Greatest;
  }

  /** No point of a dropped mesh is within the distance of the base origin. */
  lemma DroppedMeshIsFar(vertices: seq<Vec>, u: Vec, v: Vec, w: Vec, p: real, q: real,
                         centreNorm: real, halfNorm: real, maxDistance: real, distance: real)
    requires u in vertices && v in vertices && w in vertices
    requires p >= 0.0 && q >= 0.0 && p + q <= 1.0
    requires IsNorm(centreNorm, BoundsOf(vertices).center) && IsNorm(halfNorm, BoundsOf(vertices).half)
    requires Dropped(centreNorm, halfNorm, maxDistance)
    requires IsNorm(distance, OnTriangle(u, v, w, p, q))
    ensures distance > maxDistance
  {
    var m, x := BoundsOf(vertices), OnTriangle(u, v, w, p, q);
    var offset := Minus(x, m.center);
    MeshInsideBounds(vertices, u, v, w, p, q);
    InsideNorm(offset, m.half);
    assert Plus(m.center, offset) == x;
    OffsetNorm(m.center, offset, centreNorm, halfNorm, distance);
  }

  // ------------------------------------------------------------------ write_static

  datatype Shape = BoxShape(box: OrientedBox) | MeshShape(vertices: seq<Vec>)

  /** A collider as the backend reports it. */
  datatype Reported = Reported(shape: Shape, enabled: bool, dynamic: bool)

  /** Only enabled colliders that cannot move become static geometry. */
  predicate Trusted(c: Reported) {
    c.enabled && !c.dynamic
  }

  predicate Bounded(c: Reported) {
    c.shape.MeshShape? ==> c.shape.vertices != []
  }

  /** The norms NumPy computes for an entry: of its centre and of its half-extents. */
  datatype Norms = Norms(center: real, half: real)

  ghost predicate NormsOf(n: Norms, c: Reported) {
    match c.shape
    case BoxShape(b) => IsNorm(n.center, b.center) && IsNorm(n.half, b.half)
    case MeshShape(vertices) =>
      vertices != [] ==> IsNorm(n.center, BoundsOf(vertices).center) && IsNorm(n.half, BoundsOf(vertices).half)
  }

  predicate Kept(n: Norms, maxDistance: Option<real>) {
    maxDistance.Some? ==> !Dropped(n.center, n.half, maxDistance.value)
  }

  /** The entry comes first in the file: it is nearer, or as near and listed earlier. */
  predicate Before(a: nat, b: nat, norms: seq<Norms>) {
    && a < |norms| && b < |norms|
    && var x, y := NearestDistance(norms[a].center, norms[a].half), NearestDistance(norms[b].center, norms[b].half);
       x < y || (x == y && a < b)
  }

  /** Of two entries exactly one comes first. */
  lemma BeforeIsStrict(a: nat, b: nat, norms: seq<Norms>)
    requires a < |norms| && b < |norms|
    ensures Before(a, b, norms) <==> a != b && !Before(b, a, norms)
  {
  }

  /** The order of the file, without repetition. */
  predicate InFileOrder(list: seq<nat>, norms: seq<Norms>) {
    forall i, j | 0 <= i < j < |list| :: Before(list[i], list[j], norms)
  }

  /** The list with a later entry put where a stable sort by distance puts it. */
  function Inserted(list: seq<nat>, k: nat, norms: seq<Norms>): (r: seq<nat>)
    requires InFileOrder(list, norms) && k < |norms| && forall x <- list :: x < k
    ensures InFileOrder(r, norms) && forall x :: x in r <==> x == k || x in list
  {
    if list == [] then [k]
    else
      HeadAndTail(list);
      assert list[0] in list && forall x <- list[1..] :: x in list && Before(list[0], x, norms);
      if Before(k, list[0], norms) then
        assert forall x <- list :: Before(k, x, norms);
        [k] + list
      else
        var rest := Inserted(list[1..], k, norms);
        assert forall x <- rest :: Before(list[0], x, norms);
        [list[0]] + rest
  }

  /**
   * `write_static`: the colliders written, by position, each once and sorted by their distance. It fails
   * on a trusted mesh without vertices.
   */
  method WriteStatic(colliders: seq<Reported>, norms: seq<Norms>, maxDistance: Option<real>)
    returns (ok: bool, written: seq<nat>)
    requires |norms| == |colliders|
    ensures ok <==> forall c <- colliders :: c.enabled && !c.dynamic ==> c.shape != MeshShape([])
    ensures ok ==> forall k: nat :: k in written <==>
            && k < |colliders| && colliders[k].enabled && !colliders[k].dynamic
            && (maxDistance.None? || NearestDistance(norms[k].center, norms[k].half) <= maxDistance.value)
    ensures InFileOrder(written, norms)
  {
    written, ok := [], true;
    var k := 0;
    while k < |colliders|
      invariant 0 <= k <= |colliders|
      invariant forall j: nat | j < k :: Trusted(colliders[j]) ==> Bounded(colliders[j])
      invariant forall j: nat :: j in written <==> j < k && Trusted(colliders[j]) && Kept(norms[j], maxDistance)
      invariant InFileOrder(written, norms)
    {
      hide Kept, InFileOrder;
      if Trusted(colliders[k]) {
        if !Bounded(colliders[k]) {
          ok := false;
          return;
        }
        if Kept(norms[k], maxDistance) {
          written := Inserted(written, k, norms);
        }
      }
      k := k + 1;
    }
  }

  /** `x` is a point of the collider: of its box, or of one of its triangles. */
  ghost predicate PointOf(x: Vec, shape: Shape) {
    match shape
    case BoxShape(b) => exists d: Vec :: Inside(d, b.half) && x == Point(b, d)
    case MeshShape(vertices) =>
      exists u: Vec, v: Vec, w: Vec, p: real, q: real ::
        && u in vertices && v in vertices && w in vertices
        && p >= 0.0 && q >= 0.0 && p + q <= 1.0 && x == OnTriangle(u, v, w, p, q)
  }

  /** A trusted collider that the filter leaves out has no point within the distance of the base origin. */
  lemma LeftOutIsFar(c: Reported, n: Norms, maxDistance: Option<real>, x: Vec, distance: real)
    requires Bounded(c) && NormsOf(n, c) && !Kept(n, maxDistance)
    requires c.shape.BoxShape? ==> Orthonormal(c.shape.box.rotation)
    requires PointOf(x, c.shape) && IsNorm(distance, x)
    ensures distance > maxDistance.value
  {
    match c.shape
    case BoxShape(b) =>
      var d: Vec :| Inside(d, b.half) && x == Point(b, d);
      DroppedBoxIsFar(b, d, n.center, n.half, maxDistance.value, distance);
    case MeshShape(vertices) =>
      var u: Vec, v: Vec, w: Vec, p: real, q: real :|
        && u in vertices && v in vertices && w in vertices
        && p >= 0.0 && q >= 0.0 && p + q <= 1.0 && x == OnTriangle(u, v, w, p, q);
      DroppedMeshIsFar(vertices, u, v, w, p, q, n.center, n.half, maxDistance.value, distance);
  }
}
