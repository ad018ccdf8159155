/** The static fixture an object rests on, and the hull of its destinations. */
module Fixture {
  import opened Basics
  import opened Boxes

  datatype Collider = Collider(path: string, box: OrientedBox)

  datatype Support = Support(bound: Bbox, parent: string)

  /** `path.rsplit("/", 1)[0]` */
  function Parent(path: string): (parent: string)
    ensures '/' !in path ==> parent == path
    ensures '/' in path ==> parent + "/" <= path && '/' !in path[|parent| + 1..]
  {
    LastCut(path, |path|)
  }

  function LastCut(path: string, n: nat): (parent: string)
    requires n <= |path| && '/' !in path[n..]
    ensures '/' !in path ==> parent == path
    ensures '/' in path ==> parent + "/" <= path && '/' !in path[|parent| + 1..]
  {
    if n == 0 then path
    else if path[n - 1] == '/' then path[..n - 1]
    else
      assert path[n - 1..] == [path[n - 1]] + path[n..];
      LastCut(path, n - 1)
  }

  /** The box's footprint holds the object's centre and its top is at most `tol` above the object's bottom. */
  predicate Supports(obj: Bbox, b: Bbox, tol: real) {
    var cx, cy := (obj.lo[0] + obj.hi[0]) / 2.0, (obj.lo[1] + obj.hi[1]) / 2.0;
    b.lo[0] <= cx <= b.hi[0] && b.lo[1] <= cy <= b.hi[1] && b.hi[2] <= obj.lo[2] + tol
  }

  predicate Touches(a: Bbox, b: Bbox, gap: real) {
    forall i | 0 <= i < 3 :: a.lo[i] <= b.hi[i] + gap && b.lo[i] <= a.hi[i] + gap
  }

  predicate IsMember(c: Collider, s: Support, tol: real) {
    Parent(c.path) == s.parent && Aabb(c.box).hi[2] >= s.bound.hi[2] - tol
  }

  /** The boxes of the support's group: same parent, and not wholly below the support's top. */
  function Members(colliders: seq<Collider>, s: Support, tol: real): (r: seq<Bbox>)
    ensures forall b :: b in r <==>
              exists c <- colliders ::
                Parent(c.path) == s.parent && Aabb(c.box) == b && b.hi[2] + tol >= s.bound.hi[2]
  {
    if colliders == [] then []
    else (if IsMember(colliders[0], s, tol) then [Aabb(colliders[0].box)] else []) + Members(colliders[1..], s, tol)
  }

  // ------------------------------------------------------------------ what the tests mean

  predicate InBox(x: Vec, b: Bbox) {
    forall i | 0 <= i < 3 :: b.lo[i] <= x[i] <= b.hi[i]
  }

  /** The box holds some point. */
  ghost predicate Proper(b: Bbox) {
    forall i | 0 <= i < 3 :: b.lo[i] <= b.hi[i]
  }

  /** No two coordinates of the points differ by more than `gap`. */
  ghost predicate Apart(x: Vec, y: Vec, gap: real) {
    forall i | 0 <= i < 3 :: x[i] - y[i] <= gap && y[i] - x[i] <= gap
  }

  function Clamped(v: real, lo: real, hi: real): (r: real)
    requires lo <= hi
    ensures lo <= r <= hi
  {
    MaxReal(lo, MinReal(hi, v))
  }

  /** Boxes touch exactly when some point of one and some point of the other are at most the gap apart. */
  lemma TouchesIff(a: Bbox, b: Bbox, gap: real)
    requires Proper(a) && Proper(b) && gap >= 0.0
    ensures Touches(a, b, gap) <==> exists x: Vec, y: Vec :: InBox(x, a) && InBox(y, b) && Apart(x, y, gap)
  {
    if Touches(a, b, gap) {
      var x: Vec := [Clamped(b.lo[0], a.lo[0], a.hi[0]), Clamped(b.lo[1], a.lo[1], a.hi[1]),
                     Clamped(b.lo[2], a.lo[2], a.hi[2])];
      var y: Vec := [Clamped(x[0], b.lo[0], b.hi[0]), Clamped(x[1], b.lo[1], b.hi[1]), Clamped(x[2], b.lo[2], b.hi[2])];
      assert InBox(x, a) && InBox(y, b) && Apart(x, y, gap);
    }
    if x: Vec, y: Vec :| InBox(x, a) && InBox(y, b) && Apart(x, y, gap) {
      forall i | 0 <= i < 3 ensures a.lo[i] <= b.hi[i] + gap && b.lo[i] <= a.hi[i] + gap {
        assert a.lo[i] <= x[i] <= a.hi[i] && b.lo[i] <= y[i] <= b.hi[i];
      }
    }
  }

  /** `(x, y)` is the middle of the box's footprint. */
  ghost predicate Middle(x: real, y: real, b: Bbox) {
    x - b.lo[0] == b.hi[0] - x && y - b.lo[1] == b.hi[1] - y
  }

  /** A support has the middle of the object in its footprint, and rises at most `tol` above the object's bottom. */
  lemma SupportsIff(obj: Bbox, b: Bbox, tol: real)
    ensures Supports(obj, b, tol) <==>
            && b.hi[2] - obj.lo[2] <= tol
            && exists x: real, y: real ::
                 Middle(x, y, obj) && b.lo[0] <= x && x <= b.hi[0] && b.lo[1] <= y && y <= b.hi[1]
  {
    assert Middle((obj.lo[0] + obj.hi[0]) / 2.0, (obj.lo[1] + obj.hi[1]) / 2.0, obj);
  }

  /** No point of a collider lies above its top, and a corner reaches it, both up to the rounding. */
  lemma TopIsHighest(c: Collider, d: Vec)
    requires forall k | 0 <= k < 3 :: c.box.half[k] >= 0.0
    ensures Boxes.Inside(d, c.box.half) ==> Coordinate(c.box, d, 2) <= Top(c) + ROUNDING
    ensures Boxes.Inside(Corner(c.box, 2), c.box.half)
    ensures Abs(Coordinate(c.box, Corner(c.box, 2), 2) - Top(c)) <= ROUNDING
  {
    if Boxes.Inside(d, c.box.half) {
      AabbContainsBox(c.box, d, 2);
    }
    AabbFacesAttained(c.box, 2);
  }

  // ------------------------------------------------------------------ connection

  /** `path` leads from `start` through members, each within `gap` of the one before. */
  ghost predicate Chain(start: Bbox, path: seq<Bbox>, members: set<Bbox>, gap: real) {
    && path != [] && path[0] == start
    && (forall i | 0 < i < |path| :: path[i] in members && Touches(path[i], path[i - 1], gap))
  }

  ghost predicate Connected(start: Bbox, b: Bbox, members: set<Bbox>, gap: real) {
    exists path :: Chain(start, path, members, gap) && path[|path| - 1] == b
  }

  lemma ConnectedStep(start: Bbox, a: Bbox, b: Bbox, members: set<Bbox>, gap: real)
    requires Connected(start, a, members, gap) && b in members && Touches(b, a, gap)
    ensures Connected(start, b, members, gap)
  {
    var path :| Chain(start, path, members, gap) && path[|path| - 1] == a;
    assert Chain(start, path + [b], members, gap);
  }

  lemma ConnectedSelf(start: Bbox, members: set<Bbox>, gap: real)
    ensures Connected(start, start, members, gap)
  {
    assert Chain(start, [start], members, gap);
  }

  /** Nothing outside `group` touches it. */
  ghost predicate Closed(group: set<Bbox>, members: set<Bbox>, gap: real) {
    forall b, g | b in members && g in group && Touches(b, g, gap) :: b in group
  }

  lemma {:induction false} ClosedHoldsChain(start: Bbox, path: seq<Bbox>, group: set<Bbox>, members: set<Bbox>,
                                            gap: real)
    requires Closed(group, members, gap) && start in group && Chain(start, path, members, gap)
    ensures path[|path| - 1] in group
    decreases |path|
  {
    if |path| > 1 {
      var shorter := path[..|path| - 1];
      ClosedHoldsChain(start, shorter, group, members, gap);
    }
  }

  /** The boxes of the connected component of `start`. */
  ghost function Component(start: Bbox, members: set<Bbox>, gap: real): set<Bbox> {
    set b | b in members + {start} && Connected(start, b, members, gap)
  }

  /** A closed group of boxes connected to the start is the whole component. */
  lemma ClosedGroupIsComponent(start: Bbox, group: set<Bbox>, members: set<Bbox>, gap: real)
    requires Closed(group, members, gap) && start in group && group <= members + {start}
    requires forall b <- group :: Connected(start, b, members, gap)
    ensures group == Component(start, members, gap)
  {
    forall b | b in Component(start, members, gap) ensures b in group {
      var path :| Chain(start, path, members, gap) && path[|path| - 1] == b;
      ClosedHoldsChain(start, path, group, members, gap);
    }
  }

  // ------------------------------------------------------------------ source_fixture

  /** The flood of lines 170-176: grow the group until nothing left touches it. */
  method Flood(start: Bbox, members: seq<Bbox>, gap: real) returns (group: seq<Bbox>)
    ensures group != []
    ensures AsSet(group) == Component(start, AsSet(members), gap)
  {
    ghost var all := AsSet(members);
    group := [start];
    var rest := members;
    var grown := true;
    ConnectedSelf(start, all, gap);
    while grown
      invariant start in group
      invariant forall b <- group :: (b in all || b == start) && Connected(start, b, all, gap)
      invariant forall b <- rest :: b in all
      invariant forall b <- all :: b in group || b in rest
      invariant !grown ==> forall b <- rest, g <- group :: !Touches(b, g, gap)
      decreases |rest|, grown
    {
      var joined := Joining(rest, group, gap);
      forall b | b in joined ensures b in all && Connected(start, b, all, gap) {
        var g :| g in group && Touches(b, g, gap);
        ConnectedStep(start, g, b, all, gap);
      }
      assert joined != [] ==> joined[0] in joined && joined[0] in rest;
      var left := Without(rest, joined);
      forall b | b in all && b !in group + joined ensures b in left {}
      rest := left;
      group := group + joined;
      grown := joined != [];
    }
    assert Closed(AsSet(group), all, gap);
    ClosedGroupIsComponent(start, AsSet(group), all, gap);
  }

  /** `[b for b in rest if any(touches(b, g) for g in group)]` */
  function Joining(rest: seq<Bbox>, group: seq<Bbox>, gap: real): (r: seq<Bbox>)
    ensures forall b :: b in r <==> b in rest && exists g <- group :: Touches(b, g, gap)
  {
    if rest == [] then []
    else (if exists g <- group :: Touches(rest[0], g, gap) then [rest[0]] else []) + Joining(rest[1..], group, gap)
  }

  /** `[b for b in rest if b not in joined]` */
  function Without(rest: seq<Bbox>, joined: seq<Bbox>): (r: seq<Bbox>)
    ensures forall b :: b in r <==> b in rest && b !in joined
    ensures |r| <= |rest|
    ensures (exists b <- rest :: b in joined) ==> |r| < |rest|
  {
    if rest == [] then []
    else (if rest[0] in joined then [] else [rest[0]]) + Without(rest[1..], joined)
  }

  predicate Holds(obj: Bbox, c: Collider, tol: real) {
    Supports(obj, Aabb(c.box), tol)
  }

  function Top(c: Collider): real {
    Aabb(c.box).hi[2]
  }

  /** Among the first `n` colliders, `k` is the first of the highest supports of the object. */
  ghost predicate FirstHighest(obj: Bbox, colliders: seq<Collider>, n: nat, tol: real, k: nat)
    requires n <= |colliders|
  {
    && k < n && Holds(obj, colliders[k], tol)
    && (forall j: nat | j < n && Holds(obj, colliders[j], tol) ::
          Top(colliders[j]) <= Top(colliders[k]) && (j < k ==> Top(colliders[j]) < Top(colliders[k])))
  }

  function SupportOf(c: Collider): Support {
    Support(Aabb(c.box), Parent(c.path))
  }

  ghost predicate Unsupported(obj: Bbox, colliders: seq<Collider>, tol: real) {
    forall c <- colliders :: !Holds(obj, c, tol)
  }

  /** The fixture of support `s`: its parent path, and the least box that covers its component. */
  ghost predicate IsFixtureOf(s: Support, colliders: seq<Collider>, tol: real, gap: real, r: Support) {
    && r.parent == s.parent
    && IsLeastCover(r.bound, Component(s.bound, AsSet(Members(colliders, s, tol)), gap))
  }

  /** What `source_fixture` promises. */
  ghost predicate IsSourceFixture(obj: Bbox, colliders: seq<Collider>, tol: real, gap: real, r: Option<Support>) {
    match r
    case None => Unsupported(obj, colliders, tol)
    case Some(f) =>
      exists k: nat | k < |colliders| :: FirstHighest(obj, colliders, |colliders|, tol, k)
          && IsFixtureOf(SupportOf(colliders[k]), colliders, tol, gap, f)
  }

  method HighestSupport(obj: Bbox, colliders: seq<Collider>, tol: real) returns (best: Option<Support>)
    ensures best.None? ==> Unsupported(obj, colliders, tol)
    ensures best.Some? ==> exists k: nat | k < |colliders| ::
              FirstHighest(obj, colliders, |colliders|, tol, k) && best.value == SupportOf(colliders[k])
  {
    hide Supports, Aabb;
    best := None;
    ghost var at: nat := 0;
    var i := 0;
    while i < |colliders|
      invariant 0 <= i <= |colliders|
      invariant best.None? ==> forall j: nat | j < i :: !Holds(obj, colliders[j], tol)
      invariant best.Some? ==>
                at < i && FirstHighest(obj, colliders, i, tol, at)
                && best.value == SupportOf(colliders[at])
    {
      if Holds(obj, colliders[i], tol) && (best.None? || Top(colliders[i]) > best.value.bound.hi[2]) {
        best, at := Some(SupportOf(colliders[i])), i;
      }
      i := i + 1;
    }
  }

  method SourceFixture(obj: Bbox, colliders: seq<Collider>, tol: real := 0.02, gap: real := 0.25)
    returns (r: Option<Support>)
    ensures IsSourceFixture(obj, colliders, tol, gap, r)
  {
    var best := HighestSupport(obj, colliders, tol);
    if best.None? {
      return None;
    }
    var s := best.value;
    var group := Flood(s.bound, Members(colliders, s, tol), gap);
    HullIsLeastCover(group);
    return Some(Support(Hull(group), s.parent));
  }

  /** The fixture holds the box of the highest support, the first listed of them, and is named by its parent path. */
  lemma FixtureHoldsSupport(obj: Bbox, colliders: seq<Collider>, tol: real, gap: real, f: Support) returns (k: nat)
    requires IsSourceFixture(obj, colliders, tol, gap, Some(f))
    ensures k < |colliders| && FirstHighest(obj, colliders, |colliders|, tol, k)
    ensures Covers(f.bound, Aabb(colliders[k].box)) && f.parent == Parent(colliders[k].path)
  {
    k :| k < |colliders| && FirstHighest(obj, colliders, |colliders|, tol, k)
         && IsFixtureOf(SupportOf(colliders[k]), colliders, tol, gap, f);
    var s := SupportOf(colliders[k]);
    ConnectedSelf(s.bound, AsSet(Members(colliders, s, tol)), gap);
    assert s.bound in Component(s.bound, AsSet(Members(colliders, s, tol)), gap);
  }

  // ------------------------------------------------------------------ order of the colliders

  /** A support of the object as high as any, wherever it is listed. */
  ghost predicate Highest(obj: Bbox, colliders: set<Collider>, tol: real, c: Collider) {
    c in colliders && Holds(obj, c, tol) && forall d <- colliders :: Holds(obj, d, tol) ==> Top(d) <= Top(c)
  }

  ghost function MemberSet(colliders: set<Collider>, s: Support, tol: real): set<Bbox> {
    set c | c in colliders && IsMember(c, s, tol) :: Aabb(c.box)
  }

  /** Equally high supports belong to one group: same parent, and connected. */
  ghost predicate TiesAgree(obj: Bbox, colliders: set<Collider>, tol: real, gap: real) {
    forall c, d | Highest(obj, colliders, tol, c) && Highest(obj, colliders, tol, d) ::
      && Parent(c.path) == Parent(d.path)
      && Connected(Aabb(c.box), Aabb(d.box), MemberSet(colliders, SupportOf(c), tol), gap)
  }

  lemma MembersAsSet(colliders: seq<Collider>, s: Support, tol: real)
    ensures AsSet(Members(colliders, s, tol)) == MemberSet(AsSet(colliders), s, tol)
  {
  }

  lemma ConnectedBefore(b: Bbox, a: Bbox, end: Bbox, members: set<Bbox>, gap: real)
    requires a in members && Touches(a, b, gap) && Connected(a, end, members, gap)
    ensures Connected(b, end, members, gap)
  {
    var path :| Chain(a, path, members, gap) && path[|path| - 1] == end;
    assert Chain(b, [b] + path, members, gap);
  }

  lemma {:induction false} ChainBack(start: Bbox, path: seq<Bbox>, members: set<Bbox>, gap: real)
    requires start in members && Chain(start, path, members, gap)
    ensures Connected(path[|path| - 1], start, members, gap)
    decreases |path|
  {
    var n := |path|;
    if n == 1 {
      ConnectedSelf(start, members, gap);
    } else {
      var shorter := path[..n - 1];
      assert Chain(start, shorter, members, gap);
      ChainBack(start, shorter, members, gap);
      ConnectedBefore(path[n - 1], path[n - 2], start, members, gap);
    }
  }

  lemma ComponentIsClosed(start: Bbox, members: set<Bbox>, gap: real)
    ensures Closed(Component(start, members, gap), members, gap)
  {
    forall b, g | b in members && g in Component(start, members, gap) && Touches(b, g, gap)
      ensures b in Component(start, members, gap)
    {
      ConnectedStep(start, g, b, members, gap);
    }
  }

  lemma ComponentWithin(a: Bbox, b: Bbox, members: set<Bbox>, gap: real)
    requires a in members && Connected(b, a, members, gap)
    ensures Component(a, members, gap) <= Component(b, members, gap)
  {
    ComponentIsClosed(b, members, gap);
    forall x | x in Component(a, members, gap) ensures x in Component(b, members, gap) {
      var path :| Chain(a, path, members, gap) && path[|path| - 1] == x;
      ClosedHoldsChain(a, path, Component(b, members, gap), members, gap);
    }
  }

  /** Connected members have the same component. */
  lemma ComponentsAgree(a: Bbox, b: Bbox, members: set<Bbox>, gap: real)
    requires a in members && b in members && Connected(a, b, members, gap)
    ensures Component(a, members, gap) == Component(b, members, gap)
  {
    var path :| Chain(a, path, members, gap) && path[|path| - 1] == b;
    ChainBack(a, path, members, gap);
    ComponentWithin(a, b, members, gap);
    ComponentWithin(b, a, members, gap);
  }

  lemma FirstHighestIsHighest(obj: Bbox, colliders: seq<Collider>, tol: real, k: nat)
    requires FirstHighest(obj, colliders, |colliders|, tol, k)
    ensures Highest(obj, AsSet(colliders), tol, colliders[k])
  {
    forall d | d in AsSet(colliders) && Holds(obj, d, tol) ensures Top(d) <= Top(colliders[k]) {
      var j :| 0 <= j < |colliders| && colliders[j] == d;
    }
  }

  /** Equally high supports of one group have the same answer in every order. */
  lemma OrderIndependent(obj: Bbox, a: seq<Collider>, b: seq<Collider>, tol: real, gap: real,
                         r: Option<Support>, s: Option<Support>)
    requires AsSet(a) == AsSet(b) && tol >= 0.0 && TiesAgree(obj, AsSet(a), tol, gap)
    requires IsSourceFixture(obj, a, tol, gap, r) && IsSourceFixture(obj, b, tol, gap, s)
    ensures r == s
  {
    hide Supports, TiesAgree, IsFixtureOf, Aabb;
    assert forall c :: c in a <==> c in AsSet(a);
    assert forall c :: c in b <==> c in AsSet(b);
    if r.Some? && s.Some? {
      var k: nat :| k < |a| && FirstHighest(obj, a, |a|, tol, k) && IsFixtureOf(SupportOf(a[k]), a, tol, gap, r.value);
      var m: nat :| m < |b| && FirstHighest(obj, b, |b|, tol, m) && IsFixtureOf(SupportOf(b[m]), b, tol, gap, s.value);
      FirstHighestIsHighest(obj, a, tol, k);
      FirstHighestIsHighest(obj, b, tol, m);
      SameFixture(obj, a, b, tol, gap, a[k], b[m], r.value, s.value);
    }
  }

  lemma SameFixture(obj: Bbox, a: seq<Collider>, b: seq<Collider>, tol: real, gap: real,
                    c: Collider, d: Collider, r: Support, s: Support)
    requires AsSet(a) == AsSet(b) && tol >= 0.0 && TiesAgree(obj, AsSet(a), tol, gap)
    requires Highest(obj, AsSet(a), tol, c) && Highest(obj, AsSet(b), tol, d)
    requires IsFixtureOf(SupportOf(c), a, tol, gap, r) && IsFixtureOf(SupportOf(d), b, tol, gap, s)
    ensures r == s
  {
    var sc, sd := SupportOf(c), SupportOf(d);
    MembersAsSet(a, sc, tol);
    MembersAsSet(b, sd, tol);
    TiedSupportsAgree(obj, AsSet(a), tol, gap, c, d);
    LeastCoverUnique(r.bound, s.bound, Component(sc.bound, MemberSet(AsSet(a), sc, tol), gap));
  }

  lemma TiedSupportsAgree(obj: Bbox, colliders: set<Collider>, tol: real, gap: real, c: Collider, d: Collider)
    requires tol >= 0.0 && TiesAgree(obj, colliders, tol, gap)
    requires Highest(obj, colliders, tol, c) && Highest(obj, colliders, tol, d)
    ensures var sc, sd := SupportOf(c), SupportOf(d);
            && sc.parent == sd.parent
            && Component(sc.bound, MemberSet(colliders, sc, tol), gap) ==
                Component(sd.bound, MemberSet(colliders, sd, tol), gap)
  {
    var sc, sd := SupportOf(c), SupportOf(d);
    var members := MemberSet(colliders, sc, tol);
    assert sc.bound.hi[2] == Top(c) == Top(d) == sd.bound.hi[2];
    assert members == MemberSet(colliders, sd, tol);
    assert IsMember(c, sc, tol) && IsMember(d, sc, tol);
    assert sc.bound in members && sd.bound in members;
    ComponentsAgree(sc.bound, sd.bound, members, gap);
  }

  /** Listing a highest support first makes its group the answer. */
  lemma FirstListedDecides(obj: Bbox, c: Collider, others: seq<Collider>, tol: real, gap: real, r: Option<Support>)
    requires Highest(obj, AsSet([c] + others), tol, c)
    requires IsSourceFixture(obj, [c] + others, tol, gap, r)
    ensures r.Some? && r.value.parent == Parent(c.path)
  {
    hide Aabb, Supports, Parent, IsLeastCover, Top;
    var all := [c] + others;
    assert all[0] == c;
    if r.Some? {
      var k: nat :| k < |all| && FirstHighest(obj, all, |all|, tol, k)
          && IsFixtureOf(SupportOf(all[k]), all, tol, gap, r.value);
      assert all[k] in AsSet(all);
    }
  }

  /** All the highest supports have one parent. */
  ghost predicate ParentsAgree(obj: Bbox, colliders: set<Collider>, tol: real) {
    forall c, d | Highest(obj, colliders, tol, c) && Highest(obj, colliders, tol, d) :: Parent(c.path) == Parent(d.path)
  }

  /** No bound is upside down, as for every box whose half extents are all non-negative. */
  predicate Upright(c: Collider) {
    Aabb(c.box).lo[2] <= Top(c)
  }

  /** Two highest supports share the object's centre and the height of their tops, so they touch. */
  lemma HighestTouch(obj: Bbox, colliders: set<Collider>, tol: real, gap: real, c: Collider, d: Collider)
    requires gap >= 0.0 && Upright(c) && Upright(d)
    requires Highest(obj, colliders, tol, c) && Highest(obj, colliders, tol, d)
    ensures Touches(Aabb(c.box), Aabb(d.box), gap)
  {
    assert Top(c) == Top(d);
    hide Aabb;
  }

  lemma TiesAgreeIffParents(obj: Bbox, colliders: set<Collider>, tol: real, gap: real)
    requires tol >= 0.0 && gap >= 0.0 && forall c <- colliders :: Upright(c)
    ensures TiesAgree(obj, colliders, tol, gap) <==> ParentsAgree(obj, colliders, tol)
  {
    if ParentsAgree(obj, colliders, tol) {
      forall c, d | Highest(obj, colliders, tol, c) && Highest(obj, colliders, tol, d)
        ensures Connected(Aabb(c.box), Aabb(d.box), MemberSet(colliders, SupportOf(c), tol), gap)
      {
        HighestConnected(obj, colliders, tol, gap, c, d);
      }
    }
  }

  lemma HighestConnected(obj: Bbox, colliders: set<Collider>, tol: real, gap: real, c: Collider, d: Collider)
    requires tol >= 0.0 && gap >= 0.0 && Upright(c) && Upright(d) && Parent(c.path) == Parent(d.path)
    requires Highest(obj, colliders, tol, c) && Highest(obj, colliders, tol, d)
    ensures Connected(Aabb(c.box), Aabb(d.box), MemberSet(colliders, SupportOf(c), tol), gap)
  {
    var members := MemberSet(colliders, SupportOf(c), tol);
    HighestTouch(obj, colliders, tol, gap, d, c);
    assert IsMember(d, SupportOf(c), tol) && Aabb(d.box) in members;
    ConnectedSelf(Aabb(c.box), members, gap);
    ConnectedStep(Aabb(c.box), Aabb(c.box), Aabb(d.box), members, gap);
  }

  /** Every order of the same colliders has the same answer. */
  ghost predicate OrderFree(obj: Bbox, colliders: seq<Collider>, tol: real, gap: real) {
    forall other: seq<Collider>, r, s ::
      multiset(other) == multiset(colliders) && IsSourceFixture(obj, colliders, tol, gap, r)
          && IsSourceFixture(obj, other, tol, gap, s)
      ==> r == s
  }

  lemma SameElements(a: seq<Collider>, b: seq<Collider>)
    requires multiset(a) == multiset(b)
    ensures AsSet(a) == AsSet(b)
  {
    forall c ensures c in a <==> c in b {
      assert c in multiset(a) <==> c in a;
      assert c in multiset(b) <==> c in b;
    }
  }

  lemma {:induction false} Listed(boxes: set<Bbox>) returns (list: seq<Bbox>)
    ensures AsSet(list) == boxes
    decreases |boxes|
  {
    if boxes == {} {
      list := [];
    } else {
      var b :| b in boxes;
      var rest := Listed(boxes - {b});
      list := [b] + rest;
      assert AsSet(list) == AsSet(rest) + {b};
    }
  }

  /** Some answer always meets the promise. */
  lemma AnswerExists(obj: Bbox, colliders: seq<Collider>, tol: real, gap: real, c: Collider)
    returns (r: Option<Support>)
    requires Highest(obj, AsSet(colliders), tol, c)
    ensures IsSourceFixture(obj, colliders, tol, gap, r)
  {
    var k := FirstOfHighest(obj, colliders, tol, |colliders|);
    var s := SupportOf(colliders[k]);
    var members := AsSet(Members(colliders, s, tol));
    ConnectedSelf(s.bound, members, gap);
    var group := Listed(Component(s.bound, members, gap));
    assert s.bound in AsSet(group);
    HullIsLeastCover(group);
    r := Some(Support(Hull(group), s.parent));
    assert IsFixtureOf(SupportOf(colliders[k]), colliders, tol, gap, r.value);
  }

  lemma {:induction false} FirstOfHighest(obj: Bbox, colliders: seq<Collider>, tol: real, n: nat) returns (k: nat)
    requires n <= |colliders| && exists j: nat | j < n :: Holds(obj, colliders[j], tol)
    ensures FirstHighest(obj, colliders, n, tol, k)
    decreases n
  {
    hide Holds, Top;
    var last := n - 1;
    if exists j: nat | j < last :: Holds(obj, colliders[j], tol) {
      k := FirstOfHighest(obj, colliders, tol, last);
      if Holds(obj, colliders[last], tol) && Top(colliders[last]) > Top(colliders[k]) {
        k := last;
      }
    } else {
      k := last;
    }
  }

  /** The same colliders with one of them listed first. */
  lemma ListFirst(colliders: seq<Collider>, c: Collider) returns (others: seq<Collider>)
    requires c in colliders
    ensures multiset([c] + others) == multiset(colliders)
  {
    var k :| 0 <= k < |colliders| && colliders[k] == c;
    others := colliders[..k] + colliders[k + 1..];
    assert colliders == colliders[..k] + [c] + colliders[k + 1..];
  }

  /** An order that another highest support's parent decides differently. */
  lemma OtherOrder(obj: Bbox, colliders: seq<Collider>, tol: real, gap: real, r: Support, c: Collider)
    requires c in colliders && Highest(obj, AsSet(colliders), tol, c) && r.parent != Parent(c.path)
    requires IsSourceFixture(obj, colliders, tol, gap, Some(r))
    ensures !OrderFree(obj, colliders, tol, gap)
  {
    hide IsSourceFixture, Highest, AsSet, Parent;
    var others := ListFirst(colliders, c);
    SameElements([c] + others, colliders);
    var s := AnswerExists(obj, [c] + others, tol, gap, c);
    FirstListedDecides(obj, c, others, tol, gap, s);
    assert s != Some(r);
  }

  /** The answer is the same for every order of the colliders exactly when all the highest supports have one parent. */
  lemma OrderFreeIffParentsAgree(obj: Bbox, colliders: seq<Collider>, tol: real, gap: real)
    requires tol >= 0.0 && gap >= 0.0 && forall c <- colliders :: Upright(c)
    ensures OrderFree(obj, colliders, tol, gap) <==> ParentsAgree(obj, AsSet(colliders), tol)
  {
    TiesAgreeIffParents(obj, AsSet(colliders), tol, gap);
    if ParentsAgree(obj, AsSet(colliders), tol) {
      forall other: seq<Collider>, r, s | multiset(other) == multiset(colliders)
          && IsSourceFixture(obj, colliders, tol, gap, r) && IsSourceFixture(obj, other, tol, gap, s)
        ensures r == s
      {
        SameElements(other, colliders);
        OrderIndependent(obj, colliders, other, tol, gap, r, s);
      }
    } else {
      var c, d :| Highest(obj, AsSet(colliders), tol, c) && Highest(obj, AsSet(colliders), tol, d)
          && Parent(c.path) != Parent(d.path);
      var r := AnswerExists(obj, colliders, tol, gap, c);
      if r.None? || r.value.parent == Parent(c.path) {
        OtherOrder(obj, colliders, tol, gap, r.value, d);
      } else {
        OtherOrder(obj, colliders, tol, gap, r.value, c);
      }
    }
  }

  const PLATE: OrientedBox := OrientedBox(ZERO, [[1.0, 0.0, 0.0], [0.0, 1.0, 0.0], [0.0, 0.0, 1.0]], [1.0, 1.0, 0.0])
  const TRAY: Collider := Collider("t/p", PLATE)
  const SHELF: Collider := Collider("s/p", PLATE)
  const CUP: Bbox := Bbox(ZERO, ZERO)

  /** Two equal plates of different fixtures under a cup: whichever is listed first is the answer. */
  lemma TwoPlatesDisagree(r: Option<Support>, s: Option<Support>)
    requires IsSourceFixture(CUP, [TRAY, SHELF], 0.02, 0.25, r) && IsSourceFixture(CUP, [SHELF, TRAY], 0.02, 0.25, s)
    ensures r.Some? && s.Some? && r.value.parent == "t" && s.value.parent == "s"
  {
    PlateHolds();
    hide Supports, Aabb, IsSourceFixture, Parent;
    assert [TRAY, SHELF] == [TRAY] + [SHELF] && [SHELF, TRAY] == [SHELF] + [TRAY];
    FirstListedDecides(CUP, TRAY, [SHELF], 0.02, 0.25, r);
    FirstListedDecides(CUP, SHELF, [TRAY], 0.02, 0.25, s);
    PlateParents();
  }

  lemma PlateParents()
    ensures Parent(TRAY.path) == "t" && Parent(SHELF.path) == "s"
  {
    assert TRAY.path[..1] == "t" && SHELF.path[..1] == "s";
    assert LastCut(TRAY.path, 3) == LastCut(TRAY.path, 2) && LastCut(SHELF.path, 3) == LastCut(SHELF.path, 2);
  }

  lemma PlateHolds()
    ensures Supports(CUP, Aabb(PLATE), 0.02)
  {
    assert Radius(PLATE, 0) == 1.0 && Radius(PLATE, 1) == 1.0 && Radius(PLATE, 2) == 0.0;
    assert -1.0 + ROUNDING <= 0.0 <= 1.0 - ROUNDING;
  }

  // ------------------------------------------------------------------ destination_hull

  datatype Placement = Placement(item: string, name: string, target: OrientedBox, adjacent: seq<OrientedBox>)

  function Bounds(boxes: seq<OrientedBox>): (r: seq<Bbox>)
    ensures |r| == |boxes|
    ensures forall i | 0 <= i < |boxes| :: r[i] == Aabb(boxes[i])
  {
    if boxes == [] then [] else [Aabb(boxes[0])] + Bounds(boxes[1..])
  }

  function Parts(p: Placement): (r: seq<Bbox>)
    ensures r != [] && forall b :: b in r <==> b == Aabb(p.target) || exists a <- p.adjacent :: Aabb(a) == b
  {
    [Aabb(p.target)] + Bounds(p.adjacent)
  }

  /** The candidate's bound meets the `anchor` plus or minus `cap` window. */
  predicate Reaches(p: Placement, anchor: Vec, cap: real) {
    var h := Hull(Parts(p));
    forall i | 0 <= i < 3 :: h.lo[i] <= anchor[i] + cap && h.hi[i] >= anchor[i] - cap
  }

  predicate InWindow(x: Vec, anchor: Vec, cap: real) {
    forall i | 0 <= i < 3 :: anchor[i] - cap <= x[i] <= anchor[i] + cap
  }

  lemma MeetingReaches(p: Placement, anchor: Vec, cap: real, x: Vec)
    requires InBox(x, Hull(Parts(p))) && InWindow(x, anchor, cap)
    ensures Reaches(p, anchor, cap)
  {
    var h := Hull(Parts(p));
    forall i | 0 <= i < 3 ensures h.lo[i] <= anchor[i] + cap && h.hi[i] >= anchor[i] - cap {
      assert h.lo[i] <= x[i] <= h.hi[i] && anchor[i] - cap <= x[i] <= anchor[i] + cap;
    }
  }

  /** The corner nearest the low side of both the bound and the window is in both. */
  lemma ReachingMeets(p: Placement, anchor: Vec, cap: real) returns (x: Vec)
    requires cap >= 0.0 && Reaches(p, anchor, cap)
    requires forall i | 0 <= i < 3 :: Hull(Parts(p)).lo[i] <= Hull(Parts(p)).hi[i]
    ensures InBox(x, Hull(Parts(p))) && InWindow(x, anchor, cap)
  {
    var h := Hull(Parts(p));
    x := [MaxReal(h.lo[0], anchor[0] - cap), MaxReal(h.lo[1], anchor[1] - cap), MaxReal(h.lo[2], anchor[2] - cap)];
    forall i | 0 <= i < 3 ensures h.lo[i] <= x[i] <= h.hi[i] && anchor[i] - cap <= x[i] <= anchor[i] + cap {
      assert x[i] == MaxReal(h.lo[i], anchor[i] - cap);
    }
  }

  /** Reaching the window is sharing a point with it. */
  lemma ReachesIffMeets(p: Placement, anchor: Vec, cap: real)
    requires cap >= 0.0
    requires forall i | 0 <= i < 3 :: Hull(Parts(p)).lo[i] <= Hull(Parts(p)).hi[i]
    ensures Reaches(p, anchor, cap) <==> exists x: Vec :: InBox(x, Hull(Parts(p))) && InWindow(x, anchor, cap)
  {
    hide Reaches, InBox, InWindow, Hull, Parts;
    if Reaches(p, anchor, cap) {
      var x := ReachingMeets(p, anchor, cap);
    }
    if x: Vec :| InBox(x, Hull(Parts(p))) && InWindow(x, anchor, cap) {
      MeetingReaches(p, anchor, cap, x);
    }
  }

  datatype Destination = Destination(hull: Option<Bbox>, kept: seq<string>, dropped: seq<string>)

  /** The candidates of the object, in order, that do (or do not) reach the window. */
  ghost function Candidates(placements: seq<Placement>, name: string, anchor: Vec, cap: real, near: bool)
    : seq<Placement>
  {
    Found(placements, Candidate(name, anchor, cap, near))
  }

  ghost function Candidate(name: string, anchor: Vec, cap: real, near: bool): Placement -> Option<Placement> {
    (p: Placement) => if p.item == name && (Reaches(p, anchor, cap) <==> near) then Some(p) else None
  }

  ghost function Names(ps: seq<Placement>): (names: seq<string>)
    ensures |names| == |ps| && forall i | 0 <= i < |ps| :: names[i] == ps[i].name
  {
    if ps == [] then [] else Names(ps[..|ps| - 1]) + [ps[|ps| - 1].name]
  }

  ghost function AllParts(ps: seq<Placement>): set<Bbox> {
    set p, b | p in ps && b in Parts(p) :: b
  }

  /** `destination_hull`: the least box over every part of exactly the candidates that reach the window. */
  method DestinationHull(placements: seq<Placement>, name: string, anchor: Vec, cap: real) returns (d: Destination)
    ensures d.kept == Names(Candidates(placements, name, anchor, cap, true))
    ensures d.dropped == Names(Candidates(placements, name, anchor, cap, false))
    ensures d.hull.None? <==> d.kept == []
    ensures d.hull.Some? ==> IsLeastCover(d.hull.value, AllParts(Candidates(placements, name, anchor, cap, true)))
  {
    hide Reaches, Parts, Candidates, Names, Hull, IsLeastCover;
    var boxes: seq<Bbox>, kept: seq<string>, dropped: seq<string> := [], [], [];
    NoCandidates(name, anchor, cap);
    var i := 0;
    while i < |placements|
      invariant 0 <= i <= |placements|
      invariant kept == Names(Candidates(placements[..i], name, anchor, cap, true))
      invariant dropped == Names(Candidates(placements[..i], name, anchor, cap, false))
      invariant AsSet(boxes) == AllParts(Candidates(placements[..i], name, anchor, cap, true))
      invariant boxes == [] <==> kept == []
    {
      var p := placements[i];
      CandidateStep(placements, i, name, anchor, cap, true);
      CandidateStep(placements, i, name, anchor, cap, false);
      if p.item == name {
        if Reaches(p, anchor, cap) {
          PartsGrow(Candidates(placements[..i], name, anchor, cap, true), p, boxes);
          boxes, kept := boxes + Parts(p), kept + [p.name];
        } else {
          NamesGrow(Candidates(placements[..i], name, anchor, cap, false), p);
          dropped := dropped + [p.name];
        }
      }
      i := i + 1;
    }
    assert placements[..i] == placements;
    if boxes == [] {
      return Destination(None, kept, dropped);
    }
    HullIsLeastCover(boxes);
    return Destination(Some(Hull(boxes)), kept, dropped);
  }

  lemma NoCandidates(name: string, anchor: Vec, cap: real)
    ensures Candidates([], name, anchor, cap, true) == [] && Candidates([], name, anchor, cap, false) == []
    ensures Names([]) == [] && AllParts([]) == {}
  {
  }

  lemma CandidateStep(placements: seq<Placement>, i: nat, name: string, anchor: Vec, cap: real, near: bool)
    requires i < |placements|
    ensures var p, before := placements[i], Candidates(placements[..i], name, anchor, cap, near);
            Candidates(placements[..i + 1], name, anchor, cap, near)
            == if p.item == name && Reaches(p, anchor, cap) == near then before + [p] else before
  {
    assert placements[..i] + [placements[i]] == placements[..i + 1];
    FoundNext(placements[..i], placements[i], Candidate(name, anchor, cap, near));
  }

  lemma NamesGrow(ps: seq<Placement>, p: Placement)
    ensures Names(ps + [p]) == Names(ps) + [p.name]
  {
    assert (ps + [p])[..|ps|] == ps;
  }

  lemma PartsGrow(ps: seq<Placement>, p: Placement, boxes: seq<Bbox>)
    requires AsSet(boxes) == AllParts(ps)
    ensures AsSet(boxes + Parts(p)) == AllParts(ps + [p])
    ensures Names(ps + [p]) == Names(ps) + [p.name]
  {
    NamesGrow(ps, p);
    assert forall b :: b in boxes + Parts(p) <==> b in AllParts(ps) || b in Parts(p);
    forall b | b in AllParts(ps) || b in Parts(p) ensures b in AllParts(ps + [p]) {
      if b in Parts(p) {
        assert p in ps + [p];
      } else {
        var q :| q in ps && b in Parts(q);
        assert q in ps + [p];
      }
    }
  }
}
