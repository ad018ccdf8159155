/** The largest difference between the numbers of two JSON trees, as a distance. */
module TreeDiff {
  import opened Basics

  datatype Json =
    | Null
    | Bool(b: bool)
    | Number(v: real)
    | Text(s: string)
    | Items(items: seq<Json>)
    | Fields(fields: map<string, Json>)

  datatype Distance = Finite(v: real) | Infinite

  const ZERO: Distance := Finite(0.0)

  predicate Leq(a: Distance, b: Distance) {
    b.Infinite? || (a.Finite? && a.v <= b.v)
  }

  function Max(a: Distance, b: Distance): Distance {
    if Leq(a, b) then b else a
  }

  function Plus(a: Distance, b: Distance): Distance {
    if a.Infinite? || b.Infinite? then Infinite else Finite(a.v + b.v)
  }

  /** `float(x)` of a number; `True` counts as one. */
  function AsNumber(j: Json): Option<real> {
    match j
    case Number(v) => Some(v)
    case Bool(b) => Some(if b then 1.0 else 0.0)
    case _ => None
  }

  /** Python's `==` between values of which at most one is a list or a dict: `True == 1.0`. */
  predicate ScalarEqual(a: Json, b: Json) {
    if AsNumber(a).Some? && AsNumber(b).Some? then AsNumber(a) == AsNumber(b)
    else match (a, b)
         case (Null, Null) => true
         case (Text(s), Text(t)) => s == t
         case _ => false
  }

  function ScalarDiff(a: Json, b: Json): Distance {
    if a.Number? && AsNumber(b).Some? then Finite(Abs(a.v - AsNumber(b).value))
    else if ScalarEqual(a, b) then ZERO
    else Infinite
  }

  /** `_max_abs_diff` */
  ghost function Diff(a: Json, b: Json): Distance
    decreases a, 1
  {
    if a.Fields? && b.Fields? then
      if a.fields.Keys != b.fields.Keys then Infinite else DiffFields(a, b, a.fields.Keys)
    else if a.Items? && b.Items? then
      if |a.items| != |b.items| then Infinite else DiffItems(a, b, |a.items|)
    else ScalarDiff(a, b)
  }

  /** The maximum over the first `n` items, zero when there are none. */
  ghost function DiffItems(a: Json, b: Json, n: nat): Distance
    requires a.Items? && b.Items? && n <= |a.items| && n <= |b.items|
    decreases a, 0, n
  {
    if n == 0 then ZERO else Max(DiffItems(a, b, n - 1), Diff(a.items[n - 1], b.items[n - 1]))
  }

  ghost function Pick(keys: set<string>): (k: string)
    requires keys != {}
    ensures k in keys
  {
    var k :| k in keys;
    k
  }

  /** The maximum over the fields `keys`, zero when there are none. */
  ghost function DiffFields(a: Json, b: Json, keys: set<string>): Distance
    requires a.Fields? && b.Fields? && keys <= a.fields.Keys && keys <= b.fields.Keys
    decreases a, 0, |keys|
  {
    if keys == {} then ZERO
    else
      var k := Pick(keys);
      Max(DiffFields(a, b, keys - {k}), Diff(a.fields[k], b.fields[k]))
  }

  // ------------------------------------------------------------------ maxima

  predicate NonNegative(d: Distance) {
    d.Finite? ==> d.v >= 0.0
  }

  /** The maximum over items bounds each of them, and is the least such bound. */
  lemma {:induction false} ItemsMax(a: Json, b: Json, n: nat, i: nat)
    requires a.Items? && b.Items? && i < n <= |a.items| && n <= |b.items|
    ensures Leq(Diff(a.items[i], b.items[i]), DiffItems(a, b, n))
    decreases n
  {
    if i < n - 1 {
      ItemsMax(a, b, n - 1, i);
    }
  }

  lemma {:induction false} ItemsLeast(a: Json, b: Json, n: nat, bound: Distance)
    requires a.Items? && b.Items? && n <= |a.items| && n <= |b.items| && NonNegative(bound)
    requires forall i | 0 <= i < n :: Leq(Diff(a.items[i], b.items[i]), bound)
    ensures Leq(DiffItems(a, b, n), bound)
    decreases n
  {
    if n > 0 {
      ItemsLeast(a, b, n - 1, bound);
    }
  }

  lemma {:induction false} FieldsMax(a: Json, b: Json, keys: set<string>, key: string)
    requires a.Fields? && b.Fields? && keys <= a.fields.Keys && keys <= b.fields.Keys && key in keys
    ensures Leq(Diff(a.fields[key], b.fields[key]), DiffFields(a, b, keys))
    decreases |keys|
  {
    hide Diff;
    var k := Pick(keys);
    if key != k {
      FieldsMax(a, b, keys - {k}, key);
    }
  }

  lemma {:induction false} FieldsLeast(a: Json, b: Json, keys: set<string>, bound: Distance)
    requires a.Fields? && b.Fields? && keys <= a.fields.Keys && keys <= b.fields.Keys && NonNegative(bound)
    requires forall k <- keys :: Leq(Diff(a.fields[k], b.fields[k]), bound)
    ensures Leq(DiffFields(a, b, keys), bound)
    decreases |keys|
  {
    hide Diff;
    if keys != {} {
      var k := Pick(keys);
      FieldsLeast(a, b, keys - {k}, bound);
    }
  }

  lemma {:induction false} DiffNonNegative(a: Json, b: Json)
    ensures NonNegative(Diff(a, b))
    decreases a, 1
  {
    if a.Items? && b.Items? && |a.items| == |b.items| {
      ItemsNonNegative(a, b, |a.items|);
    } else if a.Fields? && b.Fields? && a.fields.Keys == b.fields.Keys {
      FieldsNonNegative(a, b, a.fields.Keys);
    }
  }

  lemma {:induction false} ItemsNonNegative(a: Json, b: Json, n: nat)
    requires a.Items? && b.Items? && n <= |a.items| && n <= |b.items|
    ensures NonNegative(DiffItems(a, b, n))
    decreases a, 0, n
  {
    if n > 0 {
      ItemsNonNegative(a, b, n - 1);
      DiffNonNegative(a.items[n - 1], b.items[n - 1]);
    }
  }

  lemma {:induction false} FieldsNonNegative(a: Json, b: Json, keys: set<string>)
    requires a.Fields? && b.Fields? && keys <= a.fields.Keys && keys <= b.fields.Keys
    ensures NonNegative(DiffFields(a, b, keys))
    decreases a, 0, |keys|
  {
    hide Diff;
    if keys != {} {
      var k := Pick(keys);
      FieldsNonNegative(a, b, keys - {k});
      DiffNonNegative(a.fields[k], b.fields[k]);
    }
  }

  // ------------------------------------------------------------------ zero

  /** Python's `==` on whole trees. */
  ghost predicate TreeEqual(a: Json, b: Json)
    decreases a
  {
    if a.Fields? && b.Fields? then
      a.fields.Keys == b.fields.Keys && forall k | k in a.fields :: TreeEqual(a.fields[k], b.fields[k])
    else if a.Items? && b.Items? then
      |a.items| == |b.items| && forall i | 0 <= i < |a.items| :: TreeEqual(a.items[i], b.items[i])
    else ScalarEqual(a, b)
  }

  /** The distance is zero exactly between trees Python takes for equal. */
  lemma {:induction false} ZeroIffEqual(a: Json, b: Json)
    ensures Diff(a, b) == ZERO <==> TreeEqual(a, b)
    decreases a
  {
    if a.Items? && b.Items? && |a.items| == |b.items| {
      forall i | 0 <= i < |a.items|
        ensures Leq(Diff(a.items[i], b.items[i]), ZERO) <==> TreeEqual(a.items[i], b.items[i])
        ensures Leq(Diff(a.items[i], b.items[i]), Diff(a, b))
      {
        ZeroIffEqual(a.items[i], b.items[i]);
        DiffNonNegative(a.items[i], b.items[i]);
        ItemsMax(a, b, |a.items|, i);
      }
      DiffNonNegative(a, b);
      if TreeEqual(a, b) {
        ItemsLeast(a, b, |a.items|, ZERO);
      }
    } else if a.Fields? && b.Fields? && a.fields.Keys == b.fields.Keys {
      forall k | k in a.fields
        ensures Leq(Diff(a.fields[k], b.fields[k]), ZERO) <==> TreeEqual(a.fields[k], b.fields[k])
        ensures Leq(Diff(a.fields[k], b.fields[k]), Diff(a, b))
      {
        ZeroIffEqual(a.fields[k], b.fields[k]);
        DiffNonNegative(a.fields[k], b.fields[k]);
        FieldsMax(a, b, a.fields.Keys, k);
      }
      DiffNonNegative(a, b);
      if TreeEqual(a, b) {
        FieldsLeast(a, b, a.fields.Keys, ZERO);
      }
    }
  }

  /** No boolean anywhere in the tree. */
  ghost predicate BoolFree(a: Json)
    decreases a
  {
    match a
    case Bool(_) => false
    case Items(items) => forall i | 0 <= i < |items| :: BoolFree(items[i])
    case Fields(fields) => forall k | k in fields :: BoolFree(fields[k])
    case _ => true
  }

  /** Without booleans Python's equality is the identity of trees. */
  lemma {:induction false} EqualIsIdentity(a: Json, b: Json)
    requires BoolFree(a) && BoolFree(b)
    ensures TreeEqual(a, b) <==> a == b
    decreases a
  {
    if a.Items? && b.Items? && |a.items| == |b.items| {
      forall i | 0 <= i < |a.items| ensures TreeEqual(a.items[i], b.items[i]) <==> a.items[i] == b.items[i] {
        EqualIsIdentity(a.items[i], b.items[i]);
      }
      assert TreeEqual(a, b) ==> a.items == b.items;
    } else if a.Fields? && b.Fields? && a.fields.Keys == b.fields.Keys {
      forall k | k in a.fields ensures TreeEqual(a.fields[k], b.fields[k]) <==> a.fields[k] == b.fields[k] {
        EqualIsIdentity(a.fields[k], b.fields[k]);
      }
      assert TreeEqual(a, b) ==> a.fields == b.fields;
    }
  }

  // ------------------------------------------------------------------ infinity

  /** The shapes differ somewhere: lengths, keys, or two values of which one is no number. */
  ghost predicate Mismatch(a: Json, b: Json)
    decreases a
  {
    if a.Fields? && b.Fields? then
      a.fields.Keys != b.fields.Keys || exists k | k in a.fields :: Mismatch(a.fields[k], b.fields[k])
    else if a.Items? && b.Items? then
      |a.items| != |b.items| || exists i | 0 <= i < |a.items| :: Mismatch(a.items[i], b.items[i])
    else !(AsNumber(a).Some? && AsNumber(b).Some?) && !ScalarEqual(a, b)
  }

  /** Somewhere a boolean of the first tree faces another number, or the other boolean. */
  ghost predicate BoolFirst(a: Json, b: Json)
    decreases a
  {
    if a.Fields? && b.Fields? then
      a.fields.Keys == b.fields.Keys && exists k | k in a.fields :: BoolFirst(a.fields[k], b.fields[k])
    else if a.Items? && b.Items? then
      |a.items| == |b.items| && exists i | 0 <= i < |a.items| :: BoolFirst(a.items[i], b.items[i])
    else a.Bool? && AsNumber(b).Some? && AsNumber(a) != AsNumber(b)
  }

  lemma {:induction false} ItemsInfinite(a: Json, b: Json, n: nat)
    requires a.Items? && b.Items? && n <= |a.items| && n <= |b.items|
    ensures DiffItems(a, b, n).Infinite? <==> exists i | 0 <= i < n :: Diff(a.items[i], b.items[i]).Infinite?
    decreases n
  {
    if n > 0 {
      ItemsInfinite(a, b, n - 1);
    }
  }

  lemma {:induction false} FieldsInfinite(a: Json, b: Json, keys: set<string>)
    requires a.Fields? && b.Fields? && keys <= a.fields.Keys && keys <= b.fields.Keys
    ensures DiffFields(a, b, keys).Infinite? <==> exists k | k in keys :: Diff(a.fields[k], b.fields[k]).Infinite?
    decreases |keys|
  {
    hide Diff;
    if keys != {} {
      FieldsInfinite(a, b, keys - {Pick(keys)});
    }
  }

  /** The distance is infinite exactly when the shapes differ or a boolean of the first tree faces another number. */
  lemma {:induction false} InfiniteIff(a: Json, b: Json)
    ensures Diff(a, b).Infinite? <==> Mismatch(a, b) || BoolFirst(a, b)
    decreases a
  {
    if a.Items? && b.Items? && |a.items| == |b.items| {
      ItemsInfinite(a, b, |a.items|);
      forall i | 0 <= i < |a.items|
        ensures Diff(a.items[i], b.items[i]).Infinite? <==>
                Mismatch(a.items[i], b.items[i]) || BoolFirst(a.items[i], b.items[i])
      {
        InfiniteIff(a.items[i], b.items[i]);
      }
    } else if a.Fields? && b.Fields? && a.fields.Keys == b.fields.Keys {
      FieldsInfinite(a, b, a.fields.Keys);
      forall k | k in a.fields
        ensures Diff(a.fields[k], b.fields[k]).Infinite? <==>
                Mismatch(a.fields[k], b.fields[k]) || BoolFirst(a.fields[k], b.fields[k])
      {
        InfiniteIff(a.fields[k], b.fields[k]);
      }
    }
  }

  // ------------------------------------------------------------------ symmetry

  lemma {:induction false} MismatchSymmetric(a: Json, b: Json)
    ensures Mismatch(a, b) <==> Mismatch(b, a)
    decreases a
  {
    if a.Items? && b.Items? && |a.items| == |b.items| {
      forall i | 0 <= i < |a.items| ensures Mismatch(a.items[i], b.items[i]) <==> Mismatch(b.items[i], a.items[i]) {
        MismatchSymmetric(a.items[i], b.items[i]);
      }
    } else if a.Fields? && b.Fields? && a.fields.Keys == b.fields.Keys {
      forall k | k in a.fields ensures Mismatch(a.fields[k], b.fields[k]) <==> Mismatch(b.fields[k], a.fields[k]) {
        MismatchSymmetric(a.fields[k], b.fields[k]);
      }
    }
  }

  lemma {:induction false} DiffLeqSwapped(a: Json, b: Json)
    requires !BoolFirst(a, b)
    ensures Leq(Diff(a, b), Diff(b, a))
    decreases a
  {
    if a.Items? && b.Items? && |a.items| == |b.items| {
      DiffNonNegative(b, a);
      forall i | 0 <= i < |a.items| ensures Leq(Diff(a.items[i], b.items[i]), Diff(b, a)) {
        DiffLeqSwapped(a.items[i], b.items[i]);
        ItemsMax(b, a, |a.items|, i);
      }
      ItemsLeast(a, b, |a.items|, Diff(b, a));
    } else if a.Fields? && b.Fields? && a.fields.Keys == b.fields.Keys {
      DiffNonNegative(b, a);
      forall k | k in a.fields ensures Leq(Diff(a.fields[k], b.fields[k]), Diff(b, a)) {
        DiffLeqSwapped(a.fields[k], b.fields[k]);
        FieldsMax(b, a, a.fields.Keys, k);
      }
      FieldsLeast(a, b, a.fields.Keys, Diff(b, a));
    }
  }

  /**
   * The order of the two trees matters exactly when their shapes agree and only one of them has a
   * boolean facing another number.
   */
  lemma SymmetricIff(a: Json, b: Json)
    ensures Diff(a, b) == Diff(b, a) <==> Mismatch(a, b) || (BoolFirst(a, b) <==> BoolFirst(b, a))
  {
    InfiniteIff(a, b);
    InfiniteIff(b, a);
    MismatchSymmetric(a, b);
    if !BoolFirst(a, b) && !BoolFirst(b, a) {
      DiffLeqSwapped(a, b);
      DiffLeqSwapped(b, a);
    }
  }

  lemma {:induction false} BoolFreeNeverFirst(a: Json, b: Json)
    requires BoolFree(a)
    ensures !BoolFirst(a, b)
    decreases a
  {
    if a.Items? && b.Items? && |a.items| == |b.items| {
      forall i | 0 <= i < |a.items| ensures !BoolFirst(a.items[i], b.items[i]) {
        BoolFreeNeverFirst(a.items[i], b.items[i]);
      }
    } else if a.Fields? && b.Fields? && a.fields.Keys == b.fields.Keys {
      forall k | k in a.fields ensures !BoolFirst(a.fields[k], b.fields[k]) {
        BoolFreeNeverFirst(a.fields[k], b.fields[k]);
      }
    }
  }

  // ------------------------------------------------------------------ triangle

  lemma PlusMonotone(a: Distance, b: Distance, c: Distance, d: Distance)
    requires Leq(a, c) && Leq(b, d)
    ensures Leq(Plus(a, b), Plus(c, d))
  {
  }

  lemma LeqTransitive(a: Distance, b: Distance, c: Distance)
    requires Leq(a, b) && Leq(b, c)
    ensures Leq(a, c)
  {
  }

  predicate Scalar(a: Json) {
    !a.Items? && !a.Fields?
  }

  lemma ScalarUnfolds(a: Json, b: Json)
    requires Scalar(a) || Scalar(b)
    ensures Diff(a, b) == ScalarDiff(a, b)
    ensures Scalar(a) != Scalar(b) ==> Diff(a, b).Infinite?
    ensures BoolFirst(a, b) <==> a.Bool? && AsNumber(b).Some? && AsNumber(a) != AsNumber(b)
  {
  }

  lemma AbsTriangle(x: real, y: real, z: real)
    ensures Abs(x - z) <= Abs(x - y) + Abs(y - z)
  {
  }

  lemma PlainTriangle(a: Json, b: Json, c: Json)
    requires Scalar(a) && !(a.Bool? && AsNumber(c).Some? && AsNumber(a) != AsNumber(c))
    ensures Leq(ScalarDiff(a, c), Plus(ScalarDiff(a, b), ScalarDiff(b, c)))
  {
    hide Abs;
    if AsNumber(a).Some? && AsNumber(b).Some? && AsNumber(c).Some? {
      AbsTriangle(AsNumber(a).value, AsNumber(b).value, AsNumber(c).value);
    }
  }

  lemma ScalarTriangle(a: Json, b: Json, c: Json)
    requires Scalar(a) && !BoolFirst(a, c)
    ensures Leq(Diff(a, c), Plus(Diff(a, b), Diff(b, c)))
  {
    hide Diff, BoolFirst, AsNumber, ScalarEqual;
    ScalarUnfolds(a, b);
    ScalarUnfolds(a, c);
    if Scalar(b) {
      ScalarUnfolds(b, c);
      PlainTriangle(a, b, c);
    }
  }

  /** The triangle inequality, as soon as no boolean of the first tree faces another number of the third. */
  lemma {:induction false} Triangle(a: Json, b: Json, c: Json)
    requires !BoolFirst(a, c)
    ensures Leq(Diff(a, c), Plus(Diff(a, b), Diff(b, c)))
    decreases a
  {
    hide Diff, BoolFirst;
    if a.Items? && b.Items? && c.Items? && |a.items| == |b.items| == |c.items| {
      ItemsTriangle(a, b, c);
    } else if a.Fields? && b.Fields? && c.Fields? && a.fields.Keys == b.fields.Keys == c.fields.Keys {
      FieldsTriangle(a, b, c);
    } else if a.Items? || a.Fields? {
      ShapeTriangle(a, b, c);
    } else {
      ScalarTriangle(a, b, c);
    }
  }

  /** A list or dict is infinitely far from everything of another shape. */
  lemma ShapeTriangle(a: Json, b: Json, c: Json)
    requires a.Items? || a.Fields?
    requires !(a.Items? && b.Items? && c.Items? && |a.items| == |b.items| == |c.items|)
    requires !(a.Fields? && b.Fields? && c.Fields? && a.fields.Keys == b.fields.Keys == c.fields.Keys)
    ensures Diff(a, b).Infinite? || Diff(b, c).Infinite?
  {
    hide DiffItems, DiffFields, BoolFirst;
  }

  lemma {:induction false} ItemsTriangle(a: Json, b: Json, c: Json)
    requires !BoolFirst(a, c) && a.Items? && b.Items? && c.Items? && |a.items| == |b.items| == |c.items|
    ensures Leq(Diff(a, c), Plus(Diff(a, b), Diff(b, c)))
    decreases a, 0
  {
    var n, bound := |a.items|, Plus(Diff(a, b), Diff(b, c));
    DiffNonNegative(a, b);
    DiffNonNegative(b, c);
    forall i | 0 <= i < n ensures Leq(Diff(a.items[i], c.items[i]), bound) {
      var ab, bc := Diff(a.items[i], b.items[i]), Diff(b.items[i], c.items[i]);
      Triangle(a.items[i], b.items[i], c.items[i]);
      ItemsMax(a, b, n, i);
      ItemsMax(b, c, n, i);
      PlusMonotone(ab, bc, Diff(a, b), Diff(b, c));
      LeqTransitive(Diff(a.items[i], c.items[i]), Plus(ab, bc), bound);
    }
    ItemsLeast(a, c, n, bound);
  }

  lemma {:induction false} FieldsTriangle(a: Json, b: Json, c: Json)
    requires !BoolFirst(a, c) && a.Fields? && b.Fields? && c.Fields? && a.fields.Keys == b.fields.Keys == c.fields.Keys
    ensures Leq(Diff(a, c), Plus(Diff(a, b), Diff(b, c)))
    decreases a, 0
  {
    var keys, bound := a.fields.Keys, Plus(Diff(a, b), Diff(b, c));
    DiffNonNegative(a, b);
    DiffNonNegative(b, c);
    forall k | k in keys ensures Leq(Diff(a.fields[k], c.fields[k]), bound) {
      var ab, bc := Diff(a.fields[k], b.fields[k]), Diff(b.fields[k], c.fields[k]);
      Triangle(a.fields[k], b.fields[k], c.fields[k]);
      FieldsMax(a, b, keys, k);
      FieldsMax(b, c, keys, k);
      PlusMonotone(ab, bc, Diff(a, b), Diff(b, c));
      LeqTransitive(Diff(a.fields[k], c.fields[k]), Plus(ab, bc), bound);
    }
    FieldsLeast(a, c, keys, bound);
  }

  /**
   * The triangle inequality holds exactly when a boolean of the first tree that faces another number
   * of the third is made up for by an infinite distance to or from the second.
   */
  lemma TriangleIff(a: Json, b: Json, c: Json)
    ensures Leq(Diff(a, c), Plus(Diff(a, b), Diff(b, c))) <==>
            (BoolFirst(a, c) ==> Mismatch(a, b) || BoolFirst(a, b) || Mismatch(b, c) || BoolFirst(b, c))
  {
    InfiniteIff(a, b);
    InfiniteIff(b, c);
    InfiniteIff(a, c);
    if !BoolFirst(a, c) {
      Triangle(a, b, c);
    }
  }

  /** On boolean-free trees the distance is an extended metric. */
  lemma BoolFreeMetric(a: Json, b: Json, c: Json)
    requires BoolFree(a) && BoolFree(b) && BoolFree(c)
    ensures NonNegative(Diff(a, b)) && (Diff(a, b) == ZERO <==> a == b)
    ensures Diff(a, b) == Diff(b, a)
    ensures Leq(Diff(a, c), Plus(Diff(a, b), Diff(b, c)))
  {
    DiffNonNegative(a, b);
    ZeroIffEqual(a, b);
    EqualIsIdentity(a, b);
    BoolFreeNeverFirst(a, b);
    BoolFreeNeverFirst(b, a);
    BoolFreeNeverFirst(a, c);
    SymmetricIff(a, b);
    Triangle(a, b, c);
  }

  /** With booleans neither symmetry nor the triangle inequality holds. */
  lemma BooleansBreakMetric()
    ensures Diff(Number(2.0), Bool(true)) == Finite(1.0) && Diff(Bool(true), Number(2.0)) == Infinite
    ensures !Leq(Diff(Bool(true), Number(2.0)), Plus(Diff(Bool(true), Number(1.0)), Diff(Number(1.0), Number(2.0))))
  {
  }

  // ------------------------------------------------------------------ what the distance is

  /** `x` and `y` stand at the same place of the two trees, and are not both lists or both dicts. */
  ghost predicate Facing(a: Json, b: Json, x: Json, y: Json)
    decreases a
  {
    if a.Fields? && b.Fields? then
      a.fields.Keys == b.fields.Keys && exists k | k in a.fields :: Facing(a.fields[k], b.fields[k], x, y)
    else if a.Items? && b.Items? then
      |a.items| == |b.items| && exists i | 0 <= i < |a.items| :: Facing(a.items[i], b.items[i], x, y)
    else x == a && y == b
  }

  /** Two numbers differ by `d`; `True` counts as one and `False` as zero. */
  ghost predicate DifferBy(x: Json, y: Json, d: real) {
    exists v: real, w: real :: IsNumber(x, v) && IsNumber(y, w) && (d == v - w || d == w - v) && d >= 0.0
  }

  ghost predicate IsNumber(j: Json, v: real) {
    j == Number(v) || (j == Bool(true) && v == 1.0) || (j == Bool(false) && v == 0.0)
  }

  lemma NumberIff(j: Json, v: real)
    ensures IsNumber(j, v) <==> AsNumber(j) == Some(v)
  {
  }

  lemma ScalarsDifferBy(x: Json, y: Json, d: real)
    requires !(x.Items? && y.Items?) && !(x.Fields? && y.Fields?)
    ensures DifferBy(x, y, d) ==> Leq(Finite(d), Diff(x, y))
    ensures Diff(x, y) == Finite(d) && d != 0.0 ==> DifferBy(x, y, d)
  {
    assert Diff(x, y) == ScalarDiff(x, y);
    if v: real, w: real :| IsNumber(x, v) && IsNumber(y, w) && (d == v - w || d == w - v) && d >= 0.0 {
      NumberIff(x, v);
      NumberIff(y, w);
    }
    if AsNumber(x).Some? && AsNumber(y).Some? {
      NumberIff(x, AsNumber(x).value);
      NumberIff(y, AsNumber(y).value);
    }
  }

  /** No two facing numbers differ by more than the distance. */
  lemma {:induction false} NoGapBeyond(a: Json, b: Json, x: Json, y: Json, d: real)
    requires Facing(a, b, x, y) && DifferBy(x, y, d)
    ensures Leq(Finite(d), Diff(a, b))
    decreases a
  {
    hide DifferBy;
    if a.Items? && b.Items? {
      var i :| 0 <= i < |a.items| && Facing(a.items[i], b.items[i], x, y);
      NoGapBeyond(a.items[i], b.items[i], x, y, d);
      ItemsMax(a, b, |a.items|, i);
    } else if a.Fields? && b.Fields? {
      var k :| k in a.fields && Facing(a.fields[k], b.fields[k], x, y);
      NoGapBeyond(a.fields[k], b.fields[k], x, y, d);
      FieldsMax(a, b, a.fields.Keys, k);
    } else {
      ScalarsDifferBy(a, b, d);
    }
  }

  lemma {:induction false} ItemsAttained(a: Json, b: Json, n: nat)
    requires a.Items? && b.Items? && n <= |a.items| && n <= |b.items|
    ensures DiffItems(a, b, n) == ZERO || exists i | 0 <= i < n :: DiffItems(a, b, n) == Diff(a.items[i], b.items[i])
    decreases n
  {
    if n > 0 {
      ItemsAttained(a, b, n - 1);
    }
  }

  lemma {:induction false} FieldsAttained(a: Json, b: Json, keys: set<string>)
    requires a.Fields? && b.Fields? && keys <= a.fields.Keys && keys <= b.fields.Keys
    ensures DiffFields(a, b, keys) == ZERO
            || exists k | k in keys :: DiffFields(a, b, keys) == Diff(a.fields[k], b.fields[k])
    decreases |keys|
  {
    hide Diff;
    if keys != {} {
      FieldsAttained(a, b, keys - {Pick(keys)});
    }
  }

  /** A finite distance other than zero is how far some two facing numbers differ. */
  lemma {:induction false} GapAttained(a: Json, b: Json) returns (x: Json, y: Json)
    requires Diff(a, b).Finite? && Diff(a, b) != ZERO
    ensures Facing(a, b, x, y) && DifferBy(x, y, Diff(a, b).v)
    decreases a
  {
    if a.Items? && b.Items? {
      ItemsAttained(a, b, |a.items|);
      var i :| 0 <= i < |a.items| && Diff(a, b) == Diff(a.items[i], b.items[i]);
      x, y := GapAttained(a.items[i], b.items[i]);
    } else if a.Fields? && b.Fields? {
      FieldsAttained(a, b, a.fields.Keys);
      var k :| k in a.fields && Diff(a, b) == Diff(a.fields[k], b.fields[k]);
      x, y := GapAttained(a.fields[k], b.fields[k]);
    } else {
      ScalarsDifferBy(a, b, Diff(a, b).v);
      x, y := a, b;
    }
  }
}
