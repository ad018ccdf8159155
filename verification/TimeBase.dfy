/** Physics rate and substeps of a scene: one step is one control period. */
module TimeBase {
  import opened Basics

  const MIN_PHYSICS_HZ := 60.0
  const CEIL_SLACK := 0.000000001
  const RATIO_TOL := 0.01

  function Ceil(x: real): (n: int)
    ensures n as real - 1.0 < x <= n as real
  {
    if x == x.Floor as real then x.Floor else x.Floor + 1
  }

  /** The multiple `physics_dt_for` chooses. */
  function Multiple(rate: real): (n: int)
    requires rate > 0.0
    ensures n >= 1
  {
    var c := Ceil(MIN_PHYSICS_HZ / rate - CEIL_SLACK);
    if c < 1 then 1 else c
  }

  /** `physics_dt_for`: `None` is the `ValueError`. */
  function PhysicsDtFor(rate: real): Option<real> {
    if rate > 0.0 then
      ProductPositive(Multiple(rate) as real, rate);
      Some(1.0 / (Multiple(rate) as real * rate))
    else None
  }

  /** `n` physics steps a control period reach 60 Hz, up to the slack of one part in 10^9 steps. */
  predicate FastEnough(n: int, rate: real) {
    (n as real + CEIL_SLACK) * rate >= MIN_PHYSICS_HZ
  }

  lemma QuotientBound(x: real, rate: real, y: real)
    requires rate > 0.0
    ensures x / rate <= y <==> x <= y * rate
  {
    assert x == (x / rate) * rate;
    if x / rate <= y {
      assert (x / rate) * rate <= y * rate;
    } else {
      ProductPositive(x / rate - y, rate);
      assert (x / rate - y) * rate == x - y * rate;
    }
  }

  /** `physics_dt_for` picks the least whole multiple of the control rate that is fast enough. */
  lemma MultipleIsLeast(rate: real, m: int)
    requires rate > 0.0 && m >= 1
    ensures FastEnough(Multiple(rate), rate)
    ensures FastEnough(m, rate) ==> Multiple(rate) <= m
  {
    QuotientBound(MIN_PHYSICS_HZ, rate, Multiple(rate) as real + CEIL_SLACK);
    QuotientBound(MIN_PHYSICS_HZ, rate, m as real + CEIL_SLACK);
  }

  // ------------------------------------------------------------------ substeps

  predicate CloseTo(ratio: real, n: int) {
    n >= 1 && Abs(ratio - n as real) <= RATIO_TOL * n as real
  }

  /** `derive_physics_substeps`, on the ratio of the physics rate to the control rate. */
  function SubstepsOf(ratio: real): Option<int> {
    var n := RoundHalfEven(ratio);
    if CloseTo(ratio, n) then Some(n) else None
  }

  /** `derive_physics_substeps`: `None` is the `ValueError`. */
  function DeriveSubsteps(dt: real, rate: real): Option<int> {
    if dt <= 0.0 || rate <= 0.0 then None
    else
      ProductPositive(dt, rate);
      SubstepsOf(1.0 / (dt * rate))
  }

  /** A ratio is refused exactly when no whole count is within one per cent: rounding never misses one. */
  lemma RefusedIffNoCount(ratio: real)
    ensures SubstepsOf(ratio).None? <==> forall n: int :: !CloseTo(ratio, n)
  {
    var k := RoundHalfEven(ratio);
    forall n: int | CloseTo(ratio, n) ensures CloseTo(ratio, k) {
      NearestIsClose(ratio, n);
    }
  }

  lemma NearestIsClose(ratio: real, n: int)
    requires CloseTo(ratio, n)
    ensures CloseTo(ratio, RoundHalfEven(ratio))
  {
    var k := RoundHalfEven(ratio);
    RoundIsNearest(ratio, n);
    if k < n && k < 50 {
      OnlyTie(ratio, n, k);
    } else {
      LargeOrAbove(ratio, n, k);
    }
  }

  /**
   * Below 50, the only count within reach of a larger close one is 49, on the tie 49.5 (which rounds to
   * the even 50).
   */
  lemma OnlyTie(ratio: real, n: int, k: int)
    requires CloseTo(ratio, n) && k < n && k < 50 && Abs(ratio - k as real) <= 0.5
    ensures k == 49 && Abs(ratio - k as real) == 0.5
  {
    assert k as real + 0.5 >= ratio >= 0.99 * (k + 1) as real;
  }

  lemma LargeOrAbove(ratio: real, n: int, k: int)
    requires CloseTo(ratio, n) && (k >= n || k >= 50)
    requires Abs(ratio - k as real) <= 0.5 && Abs(ratio - k as real) <= Abs(ratio - n as real)
    ensures CloseTo(ratio, k)
  {
  }

  /** The dt chosen for a rate gives back exactly the multiple it was built from. */
  lemma DeriveRecoversMultiple(rate: real)
    requires rate > 0.0
    ensures PhysicsDtFor(rate).Some? && DeriveSubsteps(PhysicsDtFor(rate).value, rate) == Some(Multiple(rate))
  {
    hide Multiple, SubstepsOf;
    var n := Multiple(rate);
    RecoverRatio(n as real, rate);
    IntegerRatio(n);
    var dt := PhysicsDtFor(rate).value;
    assert dt == 1.0 / (n as real * rate);
    DeriveOf(dt, rate, n as real);
  }

  lemma DeriveOf(dt: real, rate: real, ratio: real)
    requires dt > 0.0 && rate > 0.0 && dt * rate > 0.0 && 1.0 / (dt * rate) == ratio
    ensures DeriveSubsteps(dt, rate) == SubstepsOf(ratio)
  {
  }

  lemma IntegerRatio(n: int)
    requires n >= 1
    ensures SubstepsOf(n as real) == Some(n)
  {
    RoundOfInteger(n);
  }

  lemma RecoverRatio(n: real, rate: real)
    requires n > 0.0 && rate > 0.0
    ensures n * rate > 0.0
    ensures var dt := 1.0 / (n * rate); dt > 0.0 && dt * rate > 0.0 && 1.0 / (dt * rate) == n
  {
    ProductPositive(n, rate);
    Reciprocal(n * rate);
    var dt := 1.0 / (n * rate);
    ProductPositive(dt, rate);
    assert n * (dt * rate) == dt * (n * rate);
    InverseOf(n, dt * rate);
  }

  lemma Reciprocal(x: real)
    requires x > 0.0
    ensures 1.0 / x > 0.0 && (1.0 / x) * x == 1.0
  {
  }

  lemma InverseOf(n: real, x: real)
    requires x > 0.0 && n * x == 1.0
    ensures 1.0 / x == n
  {
    Reciprocal(x);
    assert (n - 1.0 / x) * x == 0.0;
    if n > 1.0 / x {
      ProductPositive(n - 1.0 / x, x);
    } else if n < 1.0 / x {
      ProductPositive(1.0 / x - n, x);
    }
  }

  /**
   * At the chosen dt the recovered count of steps is exactly one control period, and `k` such ticks are
   * `k` periods.
   */
  lemma ExactTicks(rate: real, k: nat)
    requires rate > 0.0
    ensures PhysicsDtFor(rate).Some? && (k * Multiple(rate)) as real * PhysicsDtFor(rate).value == k as real / rate
  {
    hide Multiple;
    var n, dt := Multiple(rate) as real, PhysicsDtFor(rate).value;
    ProductPositive(n, rate);
    Reciprocal(n * rate);
    assert (n * dt) * rate == dt * (n * rate);
    InverseOf(n * dt, rate);
    DivideIsTimes(k as real, rate);
    assert (k as real * n) * dt == k as real * (n * dt);
  }

  ghost predicate WithinOnePercent(ratio: real, n: int) {
    n >= 1 && ratio - n as real <= 0.01 * n as real && n as real - ratio <= 0.01 * n as real
  }

  /**
   * The count derived: none for a dt or a rate that is not positive, or when no whole count is within one
   * per cent of the ratio of the rates; otherwise such a count, and the one nearest to it.
   */
  lemma DerivedCount(dt: real, rate: real)
    ensures DeriveSubsteps(dt, rate).None? <==>
            dt <= 0.0 || rate <= 0.0 ||
            var ratio := 1.0 / Product(dt, rate); forall n: int :: !WithinOnePercent(ratio, n)
    ensures DeriveSubsteps(dt, rate).Some? ==>
              var ratio, n := 1.0 / Product(dt, rate), DeriveSubsteps(dt, rate).value;
              WithinOnePercent(ratio, n) && forall m: int :: Distance(ratio, n) <= Distance(ratio, m)
  {
    if dt > 0.0 && rate > 0.0 {
      ProductPositive(dt, rate);
      var ratio := 1.0 / Product(dt, rate);
      RefusedIffNoCount(ratio);
      forall n: int ensures CloseTo(ratio, n) <==> WithinOnePercent(ratio, n) {}
      forall m: int ensures Distance(ratio, RoundHalfEven(ratio)) <= Distance(ratio, m) {
        RoundIsNearest(ratio, m);
      }
      hide RoundHalfEven, CloseTo, Distance;
    }
  }

  ghost function Distance(ratio: real, n: int): real {
    Abs(ratio - n as real)
  }

  /** The product of two rates, or one if that is not positive. */
  ghost function Product(dt: real, rate: real): (x: real)
    ensures x > 0.0
  {
    if dt * rate > 0.0 then dt * rate else 1.0
  }

  /** There is a physics dt exactly for a positive rate, and it is the reciprocal of a whole multiple of the rate. */
  lemma PhysicsDtIs(rate: real)
    ensures PhysicsDtFor(rate).Some? <==> rate > 0.0
    ensures rate > 0.0 ==> Multiple(rate) >= 1 && PhysicsDtFor(rate).value * (Multiple(rate) as real * rate) == 1.0
  {
    if rate > 0.0 {
      ProductPositive(Multiple(rate) as real, rate);
      Reciprocal(Multiple(rate) as real * rate);
    }
  }

  // ------------------------------------------------------------------ drift

  /** Whatever count is accepted, a step differs from a control period by about one per cent at most. */
  lemma AcceptedTick(dt: real, rate: real)
    requires DeriveSubsteps(dt, rate).Some?
    ensures var n := DeriveSubsteps(dt, rate).value;
            n >= 1 && 1.0 / 1.01 <= n as real * dt * rate <= 1.0 / 0.99
  {
    hide SubstepsOf;
    ProductPositive(dt, rate);
    Reciprocal(dt * rate);
    AcceptedRatio(1.0 / (dt * rate));
    var n := DeriveSubsteps(dt, rate).value as real;
    TickBounds(n, dt * rate, 1.0 / (dt * rate));
    AssociateTick(n, dt, rate);
  }

  lemma AcceptedRatio(ratio: real)
    requires SubstepsOf(ratio).Some?
    ensures var n := SubstepsOf(ratio).value as real; n >= 1.0 && 0.99 * n <= ratio <= 1.01 * n
  {
  }

  lemma AssociateTick(n: real, dt: real, rate: real)
    ensures n * dt * rate == n * (dt * rate)
  {
  }

  lemma TickBounds(n: real, x: real, ratio: real)
    requires x > 0.0 && ratio * x == 1.0 && 0.99 * n <= ratio <= 1.01 * n
    ensures 1.0 / 1.01 <= n * x <= 1.0 / 0.99
  {
    ScaleOrder(0.99 * n, ratio, x);
    ScaleOrder(ratio, 1.01 * n, x);
    assert (0.99 * n) * x == 0.99 * (n * x);
    assert (1.01 * n) * x == 1.01 * (n * x);
  }

  lemma ScaleOrder(a: real, b: real, x: real)
    requires a <= b && x > 0.0
    ensures a * x <= b * x
  {
    assert (b - a) * x >= 0.0;
  }

  /** After `k` ticks the simulated time is off from `k` control periods by at most `k / 99` periods. */
  lemma LinearDrift(dt: real, rate: real, k: nat)
    requires DeriveSubsteps(dt, rate).Some?
    ensures var tick := DeriveSubsteps(dt, rate).value as real * dt;
            Abs(k as real * tick - k as real / rate) <= k as real / rate / 99.0
  {
    AcceptedTick(dt, rate);
    hide DeriveSubsteps;
    DriftOf(DeriveSubsteps(dt, rate).value as real * dt, rate, k);
  }

  lemma DriftOf(tick: real, rate: real, k: nat)
    requires rate > 0.0 && 1.0 / 1.01 <= tick * rate <= 1.0 / 0.99
    ensures Abs(k as real * tick - k as real / rate) <= k as real / rate / 99.0
  {
    var period := 1.0 / rate;
    Reciprocal(rate);
    TickOverRate(tick, rate, period);
    Deviation(tick * rate, period, tick);
    ScaleOrderNat(k, Abs(tick - period), period / 99.0);
    DivideIsTimes(k as real, rate);
    DriftTimes(k as real, tick, period);
  }

  lemma TickOverRate(tick: real, rate: real, period: real)
    requires period * rate == 1.0
    ensures tick == (tick * rate) * period
  {
    assert (tick * rate) * period == tick * (period * rate);
  }

  lemma DivideIsTimes(x: real, rate: real)
    requires rate > 0.0
    ensures x / rate == x * (1.0 / rate)
  {
  }

  lemma Deviation(x: real, period: real, tick: real)
    requires period > 0.0 && 1.0 / 1.01 <= x <= 1.0 / 0.99 && tick == x * period
    ensures Abs(tick - period) <= period / 99.0
  {
    assert 1.0 / 0.99 == 1.0 + 1.0 / 99.0;
    assert 1.0 / 1.01 >= 1.0 - 1.0 / 99.0;
    ScaleOrder(x, 1.0 + 1.0 / 99.0, period);
    ScaleOrder(1.0 - 1.0 / 99.0, x, period);
    assert (1.0 + 1.0 / 99.0) * period == period + period / 99.0;
    assert (1.0 - 1.0 / 99.0) * period == period - period / 99.0;
  }

  lemma ScaleOrderNat(k: nat, a: real, b: real)
    requires a <= b
    ensures k as real * a <= k as real * b
  {
    assert k as real * (b - a) >= 0.0;
  }

  lemma DriftTimes(k: real, tick: real, period: real)
    requires k >= 0.0
    ensures Abs(k * tick - k * period) == k * Abs(tick - period)
    ensures k * (period / 99.0) == k * period / 99.0
  {
    assert k * tick - k * period == k * (tick - period);
  }
}
