/** The momentum observer of the force-layer feasibility probe. */
module Observer {
  import opened Basics

  // ------------------------------------------------------------------ vectors of joint values

  function Minus(a: seq<real>, b: seq<real>): (r: seq<real>)
    requires |a| == |b|
    ensures |r| == |a|
  {
    seq(|a|, i requires 0 <= i < |a| => a[i] - b[i])
  }

  function Scaled(a: seq<real>, k: real): (r: seq<real>)
    ensures |r| == |a|
  {
    if a == [] then [] else [a[0] * k] + Scaled(a[1..], k)
  }

  lemma {:induction false} DotMinusLeft(a: seq<real>, b: seq<real>, v: seq<real>)
    requires |a| == |b| == |v|
    ensures Dot(Minus(a, b), v) == Dot(a, v) - Dot(b, v)
    decreases |v|
  {
    if v != [] {
      assert Minus(a, b)[1..] == Minus(a[1..], b[1..]);
      DotMinusLeft(a[1..], b[1..], v[1..]);
    }
  }

  lemma {:induction false} DotMinusRight(a: seq<real>, v: seq<real>, w: seq<real>)
    requires |a| == |v| == |w|
    ensures Dot(a, Minus(v, w)) == Dot(a, v) - Dot(a, w)
    decreases |v|
  {
    if v != [] {
      assert Minus(v, w)[1..] == Minus(v[1..], w[1..]);
      DotMinusRight(a[1..], v[1..], w[1..]);
    }
  }

  lemma {:induction false} DotScaled(a: seq<real>, k: real, v: seq<real>)
    requires |a| == |v|
    ensures Dot(Scaled(a, k), v) == Dot(a, v) * k
    decreases |v|
  {
    if v != [] {
      DotScaled(a[1..], k, v[1..]);
      assert Scaled(a, k)[1..] == Scaled(a[1..], k);
      ScaleTerm(a[0], k, v[0], Dot(a[1..], v[1..]));
    }
  }

  lemma ScaleTerm(a: real, k: real, v: real, d: real)
    ensures (a * k) * v + d * k == (a * v + d) * k
  {
  }

  // ------------------------------------------------------------------ the loop, one joint at a time

  /**
   * What the loop reads for one joint at one time step: its row of the mass matrix, the joint
   * velocities, and the joint's measured torque plus passive minus bias terms.
   */
  datatype Sample = Sample(massRow: seq<real>, velocity: seq<real>, torque: real)

  predicate Joints(samples: seq<Sample>, n: nat) {
    forall s <- samples :: |s.massRow| == n && |s.velocity| == n
  }

  function Momentum(s: Sample): real
    requires |s.massRow| == |s.velocity|
  {
    Dot(s.massRow, s.velocity)
  }

  /** `m_dot @ qd`: the row's difference quotient times the velocity, zero on the first sample. */
  function MassRate(samples: seq<Sample>, k: nat, n: nat, dt: real): real
    requires k < |samples| && Joints(samples, n) && dt != 0.0
  {
    if k == 0 then 0.0
    else Dot(Scaled(Minus(samples[k].massRow, samples[k - 1].massRow), 1.0 / dt), samples[k].velocity)
  }

  /** `tau + passive - bias + m_dot @ qd` at sample `k`. */
  function Balance(samples: seq<Sample>, k: nat, n: nat, dt: real): real
    requires k < |samples| && Joints(samples, n) && dt != 0.0
  {
    samples[k].torque + MassRate(samples, k, n, dt)
  }

  function Integrated(integ: real, x: real, r: real, dt: real): real {
    integ + (x + r) * dt
  }

  function Compared(gain: real, p: real, p0: real, integ: real): real {
    gain * (p - p0 - integ)
  }

  /** The residual after sample `k`, as a recurrence of its own. */
  function Residual(samples: seq<Sample>, k: nat, n: nat, gain: real, dt: real): real
    requires k < |samples| && Joints(samples, n) && dt != 0.0
  {
    var x := Balance(samples, k, n, dt);
    if k == 0 then -(gain * dt) * x
    else
      var r := Residual(samples, k - 1, n, gain, dt);
      Advanced(r, gain, Momentum(samples[k]) - Momentum(samples[k - 1]), x, dt)
  }

  /** The residual one step later, when the momentum has grown by `gained`. */
  function Advanced(r: real, gain: real, gained: real, x: real, dt: real): real {
    r + gain * (gained - (x + r) * dt)
  }

  /** Lines 166-174 for one joint: integrate, and compare with the momentum gained since the start. */
  method Observe(samples: seq<Sample>, n: nat, gain: real, dt: real) returns (rows: seq<real>)
    requires Joints(samples, n) && dt != 0.0
    ensures |rows| == |samples|
    ensures forall k | 0 <= k < |samples| :: rows[k] == Residual(samples, k, n, gain, dt)
  {
    hide Residual, Integrated, Compared, Balance, Momentum;
    var r, integ, p0 := 0.0, 0.0, None;
    rows := [];
    var k := 0;
    while k < |samples|
      invariant 0 <= k <= |samples| && |rows| == k
      invariant forall j | 0 <= j < k :: rows[j] == Residual(samples, j, n, gain, dt)
      invariant k == 0 ==> r == integ == 0.0 && p0 == None
      invariant k > 0 ==> p0 == Some(Momentum(samples[0])) && r == rows[k - 1]
      invariant k > 0 ==> r == Compared(gain, Momentum(samples[k - 1]), Momentum(samples[0]), integ)
    {
      var p := Momentum(samples[k]);
      if p0 == None {
        p0 := Some(p);
      }
      var x := Balance(samples, k, n, dt);
      if k == 0 {
        FirstResidual(samples, n, gain, dt);
      } else {
        NextResidual(samples, k, n, gain, dt, integ, r);
      }
      integ := Integrated(integ, x, r, dt);
      r := Compared(gain, p, p0.value, integ);
      rows := rows + [r];
      k := k + 1;
    }
  }

  lemma FirstResidual(samples: seq<Sample>, n: nat, gain: real, dt: real)
    requires 0 < |samples| && Joints(samples, n) && dt != 0.0
    ensures var p := Momentum(samples[0]);
            Compared(gain, p, p, Integrated(0.0, Balance(samples, 0, n, dt), 0.0, dt)) ==
                Residual(samples, 0, n, gain, dt)
  {
    hide Balance;
    var x := Balance(samples, 0, n, dt);
    assert gain * -(x * dt) == -(gain * dt) * x;
  }

  /** Comparing with the running integral is the recurrence: the integrals telescope. */
  lemma NextResidual(samples: seq<Sample>, k: nat, n: nat, gain: real, dt: real, integ: real, r: real)
    requires 0 < k < |samples| && Joints(samples, n) && dt != 0.0
    requires r == Residual(samples, k - 1, n, gain, dt)
    requires r == Compared(gain, Momentum(samples[k - 1]), Momentum(samples[0]), integ)
    ensures Compared(gain, Momentum(samples[k]), Momentum(samples[0]),
            Integrated(integ, Balance(samples, k, n, dt), r, dt))
            == Residual(samples, k, n, gain, dt)
  {
    hide Balance, Momentum;
    Telescope(gain, Momentum(samples[k]), Momentum(samples[k - 1]), Momentum(samples[0]), integ,
              (Balance(samples, k, n, dt) + r) * dt);
  }

  lemma Telescope(gain: real, p: real, q: real, p0: real, integ: real, added: real)
    ensures gain * (p - p0 - (integ + added)) == gain * (q - p0 - integ) + gain * (p - q - added)
  {
  }

  // ------------------------------------------------------------------ convergence

  /**
   * The plant's discrete momentum balance for this joint over step `k`: the torque the observer
   * reads, corrected by its error, and a constant external torque `f` change the velocities
   * through the mass row held from the step before.
   */
  ghost predicate Balanced(samples: seq<Sample>, k: nat, n: nat, dt: real, f: real, error: real)
    requires 0 < k < |samples| && Joints(samples, n)
  {
    Dot(samples[k - 1].massRow, Minus(samples[k].velocity, samples[k - 1].velocity))
    == (samples[k].torque - error + f) * dt
  }

  /** Differencing the mass matrix makes the observer see exactly the momentum the old matrix gained. */
  lemma MassRateCancels(samples: seq<Sample>, k: nat, n: nat, dt: real)
    requires 0 < k < |samples| && Joints(samples, n) && dt != 0.0
    ensures Momentum(samples[k]) - Momentum(samples[k - 1]) - MassRate(samples, k, n, dt) * dt
            == Dot(samples[k - 1].massRow, Minus(samples[k].velocity, samples[k - 1].velocity))
  {
    var a, b := samples[k - 1], samples[k];
    DotScaled(Minus(b.massRow, a.massRow), 1.0 / dt, b.velocity);
    DotMinusLeft(b.massRow, a.massRow, b.velocity);
    DotMinusRight(a.massRow, b.velocity, a.velocity);
    DivideAndMultiply(Dot(Minus(b.massRow, a.massRow), b.velocity), dt);
  }

  lemma DivideAndMultiply(x: real, dt: real)
    requires dt != 0.0
    ensures (x * (1.0 / dt)) * dt == x
  {
  }

  lemma ResidualUnfolds(samples: seq<Sample>, k: nat, n: nat, gain: real, dt: real)
    requires 0 < k < |samples| && Joints(samples, n) && dt != 0.0
    ensures Residual(samples, k, n, gain, dt) ==
            Advanced(Residual(samples, k - 1, n, gain, dt), gain, Momentum(samples[k]) - Momentum(samples[k - 1]),
                     Balance(samples, k, n, dt), dt)
  {
    hide Advanced, Balance, Momentum;
  }

  /** One step moves the residual the fraction `gain * dt` of the way to `f`, less the error. */
  lemma StepTowards(samples: seq<Sample>, k: nat, n: nat, gain: real, dt: real, f: real, error: real)
    requires 0 < k < |samples| && Joints(samples, n) && dt != 0.0
    requires Balanced(samples, k, n, dt, f, error)
    ensures Residual(samples, k, n, gain, dt) - f
            == Contracted(Residual(samples, k - 1, n, gain, dt) - f, gain * dt, error)
  {
    BalancedGain(samples, k, n, dt, f, error);
    ResidualUnfolds(samples, k, n, gain, dt);
    hide *;
    Rearrange(Momentum(samples[k]) - Momentum(samples[k - 1]), Balance(samples, k, n, dt),
              Residual(samples, k - 1, n, gain, dt), gain, dt, f, error);
  }

  /** In a balanced step the momentum gained is that of the balance the observer reads, less its error, plus `f`. */
  lemma BalancedGain(samples: seq<Sample>, k: nat, n: nat, dt: real, f: real, error: real)
    requires 0 < k < |samples| && Joints(samples, n) && dt != 0.0
    requires Balanced(samples, k, n, dt, f, error)
    ensures Momentum(samples[k]) - Momentum(samples[k - 1]) == (Balance(samples, k, n, dt) - error + f) * dt
  {
    hide MassRate, Momentum, Dot;
    MassRateCancels(samples, k, n, dt);
    GatherRate(Momentum(samples[k]) - Momentum(samples[k - 1]), samples[k].torque, MassRate(samples, k, n, dt),
               error, f, dt);
  }

  lemma GatherRate(gained: real, torque: real, rate: real, error: real, f: real, dt: real)
    requires gained - rate * dt == (torque - error + f) * dt
    ensures gained == (torque + rate - error + f) * dt
  {
  }

  /** The deviation from `f` after one step. */
  function Contracted(d: real, a: real, error: real): real {
    (1.0 - a) * d - a * error
  }

  lemma Rearrange(gained: real, x: real, r: real, gain: real, dt: real, f: real, error: real)
    requires gained == (x - error + f) * dt
    ensures Advanced(r, gain, gained, x, dt) - f == Contracted(r - f, gain * dt, error)
  {
    assert gained - (x + r) * dt == (f - error - r) * dt;
    assert gain * ((f - error - r) * dt) == gain * dt * (f - error - r);
  }

  function Power(x: real, k: nat): real {
    if k == 0 then 1.0 else x * Power(x, k - 1)
  }

  lemma {:induction false} PowerBounds(x: real, k: nat)
    requires 0.0 <= x <= 1.0
    ensures 0.0 <= Power(x, k) <= 1.0
  {
    if k > 0 {
      PowerBounds(x, k - 1);
      UnitProduct(x, Power(x, k - 1));
    }
  }

  lemma UnitProduct(x: real, y: real)
    requires 0.0 <= x <= 1.0 && 0.0 <= y <= 1.0
    ensures 0.0 <= x * y <= 1.0
  {
    NonNegativeProduct(x, y);
    NonNegativeProduct(x, 1.0 - y);
    assert x * (1.0 - y) == x - x * y;
  }

  lemma BoundDifference(u: real, v: real, b: real, c: real)
    requires Abs(u) <= b && Abs(v) <= c
    ensures Abs(u - v) <= b + c
  {
  }

  lemma ScaleBound(c: real, x: real, y: real)
    requires c >= 0.0 && x <= y
    ensures c * x <= c * y
  {
  }

  lemma AbsScaled(c: real, x: real)
    requires c >= 0.0
    ensures Abs(c * x) == c * Abs(x)
  {
  }

  /** The bound after one more step: `b` bounds the deviation before it. */
  function WeightedBound(p: real, d: real, e: real): real {
    p * d + e * (1.0 - p)
  }

  lemma ContractedBound(x: real, a: real, error: real, b: real, e: real)
    requires 0.0 < a <= 1.0 && Abs(error) <= e && Abs(x) <= b
    ensures Abs(Contracted(x, a, error)) <= (1.0 - a) * b + a * e
  {
    AbsScaled(1.0 - a, x);
    AbsScaled(a, error);
    ScaleBound(1.0 - a, Abs(x), b);
    ScaleBound(a, Abs(error), e);
    BoundDifference((1.0 - a) * x, a * error, (1.0 - a) * b, a * e);
  }

  lemma WeightedStep(p: real, d: real, e: real, a: real)
    ensures (1.0 - a) * WeightedBound(p, d, e) + a * e == WeightedBound((1.0 - a) * p, d, e)
  {
    assert (1.0 - a) * (p * d + e * (1.0 - p)) == (1.0 - a) * (p * d) + (1.0 - a) * (e * (1.0 - p));
    assert (1.0 - a) * (p * d) == ((1.0 - a) * p) * d;
    assert (1.0 - a) * (e * (1.0 - p)) + a * e == e * (1.0 - (1.0 - a) * p);
  }

  /** A deviation that contracts at every step, up to a bounded error. */
  ghost predicate Contracts(d: seq<real>, errors: seq<real>, a: real, e: real)
    requires |errors| == |d|
  {
    forall j | 0 < j < |d| :: Abs(errors[j]) <= e && d[j] == Contracted(d[j - 1], a, errors[j])
  }

  lemma {:induction false} GeometricBound(d: seq<real>, errors: seq<real>, a: real, e: real, k: nat)
    requires |errors| == |d| && k < |d| && 0.0 < a <= 1.0 && Contracts(d, errors, a, e)
    ensures Abs(d[k]) <= WeightedBound(Power(1.0 - a, k), Abs(d[0]), e)
  {
    if k > 0 {
      hide Contracted, WeightedBound;
      GeometricBound(d, errors, a, e, k - 1);
      var p := Power(1.0 - a, k - 1);
      ContractedBound(d[k - 1], a, errors[k], WeightedBound(p, Abs(d[0]), e), e);
      WeightedStep(p, Abs(d[0]), e, a);
    }
  }

  /** Without error the deviation is a power of `1 - a` times what it was, so it keeps its sign. */
  lemma {:induction false} GeometricDecay(d: seq<real>, errors: seq<real>, a: real, k: nat)
    requires |errors| == |d| && k < |d| && 0.0 < a <= 1.0 && Contracts(d, errors, a, 0.0)
    ensures d[k] == Power(1.0 - a, k) * d[0]
  {
    if k > 0 {
      GeometricDecay(d, errors, a, k - 1);
      ContractedExactly(d[k - 1], a, errors[k]);
      Associate(1.0 - a, Power(1.0 - a, k - 1), d[0]);
    }
  }

  lemma ContractedExactly(x: real, a: real, error: real)
    requires Abs(error) <= 0.0
    ensures Contracted(x, a, error) == (1.0 - a) * x
  {
    assert error == 0.0;
  }

  lemma Associate(a: real, b: real, c: real)
    ensures a * (b * c) == (a * b) * c
  {
  }

  lemma ScaleSign(a: real, b: real)
    requires a >= 0.0
    ensures b <= 0.0 ==> a * b <= 0.0
    ensures b >= 0.0 ==> a * b >= 0.0
  {
  }

  /** Every step after `s` is balanced with torque `f`, the torque error staying within `e`. */
  ghost predicate BalancedAfter(samples: seq<Sample>, s: nat, n: nat, dt: real, f: real, e: real, errors: seq<real>)
    requires Joints(samples, n) && |errors| == |samples|
  {
    forall j | s < j < |samples| :: Abs(errors[j]) <= e && Balanced(samples, j, n, dt, f, errors[j])
  }

  /** How far the residual is from `f`, sample by sample from `s` on. */
  ghost function Deviations(samples: seq<Sample>, s: nat, n: nat, gain: real, dt: real, f: real): seq<real>
    requires s < |samples| && Joints(samples, n) && dt != 0.0
  {
    seq(|samples| - s, i requires 0 <= i < |samples| - s => Residual(samples, s + i, n, gain, dt) - f)
  }

  lemma DeviationsContract(samples: seq<Sample>, s: nat, n: nat, gain: real, dt: real, f: real, e: real,
                           errors: seq<real>)
    requires s < |samples| && Joints(samples, n) && |errors| == |samples| && dt != 0.0
    requires BalancedAfter(samples, s, n, dt, f, e, errors)
    ensures Contracts(Deviations(samples, s, n, gain, dt, f), errors[s..], gain * dt, e)
  {
    hide Residual, Balanced, Contracted;
    forall j | 0 < j < |samples| - s
      ensures Abs(errors[s..][j]) <= e
      ensures Residual(samples, s + j, n, gain, dt) - f
              == Contracted(Residual(samples, s + j - 1, n, gain, dt) - f, gain * dt, errors[s..][j])
    {
      StepTowards(samples, s + j, n, gain, dt, f, errors[s + j]);
    }
  }

  /**
   * Geometric convergence: `k` steps after sample `s` the residual is within
   * `(1 - K dt)^k |r_s - f| + e (1 - (1 - K dt)^k)` of the external torque.
   */
  lemma Converges(samples: seq<Sample>, s: nat, k: nat, n: nat, gain: real, dt: real, f: real, e: real,
                  errors: seq<real>)
    requires s + k < |samples| && Joints(samples, n) && |errors| == |samples| && dt != 0.0
    requires 0.0 < gain * dt <= 1.0
    requires BalancedAfter(samples, s, n, dt, f, e, errors)
    ensures Abs(Residual(samples, s + k, n, gain, dt) - f)
            <= WeightedBound(Power(1.0 - gain * dt, k), Abs(Residual(samples, s, n, gain, dt) - f), e)
  {
    hide Residual, Balanced, Contracted, WeightedBound, Power;
    DeviationsContract(samples, s, n, gain, dt, f, e, errors);
    GeometricBound(Deviations(samples, s, n, gain, dt, f), errors[s..], gain * dt, e, k);
  }

  /** From the first sample on: the start is `-K dt X_0`, and the error term is at most `e`. */
  lemma ConvergesFromStart(samples: seq<Sample>, k: nat, n: nat, gain: real, dt: real, f: real, e: real,
                           errors: seq<real>)
    requires k < |samples| && Joints(samples, n) && |errors| == |samples| && dt != 0.0
    requires 0.0 < gain * dt <= 1.0 && e >= 0.0
    requires BalancedAfter(samples, 0, n, dt, f, e, errors)
    ensures Abs(Residual(samples, k, n, gain, dt) - f)
            <= Power(1.0 - gain * dt, k) * Abs(-(gain * dt) * samples[0].torque - f) + e
  {
    hide Residual, Balanced, WeightedBound, Power;
    Converges(samples, 0, k, n, gain, dt, f, e, errors);
    PowerBounds(1.0 - gain * dt, k);
    StartResidual(samples, n, gain, dt);
    WeightedBoundSimplified(Power(1.0 - gain * dt, k), Abs(Residual(samples, 0, n, gain, dt) - f), e);
  }

  lemma StartResidual(samples: seq<Sample>, n: nat, gain: real, dt: real)
    requires 0 < |samples| && Joints(samples, n) && dt != 0.0
    ensures Residual(samples, 0, n, gain, dt) == -(gain * dt) * samples[0].torque
  {
  }

  lemma WeightedBoundSimplified(p: real, d: real, e: real)
    requires 0.0 <= p && e >= 0.0
    ensures WeightedBound(p, d, e) <= p * d + e
  {
    assert e * p >= 0.0;
  }

  /** Without torque error the residual approaches the external torque from its own side, never crossing it. */
  lemma NeverCrosses(samples: seq<Sample>, s: nat, k: nat, n: nat, gain: real, dt: real, f: real, errors: seq<real>)
    requires s + k < |samples| && Joints(samples, n) && |errors| == |samples| && dt != 0.0
    requires 0.0 < gain * dt <= 1.0
    requires BalancedAfter(samples, s, n, dt, f, 0.0, errors)
    ensures Residual(samples, s + k, n, gain, dt) - f
            == Power(1.0 - gain * dt, k) * (Residual(samples, s, n, gain, dt) - f)
    ensures Residual(samples, s, n, gain, dt) <= f ==> Residual(samples, s + k, n, gain, dt) <= f
    ensures Residual(samples, s, n, gain, dt) >= f ==> Residual(samples, s + k, n, gain, dt) >= f
  {
    hide Residual, Balanced, Contracted, Power;
    DeviationsContract(samples, s, n, gain, dt, f, 0.0, errors);
    GeometricDecay(Deviations(samples, s, n, gain, dt, f), errors[s..], gain * dt, k);
    PowerBounds(1.0 - gain * dt, k);
    ScaleSign(Power(1.0 - gain * dt, k), Residual(samples, s, n, gain, dt) - f);
  }

  // ------------------------------------------------------------------ the corrupted torque

  const COULOMB_FRAC := 0.02
  const VISCOUS_FRAC := 0.01
  const LSB_COUNTS := 2048.0

  /**
   * Friction and noise: `smooth` is `tanh(qd / 0.02)` for a moving joint and the uniform draw for one at
   * rest, whose `qd` counts as zero; `noise` is the drawn noise.
   */
  function Disturbance(rated: real, qd: real, smooth: real, noise: real): real {
    COULOMB_FRAC * rated * smooth + VISCOUS_FRAC * rated * qd + noise * rated
  }

  function Quantised(x: real, lsb: real): real
    requires lsb > 0.0
  {
    RoundHalfEven(x / lsb) as real * lsb
  }

  function SpeedOf(qd: Option<real>): real {
    if qd.Some? then qd.value else 0.0
  }

  /** `hw_effort`: `qd` is given for a moving joint only. */
  function HwEffort(tau: real, rated: real, qd: Option<real>, smooth: real, noise: real): real
    requires rated > 0.0
  {
    Quantised(tau + Disturbance(rated, SpeedOf(qd), smooth, noise), rated / LSB_COUNTS)
  }

  lemma QuantisedWithin(x: real, lsb: real)
    requires lsb > 0.0
    ensures Abs(Quantised(x, lsb) - x) <= lsb / 2.0
  {
    ScaledGap(x / lsb, RoundHalfEven(x / lsb) as real, lsb, x);
  }

  lemma ScaledGap(q: real, n: real, lsb: real, x: real)
    requires lsb > 0.0 && Abs(q - n) <= 0.5 && x == q * lsb
    ensures Abs(n * lsb - x) <= lsb / 2.0
  {
    assert n * lsb - x == lsb * (n - q);
    AbsScaled(lsb, n - q);
    ScaleBound(lsb, Abs(n - q), 0.5);
  }

  /** The torque error the convergence bound takes: friction, noise and half a quantisation step. */
  function EffortError(rated: real, speed: real, noise: real): real {
    rated * (COULOMB_FRAC + VISCOUS_FRAC * speed + noise + 0.5 / LSB_COUNTS)
  }

  /** The corrupted torque is within that error of the true one. */
  lemma HwEffortError(tau: real, rated: real, qd: Option<real>, smooth: real, noise: real, speed: real, level: real)
    requires rated > 0.0 && Abs(smooth) <= 1.0 && Abs(SpeedOf(qd)) <= speed && Abs(noise) <= level
    ensures Abs(HwEffort(tau, rated, qd, smooth, noise) - tau) <= EffortError(rated, speed, level)
  {
    hide Disturbance, Quantised, EffortError;
    var off := Disturbance(rated, SpeedOf(qd), smooth, noise);
    QuantisedWithin(tau + off, rated / LSB_COUNTS);
    DisturbanceBound(rated, SpeedOf(qd), smooth, noise, speed, level);
    TwoErrors(Quantised(tau + off, rated / LSB_COUNTS), tau, tau + off, off, rated / LSB_COUNTS / 2.0,
              EffortError(rated, speed, level));
  }

  /** `x` is a whole number of steps. */
  predicate WholeSteps(x: real, step: real, n: int) {
    x == n as real * step
  }

  lemma QuantisedIsWhole(x: real, step: real)
    requires step > 0.0
    ensures exists n: int :: WholeSteps(Quantised(x, step), step, n)
  {
    assert WholeSteps(Quantised(x, step), step, RoundHalfEven(x / step));
  }

  /**
   * What the drive reports: a whole number of steps of one 2048th of the rated torque, within half a step of
   * the torque plus friction (2 % Coulomb, 1 % viscous, of a resting joint only its share of the Coulomb
   * part) and noise.
   */
  lemma HwEffortIs(tau: real, rated: real, qd: Option<real>, smooth: real, noise: real)
    requires rated > 0.0
    ensures var read, velocity := HwEffort(tau, rated, qd, smooth, noise), if qd.Some? then qd.value else 0.0;
            var step := rated / 2048.0;
            && (exists n: int :: WholeSteps(read, step, n))
            && Abs(read - (tau + 0.02 * rated * smooth + 0.01 * rated * velocity + noise * rated)) <= step / 2.0
  {
    hide Quantised, WholeSteps;
    var exact, step := tau + Disturbance(rated, SpeedOf(qd), smooth, noise), rated / LSB_COUNTS;
    QuantisedWithin(exact, step);
    QuantisedIsWhole(exact, step);
    assert step == rated / 2048.0 && HwEffort(tau, rated, qd, smooth, noise) == Quantised(exact, step);
  }

  lemma TwoErrors(read: real, tau: real, out: real, off: real, half: real, bound: real)
    requires out == tau + off && Abs(read - out) <= half && Abs(off) + half <= bound
    ensures Abs(read - tau) <= bound
  {
  }

  lemma DisturbanceBound(rated: real, qd: real, smooth: real, noise: real, speed: real, level: real)
    requires rated > 0.0 && Abs(smooth) <= 1.0 && Abs(qd) <= speed && Abs(noise) <= level
    ensures Abs(Disturbance(rated, qd, smooth, noise)) + rated / LSB_COUNTS / 2.0 <= EffortError(rated, speed, level)
  {
    hide Disturbance, EffortError, Fraction;
    DisturbanceFactors(rated, qd, smooth, noise);
    FractionBound(qd, smooth, noise, speed, level);
    AbsScaled(rated, Fraction(qd, smooth, noise));
    ScaleBound(rated, Abs(Fraction(qd, smooth, noise)), Fraction(speed, 1.0, level));
    EffortErrorSplits(rated, speed, level);
  }

  /** The disturbance as a fraction of the rated torque. */
  function Fraction(qd: real, smooth: real, noise: real): real {
    COULOMB_FRAC * smooth + VISCOUS_FRAC * qd + noise
  }

  lemma DisturbanceFactors(rated: real, qd: real, smooth: real, noise: real)
    ensures Disturbance(rated, qd, smooth, noise) == rated * Fraction(qd, smooth, noise)
  {
  }

  lemma FractionBound(qd: real, smooth: real, noise: real, speed: real, level: real)
    requires Abs(smooth) <= 1.0 && Abs(qd) <= speed && Abs(noise) <= level
    ensures Abs(Fraction(qd, smooth, noise)) <= Fraction(speed, 1.0, level)
  {
  }

  lemma EffortErrorSplits(rated: real, speed: real, level: real)
    ensures EffortError(rated, speed, level) == rated * Fraction(speed, 1.0, level) + rated / LSB_COUNTS / 2.0
  {
  }
}
