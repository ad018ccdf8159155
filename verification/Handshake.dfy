/** The client's hello: what it must say before anything can move. */
module Handshake {
  import opened Basics
  import opened Relay

  const MAX_ALIGNMENT := 0.05
  const MAX_STEP := 0.08
  const MAX_LEASE := 0.5
  const MAX_STATE_TIMEOUT := 0.5
  const MAX_STATUS_TIMEOUT := 1.0
  const MAX_FEEDBACK_TOLERANCE := 0.01
  const STROKE_MM: (real, real) := (0.0, 104.0)
  const PROTOCOL_VERSION := 1
  const JOINT_NAMES: seq<string> := ["arm_joint1", "arm_joint2", "arm_joint3", "arm_joint4", "arm_joint5", "arm_joint6"]

  datatype JsonInt = Integer(value: int) | NotInteger

  /** The first record of a connection; a missing key is a `Bad` or `NotInteger` value. */
  datatype Hello = Hello(
    op: string, protocol: int, robot: string, jointNames: seq<string>,
    jointMin: seq<Num>, jointMax: seq<Num>,
    alignment: Num, maxStep: Num, lease: Num, stateTimeout: Num, statusTimeout: Num,
    feedbackTolerance: Num, alignmentTimeout: Num,
    idleMask: JsonInt, gripperMask: JsonInt, gripperMin: Num, gripperMax: Num)

  predicate Positive(n: Num) {
    n.Finite? && n.v > 0.0
  }

  predicate Uint32(n: JsonInt) {
    n.Integer? && 0 <= n.value < 0x1_0000_0000
  }

  /** `tuple(zip(joint_min, joint_max)) == JOINT_LIMITS`, with the checks before it. */
  predicate OfficialLimits(h: Hello) {
    && |h.jointMin| == JOINTS && |h.jointMax| == JOINTS
    && Values(h.jointMin) == Some(LOWER) && Values(h.jointMax) == Some(UPPER)
  }

  /** What an accepted contract promises: the sidecar's ceilings may be tightened, never widened. */
  predicate WithinCeilings(c: Config) {
    && 0.0 < c.alignment <= MAX_ALIGNMENT && 0.0 < c.maxStep <= MAX_STEP && 0.0 < c.lease <= MAX_LEASE
    && 0.0 < c.stateTimeout <= MAX_STATE_TIMEOUT && 0.0 < c.statusTimeout <= MAX_STATUS_TIMEOUT
    && 0.0 <= c.feedbackTolerance <= MAX_FEEDBACK_TOLERANCE && 0.0 < c.alignmentTimeout
    && STROKE_MM.0 <= c.gripperMin < c.gripperMax <= STROKE_MM.1
    && c.jointMin == LOWER && c.jointMax == UPPER
  }

  predicate Introduced(h: Hello) {
    h.op == "hello" && h.protocol == PROTOCOL_VERSION && h.robot == "galaxea_a1" && h.jointNames == JOINT_NAMES
  }

  /** `_hello_config`: `None` is any of its errors. */
  function HelloConfig(h: Hello): (c: Option<Config>)
    ensures c.Some? ==> Introduced(h) && WithinCeilings(c.value)
  {
    if !Introduced(h) then None
    else if !OfficialLimits(h) then None
    else if h.idleMask.NotInteger? || h.gripperMask.NotInteger? then None
    else if !Positive(h.alignment) || !Positive(h.maxStep) || !Positive(h.lease) || !Positive(h.stateTimeout)
            || !Positive(h.statusTimeout) || !Positive(h.alignmentTimeout) then None
    else if h.feedbackTolerance.Bad? || h.feedbackTolerance.v < 0.0 then None
    else if h.gripperMin.Bad? || h.gripperMax.Bad? || h.gripperMax.v <= h.gripperMin.v then None
    else if h.alignment.v > MAX_ALIGNMENT || h.maxStep.v > MAX_STEP || h.lease.v > MAX_LEASE
            || h.stateTimeout.v > MAX_STATE_TIMEOUT || h.statusTimeout.v > MAX_STATUS_TIMEOUT
            || h.feedbackTolerance.v > MAX_FEEDBACK_TOLERANCE then None
    else if h.gripperMin.v < STROKE_MM.0 || h.gripperMax.v > STROKE_MM.1 then None
    else if !Uint32(h.idleMask) || !Uint32(h.gripperMask) then None
    else
      Some(Config(h.alignment.v, h.maxStep.v, h.lease.v, h.stateTimeout.v, h.statusTimeout.v,
                  h.feedbackTolerance.v, h.alignmentTimeout.v,
                  h.idleMask.value as bv32, h.gripperMask.value as bv32,
                  h.gripperMin.v, h.gripperMax.v, LOWER, UPPER))
  }

  /** A hello that carries `c` in its fields. */
  function Introduce(c: Config): Hello {
    Hello("hello", 1, "galaxea_a1", JOINT_NAMES, Numbers(c.jointMin), Numbers(c.jointMax),
          Finite(c.alignment), Finite(c.maxStep), Finite(c.lease), Finite(c.stateTimeout), Finite(c.statusTimeout),
          Finite(c.feedbackTolerance), Finite(c.alignmentTimeout),
          Integer(c.idleMask as int), Integer(c.gripperMask as int), Finite(c.gripperMin), Finite(c.gripperMax))
  }

  function Numbers(p: Pose): seq<Num> {
    seq(JOINTS, i requires 0 <= i < JOINTS => Finite(p[i]))
  }

  /** Every contract inside the ceilings is accepted as sent, and none outside them. */
  lemma ContractRoundTrip(c: Config)
    ensures HelloConfig(Introduce(c)) == if WithinCeilings(c) then Some(c) else None
  {
    OfficialNumbers(c);
  }

  lemma OfficialNumbers(c: Config)
    ensures Values(Numbers(c.jointMin)) == Some(c.jointMin) && Values(Numbers(c.jointMax)) == Some(c.jointMax)
  {
    assert Values(Numbers(c.jointMin)).value == c.jointMin;
    assert Values(Numbers(c.jointMax)).value == c.jointMax;
  }

  lemma ValuesAre(xs: seq<Num>, p: Pose)
    requires |xs| == JOINTS && Values(xs) == Some(p)
    ensures xs == Numbers(p)
  {
    forall i | 0 <= i < JOINTS ensures xs[i] == Finite(p[i]) {
      assert xs[i] in xs && Values(xs).value[i] == xs[i].v;
    }
  }

  predicate MaskIs(n: JsonInt, mask: bv32) {
    Uint32(n) && n.value as bv32 == mask
  }

  /** The hello states the contract `c`, field by field. */
  predicate States(h: Hello, c: Config) {
    && h == Introduce(c).(idleMask := h.idleMask, gripperMask := h.gripperMask)
    && MaskIs(h.idleMask, c.idleMask) && MaskIs(h.gripperMask, c.gripperMask)
  }

  /** `_hello_config` accepts exactly the hellos that state a contract inside the ceilings, as that contract. */
  lemma AcceptsExactly(h: Hello, c: Config)
    ensures HelloConfig(h) == Some(c) <==> WithinCeilings(c) && States(h, c)
  {
    OfficialNumbers(c);
    if HelloConfig(h) == Some(c) {
      ValuesAre(h.jointMin, LOWER);
      ValuesAre(h.jointMax, UPPER);
    }
  }
}
