/**
 * What each section of the relay does, said without its own functions: limits, ages and masks are written
 * out here, so that the statements are about the relay and not about how it is computed.
 */
module RelayLaws {
  import opened Basics
  import opened Relay
  import opened RelaySafety

  // ------------------------------------------------------------------ conditions

  /** Joint `i` of the pose is outside its limits by more than `slack`. */
  ghost predicate Beyond(p: Pose, lower: Pose, upper: Pose, slack: real, i: nat)
    requires i < 6
  {
    p[i] < lower[i] - slack || p[i] > upper[i] + slack
  }

  ghost predicate Inside(p: Pose, lower: Pose, upper: Pose, slack: real) {
    forall i: nat | i < 6 :: !Beyond(p, lower, upper, slack, i)
  }

  /** Joint `i` is the first one outside. */
  ghost predicate FirstBeyond(p: Pose, lower: Pose, upper: Pose, slack: real, i: nat) {
    i < 6 && Beyond(p, lower, upper, slack, i) && forall k: nat | k < i :: !Beyond(p, lower, upper, slack, k)
  }

  /** Masking the code leaves all of it. */
  ghost predicate NoOtherBit(code: bv32, mask: bv32) {
    code & mask == code
  }

  /** The code of actuator `i` has only masked bits; the gripper's, the seventh, has a second mask of its own. */
  ghost predicate Masked(code: bv32, i: nat, c: Config) {
    && (i != 6 ==> NoOtherBit(code, c.idleMask))
    && (i == 6 ==> NoOtherBit(code, c.idleMask | c.gripperMask))
  }

  ghost predicate AllMasked(codes: seq<bv32>, c: Config) {
    forall i: nat | i < |codes| && i < 7 :: Masked(codes[i], i, c)
  }

  ghost predicate FirstUnmasked(codes: seq<bv32>, c: Config, i: nat) {
    i < |codes| && i < 7 && !Masked(codes[i], i, c) && forall k: nat | k < i :: Masked(codes[k], k, c)
  }

  /** There is feedback of both kinds, neither older than the contract allows. */
  ghost predicate Heard(r: Relay, now: real) {
    && r.config.Some? && r.joint.Some? && r.status.Some?
    && r.jointAt >= now - r.config.value.stateTimeout && r.statusAt >= now - r.config.value.statusTimeout
  }

  /** All six joints of the two poses differ by at most `bound`. */
  ghost predicate Close(a: Pose, b: Pose, bound: real) {
    forall i | 0 <= i < 6 :: a[i] - b[i] <= bound && b[i] - a[i] <= bound
  }

  lemma BeyondIff(p: Pose, lower: Pose, upper: Pose, slack: real)
    ensures Within(p, lower, upper, slack) <==> Inside(p, lower, upper, slack)
    ensures !Within(p, lower, upper, slack) ==>
              FirstBeyond(p, lower, upper, slack, FirstOutside(p, lower, upper, slack))
  {
    if Inside(p, lower, upper, slack) {
      forall i | 0 <= i < 6 ensures lower[i] - slack <= p[i] <= upper[i] + slack {
        assert !Beyond(p, lower, upper, slack, i);
      }
    }
    if !Within(p, lower, upper, slack) {
      var i := FirstOutside(p, lower, upper, slack);
      assert Beyond(p, lower, upper, slack, i);
    }
  }

  lemma MaskBits(code: bv32, mask: bv32)
    ensures code & !mask == 0 <==> NoOtherBit(code, mask)
  {
  }

  lemma CleanIff(code: bv32, i: nat, c: Config, mask: bv32)
    requires AllowedBits(i, c) == mask
    ensures ActuatorClean(code, i, c) <==> NoOtherBit(code, mask)
  {
    hide AllowedBits;
    MaskBits(code, mask);
  }

  lemma MaskIff(code: bv32, i: nat, c: Config)
    ensures ActuatorClean(code, i, c) <==> Masked(code, i, c)
  {
    hide NoOtherBit, ActuatorClean;
    CleanIff(code, i, c, AllowedBits(i, c));
  }

  lemma AllMaskedIff(codes: seq<bv32>, c: Config)
    ensures StatusClean(codes, c) <==> AllMasked(codes, c)
    ensures StatusFault(codes, c).Some? ==> FirstUnmasked(codes, c, StatusFault(codes, c).value)
    ensures StatusFault(codes, c).None? ==> AllMasked(codes, c)
  {
    forall i: nat | i < |codes| ensures ActuatorClean(codes[i], i, c) <==> Masked(codes[i], i, c) {
      MaskIff(codes[i], i, c);
    }
    hide ActuatorClean, Masked;
  }

  lemma CloseIff(a: Pose, b: Pose, bound: real)
    ensures Near(a, b, bound) <==> Close(a, b, bound)
  {
  }

  // ------------------------------------------------------------------ a staged command

  /** The positions break the limits, and are no ARMING sample within the tolerance. */
  ghost predicate Runaway(r: Relay, p: Pose) {
    && !Inside(p, LOWER, UPPER, 0.0)
    && !(r.state.Arming? && Inside(p, LOWER, UPPER, if r.config.Some? then r.config.value.feedbackTolerance else 0.0))
  }

  /** In-limit positions find a target set and recent feedback to compare with. */
  ghost predicate Comparable(r: Relay, p: Pose, now: real) {
    Inside(p, LOWER, UPPER, 0.0) && r.target.Some? && Heard(r, now)
  }

  ghost predicate BadActuator(r: Relay, p: Pose, now: real) {
    Comparable(r, p, now) && !AllMasked(r.status.value, r.config.value)
  }

  ghost predicate BadPose(r: Relay, p: Pose, now: real) {
    Comparable(r, p, now) &&
    var c := r.config.value; !Inside(r.joint.value, c.jointMin, c.jointMax, c.feedbackTolerance)
  }

  /** The relay must not go on: the reasons to latch a fault on well-formed positions. */
  ghost predicate Condemns(r: Relay, p: Pose, now: real) {
    Runaway(r, p) || BadActuator(r, p, now) || BadPose(r, p, now)
  }

  /** ACTIVE, or ARMING and close to both the target and the measured pose. */
  ghost predicate Passes(r: Relay, p: Pose)
    requires r.target.Some? && r.joint.Some? && r.config.Some?
  {
    r.state.Active?
    || (r.state.Arming? && Close(p, r.target.value, r.config.value.alignment)
        && Close(p, r.joint.value, r.config.value.alignment))
  }

  /** The fault that is latched says what is wrong: the first joint or actuator, the actuators before the pose. */
  ghost predicate Explains(f: Fault, r: Relay, p: Pose, now: real) {
    match f
    case CommandOutside(i) => Runaway(r, p) && FirstBeyond(p, LOWER, UPPER, 0.0, i)
    case ActuatorError(i) => BadActuator(r, p, now) && FirstUnmasked(r.status.value, r.config.value, i)
    case FeedbackOutside(i) =>
      && BadPose(r, p, now) && !BadActuator(r, p, now)
      && var c := r.config.value; FirstBeyond(r.joint.value, c.jointMin, c.jointMax, c.feedbackTolerance, i)
    case _ => false
  }

  /** The relay after a fault was found, if its field is still empty. */
  ghost predicate Faults(r: Relay, s: Relay, f: Fault) {
    s == if r.fault.Some? then r else r.(fault := Some(f), state := Faulted)
  }

  /**
   * What one staged command does, for any relay: it is recorded; condemned positions latch the fault that
   * explains them, and are not forwarded; others are forwarded exactly when they are comparable and the relay
   * passes them, and the relay is then ACTIVE; nothing else changes.
   */
  ghost predicate StagedRight(r: Relay, p: Pose, now: real, s: Relay, forwards: bool) {
    var staged := r.(staged := Some(p));
    if Condemns(r, p, now) then !forwards && exists f :: Explains(f, r, p, now) && Faults(staged, s, f)
    else
      && (forwards <==> Comparable(r, p, now) && Passes(r, p))
      && s == if forwards then staged.(state := Active, forwarded := Some(p)) else staged
  }

  lemma OnDecodedIs(r: Relay, p: Pose, now: real)
    ensures StagedRight(r, p, now, OnDecoded(r, p, now).0, OnDecoded(r, p, now).1)
  {
    BeyondIff(p, LOWER, UPPER, 0.0);
    BeyondIff(p, LOWER, UPPER, if r.config.Some? then r.config.value.feedbackTolerance else 0.0);
    if r.config.Some? && r.joint.Some? && r.status.Some? {
      var c := r.config.value;
      BeyondIff(r.joint.value, c.jointMin, c.jointMax, c.feedbackTolerance);
      AllMaskedIff(r.status.value, c);
      CloseIff(p, r.joint.value, c.alignment);
      if r.target.Some? {
        CloseIff(p, r.target.value, c.alignment);
      }
    }
    hide Inside, Within, FirstBeyond, AllMasked, StatusClean, FirstUnmasked, Close, Near;
    var staged := r.(staged := Some(p));
    if Runaway(r, p) {
      var f := CommandOutside(FirstOutside(p, LOWER, UPPER, 0.0));
      assert Explains(f, r, p, now) && Faults(staged, OnDecoded(r, p, now).0, f);
    } else if BadActuator(r, p, now) {
      var f := ActuatorError(StatusFault(r.status.value, r.config.value).value);
      assert Explains(f, r, p, now) && Faults(staged, OnDecoded(r, p, now).0, f);
    } else if BadPose(r, p, now) {
      var c := r.config.value;
      var f := FeedbackOutside(FirstOutside(r.joint.value, c.jointMin, c.jointMax, c.feedbackTolerance));
      assert Explains(f, r, p, now) && Faults(staged, OnDecoded(r, p, now).0, f);
    }
  }

  /** Section `Staged` of the machine for a well-formed command: it does exactly that, and sends `p` on. */
  lemma StagedCommand(w: World, m: TrackerCommand, p: Pose, now: real)
    requires HasPacket(w.pc) && Forwardable(m, p)
    ensures var (v, out) := Step(w, Staged(m, now));
            && v.pc == w.pc && StagedRight(w.relay, p, now, v.relay, out.Forward?)
            && (out == Forward(p) || out == Silent)
  {
    DecodeIff(m, p);
    OnDecodedIs(w.relay, p, now);
    hide OnDecoded, StagedRight;
  }

  /** Vector `k` of the five of a tracker command. */
  ghost function Vector(m: TrackerCommand, k: nat): seq<Num>
    requires k < 5
  {
    if k == 0 then m.pDes else if k == 1 then m.vDes else if k == 2 then m.kp else if k == 3 then m.kd else m.tFf
  }

  ghost predicate Sound(xs: seq<Num>) {
    |xs| == 6 && forall x <- xs :: x.Finite?
  }

  ghost predicate SoundBelow(m: TrackerCommand, n: nat) {
    forall k: nat | k < n && k < 5 :: Sound(Vector(m, k))
  }

  ghost predicate NegativeGains(m: TrackerCommand) {
    (exists x <- m.kp :: x.Finite? && x.v < 0.0) || exists x <- m.kd :: x.Finite? && x.v < 0.0
  }

  /** What a malformed command is refused for: its first bad vector, then negative gains, then the mode. */
  ghost predicate RefusedFor(m: TrackerCommand, why: Malformed) {
    match why
    case WrongLength => exists k: nat | k < 5 :: SoundBelow(m, k) && |Vector(m, k)| != 6
    case NotFinite => exists k: nat | k < 5 :: SoundBelow(m, k) && |Vector(m, k)| == 6 && !Sound(Vector(m, k))
    case NegativeGain => SoundBelow(m, 5) && NegativeGains(m)
    case WrongMode => SoundBelow(m, 5) && !NegativeGains(m) && m.mode != Mode(0)
  }

  lemma VectorIs(xs: seq<Num>)
    ensures CheckVector(xs) ==
            if |xs| != 6 then Some(WrongLength) else if !Sound(xs) then Some(NotFinite) else None
    ensures Sound(xs) ==> |xs| == 6
  {
  }

  lemma FirstBad(m: TrackerCommand, k: nat)
    requires k < 5 && SoundBelow(m, k) && !Sound(Vector(m, k))
    ensures RefusedFor(m, if |Vector(m, k)| != 6 then WrongLength else NotFinite)
  {
  }

  lemma MalformedIs(m: TrackerCommand)
    ensures Decode(m).Err? ==> RefusedFor(m, Decode(m).error)
  {
    VectorIs(m.pDes);
    VectorIs(m.vDes);
    VectorIs(m.kp);
    VectorIs(m.kd);
    VectorIs(m.tFf);
    hide CheckVector, Sound;
    if !Sound(m.pDes) {
      FirstBad(m, 0);
    } else if !Sound(m.vDes) {
      FirstBad(m, 1);
    } else if !Sound(m.kp) {
      FirstBad(m, 2);
    } else if !Sound(m.kd) {
      FirstBad(m, 3);
    } else if !Sound(m.tFf) {
      FirstBad(m, 4);
    } else {
      assert SoundBelow(m, 5);
    }
  }

  /** A malformed command latches the fault that says why, is not even recorded, and is not forwarded. */
  lemma StagedGarbage(w: World, m: TrackerCommand, now: real)
    requires HasPacket(w.pc) && forall p: Pose :: !Forwardable(m, p)
    ensures var (v, out) := Step(w, Staged(m, now));
            && out == Silent && v.pc == w.pc
            && exists why :: RefusedFor(m, why) && Faults(w.relay, v.relay, BadCommand(why))
  {
    if Decode(m).Ok? {
      DecodeIff(m, Decode(m).value);
      assert false;
    }
    MalformedIs(m);
    hide Decode, RefusedFor;
    assert RefusedFor(m, Decode(m).error)
      && Faults(w.relay, Step(w, Staged(m, now)).0.relay, BadCommand(Decode(m).error));
  }

  /**
   * For every unfaulted relay and every message: a fault is latched exactly when the message is malformed or
   * its positions are condemned; it is forwarded exactly when it is well formed, not condemned, comparable
   * and passed.
   */
  lemma LatchedIff(w: World, m: TrackerCommand, now: real)
    requires HasPacket(w.pc) && w.relay.fault.None?
    ensures var (v, out) := Step(w, Staged(m, now));
            && (v.relay.fault.Some? <==> forall p: Pose :: Forwardable(m, p) ==> Condemns(w.relay, p, now))
            && (out.Forward? <==>
                  exists p: Pose :: Forwardable(m, p) && !Condemns(w.relay, p, now) && Comparable(w.relay, p, now)
                                    && Passes(w.relay, p))
  {
    if p: Pose :| Forwardable(m, p) {
      StagedCommand(w, m, p, now);
      forall q: Pose | Forwardable(m, q) ensures q == p {
        DecodeIff(m, p);
        DecodeIff(m, q);
      }
      hide Forwardable, Condemns, Comparable, Passes, Step;
    } else {
      StagedGarbage(w, m, now);
      hide Forwardable, Condemns, Comparable, Passes, Step;
    }
  }

  // ------------------------------------------------------------------ `state`

  /** A reason for `state` to raise. */
  ghost predicate Refuses(why: Refusal, r: Relay, c: Config, now: real) {
    match why
    case Incomplete => r.joint.None? || r.gripper.None? || r.status.None?
    case Latched(f) => r.fault == Some(f)
    case TimedOut => r.state.Arming? && now > r.deadline
    case StaleJoint => r.jointAt < now - c.stateTimeout
    case StaleGripper => r.gripperAt < now - c.stateTimeout
    case StaleStatus => r.statusAt < now - c.statusTimeout
    case BadFeedback => r.joint.Some? && !Inside(r.joint.value, c.jointMin, c.jointMax, c.feedbackTolerance)
    case BadStatus => r.status.Some? && !AllMasked(r.status.value, c)
    case GripperOutside => r.gripper.Some? && (r.gripper.value < c.gripperMin || r.gripper.value > c.gripperMax)
    case _ => false
  }

  /** The order of the checks. */
  ghost function Order(why: Refusal): nat {
    match why
    case Incomplete => 0
    case Latched(_) => 1
    case TimedOut => 2
    case StaleJoint => 3
    case StaleGripper => 4
    case StaleStatus => 5
    case BadFeedback => 6
    case BadStatus => 7
    case GripperOutside => 8
    case _ => 9
  }

  ghost predicate FirstRefusal(why: Refusal, r: Relay, c: Config, now: real) {
    Refuses(why, r, c, now) && forall other :: Refuses(other, r, c, now) ==> Order(why) <= Order(other)
  }

  /** The reply shows the relay as it is, and the stroke as a fraction of the contract's range. */
  ghost predicate Answers(reply: Reply, r: Relay, c: Config) {
    && r.joint == Some(reply.position) && r.status == Some(reply.codes) && r.gripper.Some?
    && (c.gripperMin < c.gripperMax ==>
          reply.gripperNorm * (c.gripperMax - c.gripperMin) == r.gripper.value - c.gripperMin)
    && reply.state == r.state && reply.staged == r.staged && reply.forwarded == r.forwarded
    && reply.accepted == r.accepted
  }

  lemma FractionOf(mm: real, c: Config)
    requires c.gripperMin < c.gripperMax
    ensures GripperNorm(mm, c) * (c.gripperMax - c.gripperMin) == mm - c.gripperMin
  {
  }

  /** `state` answers exactly when nothing speaks against it; otherwise it raises for the first reason in order. */
  lemma StateIs(r: Relay, c: Config, now: real)
    ensures match StateResult(r, c, now)
            case Ok(reply) => Answers(reply, r, c) && forall why :: !Refuses(why, r, c, now)
            case Err(why) => FirstRefusal(why, r, c, now)
  {
    if r.joint.Some? {
      BeyondIff(r.joint.value, c.jointMin, c.jointMax, c.feedbackTolerance);
    }
    if r.status.Some? {
      AllMaskedIff(r.status.value, c);
    }
    if r.gripper.Some? && c.gripperMin < c.gripperMax {
      FractionOf(r.gripper.value, c);
    }
    hide Inside, Within, AllMasked, StatusClean, GripperNorm;
  }

  // ------------------------------------------------------------------ `apply` by itself

  /** The calling thread goes on alone, at the clock readings from the `k`-th on, for at most `n` sections. */
  ghost function Alone(w: World, at: nat -> real, k: nat, n: nat): (World, seq<Output>)
    requires HasPacket(w.pc)
    decreases n
  {
    if n == 0 || w.pc.Idle? then (w, [])
    else
      var (v, out) := Step(w, Main(at(k)));
      var rest := Alone(v, at, k + 1, n - 1);
      (rest.0, (if out.Silent? then [] else [out]) + rest.1)
  }

  lemma AloneNext(w: World, at: nat -> real, k: nat, n: nat)
    requires HasPacket(w.pc) && n > 0 && !w.pc.Idle?
    ensures var (v, out) := Step(w, Main(at(k)));
            var rest := Alone(v, at, k + 1, n - 1);
            Alone(w, at, k, n) == (rest.0, (if out.Silent? then [] else [out]) + rest.1)
  {
  }

  ghost predicate FractionIn(g: Num) {
    g.Finite? && g.v >= 0.0 && g.v <= 1.0
  }

  /** Why the gripper half raises: for the first of these. */
  ghost function GripperRefusal(packet: Packet, state: RelayState): Option<Refusal> {
    if packet.gripper.None? then if packet.jointTargets.None? then Some(EmptyAction) else None
    else if !FractionIn(packet.gripper.value) then Some(BadGripper)
    else if state != Active then Some(GripperNotActive)
    else None
  }

  /** The gripper half and the count: the stroke is the fraction of the range, sent only if it is a new one. */
  ghost predicate GripperHalf(r: Relay, call: Call, end: World, outs: seq<Output>)
    requires call.packet.Some?
  {
    var packet, why := call.packet.value, GripperRefusal(call.packet.value, r.state);
    && end.pc.Idle?
    && if why.Some? then end.relay == r && outs == [Raised(why.value)]
       else
         var returned := Returned(call.first && packet.jointTargets.None?);
         if packet.gripper.None? then end.relay == r.(accepted := r.accepted + 1) && outs == [returned]
         else
           exists mm: real | mm - call.config.gripperMin
                             == packet.gripper.value.v * (call.config.gripperMax - call.config.gripperMin) ::
             && end.relay == r.(accepted := r.accepted + 1, publishedGripper := Some(mm))
             && outs == (if r.publishedGripper == Some(mm) then [] else [GripperStroke(mm)]) + [returned]
  }

  lemma StrokeIs(g: real, c: Config)
    ensures StrokeMm(g, c) - c.gripperMin == g * (c.gripperMax - c.gripperMin)
  {
  }

  lemma CountAlone(r: Relay, call: Call, at: nat -> real, k: nat, n: nat)
    requires call.packet.Some? && n >= 1
    ensures Alone(World(r, Count(call)), at, k, n) ==
            (World(r.(accepted := r.accepted + 1), Idle),
             [Returned(call.first && call.packet.value.jointTargets.None?)])
  {
    AloneNext(World(r, Count(call)), at, k, n);
    var returned := Returned(call.first && call.packet.value.jointTargets.None?);
    assert [returned] + [] == [returned];
  }

  lemma StrokeAlone(r: Relay, call: Call, stroke: real, at: nat -> real, k: nat, n: nat)
    requires call.packet.Some? && n >= 3 && r.state.Active?
    ensures var mm := StrokeMm(stroke, call.config);
            var returned := Returned(call.first && call.packet.value.jointTargets.None?);
            Alone(World(r, ReadGripper(call, stroke)), at, k, n) ==
            (World(r.(accepted := r.accepted + 1, publishedGripper := Some(mm)), Idle),
             (if r.publishedGripper == Some(mm) then [] else [GripperStroke(mm)]) + [returned])
  {
    hide Alone, StrokeMm;
    var mm := StrokeMm(stroke, call.config);
    AloneNext(World(r, ReadGripper(call, stroke)), at, k, n);
    AloneNext(World(r, PublishGripper(call, mm)), at, k + 1, n - 1);
    CountAlone(r.(publishedGripper := Some(mm)), call, at, k + 2, n - 2);
    var outs := (if r.publishedGripper == Some(mm) then [] else [GripperStroke(mm)])
      + [Returned(call.first && call.packet.value.jointTargets.None?)];
    assert [] + outs == outs;
  }

  lemma GripperAlone(r: Relay, call: Call, at: nat -> real, k: nat, n: nat)
    requires call.packet.Some? && n >= 4
    ensures var (end, outs) := Alone(World(r, CheckGripper(call)), at, k, n); GripperHalf(r, call, end, outs)
  {
    var packet := call.packet.value;
    AloneNext(World(r, CheckGripper(call)), at, k, n);
    hide Alone;
    if GripperRefusal(packet, r.state).None? {
      if packet.gripper.None? {
        CountAlone(r, call, at, k + 1, n - 1);
      } else {
        StrokeAlone(r, call, packet.gripper.value.v, at, k + 1, n - 1);
        StrokeIs(packet.gripper.value.v, call.config);
      }
    } else if packet.gripper.Some? && FractionIn(packet.gripper.value) {
      AloneNext(World(r, ReadGripper(call, packet.gripper.value.v)), at, k + 1, n - 1);
    }
  }

  /** The six values are those of the pose. */
  ghost predicate AllAre(xs: seq<Num>, p: Pose) {
    |xs| == 6 && forall i | 0 <= i < 6 :: xs[i] == Finite(p[i])
  }

  /** The packet asks for the joint targets `p`. */
  ghost predicate Requests(packet: Packet, p: Pose) {
    packet.jointTargets.Some? && AllAre(packet.jointTargets.value, p)
  }

  /** How far from the feedback a target may be. */
  ghost function Bound(r: Relay, call: Call): real {
    if call.first || r.state == Arming then call.config.alignment else call.config.maxStep
  }

  /** Why the joint half raises on requested targets: for the first of these. */
  ghost function JointRefusal(r: Relay, call: Call, p: Pose, position: Pose): Option<Refusal> {
    if !Inside(p, call.config.jointMin, call.config.jointMax, 0.0) then Some(TargetOutside)
    else if !Close(p, position, Bound(r, call)) then Some(TooFar)
    else if !call.first && r.state != Arming && r.state != Active then Some(NotActive)
    else None
  }

  /** The relay once the targets are published: the first ones arm it, those of an ARMING relay move its target. */
  ghost function Told(r: Relay, call: Call, p: Pose, now: real): Relay {
    var told := r.(publishedTarget := Some(p));
    if call.first then
      told.(state := Arming, target := Some(p), deadline := now + call.config.alignmentTimeout)
    else if r.state == Arming then told.(target := Some(p))
    else told
  }

  /** The joint half: refused, or the targets are published if they are new ones, and the gripper half follows. */
  ghost predicate JointHalf(r: Relay, call: Call, p: Pose, position: Pose, now: real, end: World, outs: seq<Output>)
    requires call.packet.Some?
  {
    var why := JointRefusal(r, call, p, position);
    if why.Some? then end == World(r, Idle) && outs == [Raised(why.value)]
    else
      exists rest ::
        && GripperHalf(Told(r, call, p, now), call, end, rest)
        && outs == (if r.publishedTarget == Some(p) then [] else [JointTarget(p, position, Bound(r, call))]) + rest
  }

  /** What an uninterrupted `apply` does: it raises for the first reason `state` finds, or goes through its halves. */
  ghost predicate ApplyRight(r: Relay, call: Call, at: nat -> real, end: World, outs: seq<Output>)
    requires call.packet.Some?
  {
    var packet, c := call.packet.value, call.config;
    if exists why :: FirstRefusal(why, r, c, at(0)) then
      exists why :: FirstRefusal(why, r, c, at(0)) && outs == [Raised(why)] && end.pc.Idle?
        && end.relay == if why.TimedOut? then r.(fault := Some(AlignmentTimedOut), state := Faulted) else r
    else if packet.jointTargets.None? then GripperHalf(r, call, end, outs)
    else if forall p: Pose :: !Requests(packet, p) then end == World(r, Idle) && outs == [Raised(BadTargets)]
    else exists p: Pose, position: Pose ::
      Requests(packet, p) && r.joint == Some(position) && JointHalf(r, call, p, position, at(2), end, outs)
  }

  lemma RefusedAlone(w: World, at: nat -> real, k: nat, n: nat, why: Refusal)
    requires HasPacket(w.pc) && n >= 1 && !w.pc.Idle? && Step(w, Main(at(k))) == (World(w.relay, Idle), Raised(why))
    ensures Alone(w, at, k, n) == (World(w.relay, Idle), [Raised(why)])
  {
    AloneNext(w, at, k, n);
    assert [Raised(why)] + [] == [Raised(why)];
  }

  lemma PublishAlone(r: Relay, call: Call, p: Pose, position: Pose, bound: real, at: nat -> real, k: nat, n: nat)
    requires call.packet.Some? && n >= 5
    ensures var (end, outs) := Alone(World(r, PublishJoint(call, p, position, bound)), at, k, n);
            exists rest ::
              && GripperHalf(r.(publishedTarget := Some(p)), call, end, rest)
              && outs == (if r.publishedTarget == Some(p) then [] else [JointTarget(p, position, bound)]) + rest
  {
    AloneNext(World(r, PublishJoint(call, p, position, bound)), at, k, n);
    GripperAlone(r.(publishedTarget := Some(p)), call, at, k + 1, n - 1);
    assert r.publishedTarget == Some(p) ==> r == r.(publishedTarget := Some(p));
    hide Alone, GripperHalf;
  }

  lemma SilentNext(w: World, v: World, at: nat -> real, k: nat, n: nat)
    requires HasPacket(w.pc) && HasPacket(v.pc) && n > 0 && !w.pc.Idle? && Step(w, Main(at(k))) == (v, Silent)
    ensures Alone(w, at, k, n) == Alone(v, at, k + 1, n - 1)
  {
    var rest := Alone(v, at, k + 1, n - 1);
    assert [] + rest.1 == rest.1;
  }

  lemma JointAlone(r: Relay, call: Call, p: Pose, position: Pose, at: nat -> real)
    requires call.packet.Some? && Inside(p, call.config.jointMin, call.config.jointMax, 0.0)
    ensures var (end, outs) := Alone(World(r, ReadState(call, p, position)), at, 1, 7);
            JointHalf(r, call, p, position, at(2), end, outs)
  {
    var w, bound := World(r, ReadState(call, p, position)), Bound(r, call);
    CloseIff(p, position, bound);
    hide Alone, GripperHalf, Close, Near;
    assert bound == StepBound(call, r.state);
    var why := JointRefusal(r, call, p, position);
    if why.Some? {
      RefusedAlone(w, at, 1, 7, why.value);
    } else if call.first {
      var armed := r.(state := Arming, target := Some(p), deadline := at(2) + call.config.alignmentTimeout);
      SilentNext(w, World(r, Arm(call, p, position)), at, 1, 7);
      SilentNext(World(r, Arm(call, p, position)), World(armed, PublishJoint(call, p, position, bound)), at, 2, 6);
      PublishAlone(armed, call, p, position, bound, at, 3, 5);
      assert armed.(publishedTarget := Some(p)) == Told(r, call, p, at(2));
    } else if r.state.Arming? {
      var moved := r.(target := Some(p));
      SilentNext(w, World(r, Retarget(call, p, position)), at, 1, 7);
      SilentNext(World(r, Retarget(call, p, position)), World(moved, PublishJoint(call, p, position, bound)), at, 2, 6);
      PublishAlone(moved, call, p, position, bound, at, 3, 5);
      assert moved.(publishedTarget := Some(p)) == Told(r, call, p, at(2));
    } else {
      SilentNext(w, World(r, PublishJoint(call, p, position, bound)), at, 1, 7);
      PublishAlone(r, call, p, position, bound, at, 2, 6);
      assert r.(publishedTarget := Some(p)) == Told(r, call, p, at(2));
    }
  }

  lemma RequestedValues(targets: seq<Num>, p: Pose)
    ensures AllAre(targets, p) <==> |targets| == JOINTS && Values(targets) == Some(p)
  {
    if |targets| == JOINTS && Values(targets).Some? {
      forall i | 0 <= i < 6 ensures targets[i].Finite? {
        assert targets[i] in targets;
      }
      if AllAre(targets, p) {
        assert Values(targets).value == p;
      }
    }
  }

  /** What the checks on the requested targets find. */
  lemma TargetRefusalIs(targets: seq<Num>, c: Config)
    ensures (forall p: Pose :: !AllAre(targets, p)) ==> TargetRefusal(targets, c) == Some(BadTargets)
    ensures forall p: Pose | AllAre(targets, p) ::
              && Values(targets) == Some(p)
              && TargetRefusal(targets, c) ==
                 if Inside(p, c.jointMin, c.jointMax, 0.0) then None else Some(TargetOutside)
  {
    forall p: Pose | AllAre(targets, p)
      ensures Values(targets) == Some(p)
      ensures Within(p, c.jointMin, c.jointMax, 0.0) <==> Inside(p, c.jointMin, c.jointMax, 0.0)
    {
      RequestedValues(targets, p);
      BeyondIff(p, c.jointMin, c.jointMax, 0.0);
    }
    if |targets| == JOINTS && Values(targets).Some? {
      RequestedValues(targets, Values(targets).value);
    }
    hide Inside, Within;
  }

  lemma ApplyRefused(r: Relay, call: Call, at: nat -> real, why: Refusal)
    requires call.packet.Some? && StateResult(r, call.config, at(0)) == Err(why)
    requires FirstRefusal(why, r, call.config, at(0))
    ensures var (end, outs) := Alone(World(r, Snapshot(call)), at, 0, 8); ApplyRight(r, call, at, end, outs)
  {
    var w := World(r, Snapshot(call));
    if why.TimedOut? {
      SilentNext(w, World(r, LatchTimeout(call)), at, 0, 8);
      LatchAlone(r, call, at);
    } else {
      RefusedAlone(w, at, 0, 8, why);
    }
    hide Alone, FirstRefusal, StateResult;
  }

  lemma LatchAlone(r: Relay, call: Call, at: nat -> real)
    requires r.fault.None?
    ensures Alone(World(r, LatchTimeout(call)), at, 1, 7) ==
            (World(r.(fault := Some(AlignmentTimedOut), state := Faulted), Idle), [Raised(TimedOut)])
  {
    AloneNext(World(r, LatchTimeout(call)), at, 1, 7);
    assert [Raised(TimedOut)] + [] == [Raised(TimedOut)];
  }

  lemma ApplyTargets(r: Relay, call: Call, at: nat -> real, reply: Reply, targets: seq<Num>)
    requires call.packet.Some? && call.packet.value.jointTargets == Some(targets)
    requires StateResult(r, call.config, at(0)) == Ok(reply) && Answers(reply, r, call.config)
    requires forall why :: !Refuses(why, r, call.config, at(0))
    ensures var (end, outs) := Alone(World(r, Snapshot(call)), at, 0, 8); ApplyRight(r, call, at, end, outs)
  {
    var w := World(r, Snapshot(call));
    TargetRefusalIs(targets, call.config);
    hide Alone, StateResult, TargetRefusal, Values, Inside, GripperHalf, AllAre;
    if p: Pose :| AllAre(targets, p) {
      assert Requests(call.packet.value, p);
      if Inside(p, call.config.jointMin, call.config.jointMax, 0.0) {
        SilentNext(w, World(r, ReadState(call, p, reply.position)), at, 0, 8);
        JointAlone(r, call, p, reply.position, at);
      } else {
        RefusedAlone(w, at, 0, 8, TargetOutside);
      }
    } else {
      RefusedAlone(w, at, 0, 8, BadTargets);
    }
  }

  /** What an uninterrupted `apply` does, for any relay, contract and packet. */
  lemma ApplyAlone(r: Relay, call: Call, at: nat -> real)
    requires call.packet.Some?
    ensures var (end, outs) := Alone(World(r, Snapshot(call)), at, 0, 8); ApplyRight(r, call, at, end, outs)
  {
    StateIs(r, call.config, at(0));
    match StateResult(r, call.config, at(0))
    case Err(why) => ApplyRefused(r, call, at, why);
    case Ok(reply) =>
      match call.packet.value.jointTargets
      case None => ApplyGripper(r, call, at, reply);
      case Some(targets) => ApplyTargets(r, call, at, reply, targets);
  }

  lemma ApplyGripper(r: Relay, call: Call, at: nat -> real, reply: Reply)
    requires call.packet.Some? && call.packet.value.jointTargets.None?
    requires StateResult(r, call.config, at(0)) == Ok(reply)
    requires forall why :: !Refuses(why, r, call.config, at(0))
    ensures var (end, outs) := Alone(World(r, Snapshot(call)), at, 0, 8); ApplyRight(r, call, at, end, outs)
  {
    SilentNext(World(r, Snapshot(call)), World(r, CheckGripper(call)), at, 0, 8);
    GripperAlone(r, call, at, 1, 7);
    hide Alone, StateResult, GripperHalf;
  }

  /** Nothing speaks against the call: not for `state`, not for its joint half, not for its gripper half. */
  ghost predicate Acceptable(r: Relay, call: Call, now: real)
    requires call.packet.Some?
  {
    var packet := call.packet.value;
    && (forall why :: !Refuses(why, r, call.config, now))
    && (packet.jointTargets.Some? ==>
          exists p: Pose, position: Pose ::
            Requests(packet, p) && r.joint == Some(position) && JointRefusal(r, call, p, position).None?)
    && GripperRefusal(packet, if call.first && packet.jointTargets.Some? then Arming else r.state).None?
  }

  lemma HalfReturns(r: Relay, call: Call, end: World, outs: seq<Output>)
    requires call.packet.Some? && GripperHalf(r, call, end, outs)
    ensures outs != [] && (outs[|outs| - 1].Returned? || outs[|outs| - 1].Raised?)
    ensures outs[|outs| - 1].Returned? <==> GripperRefusal(call.packet.value, r.state).None?
    ensures end.relay.accepted == r.accepted + if outs[|outs| - 1].Returned? then 1 else 0
  {
  }

  lemma ToldKeeps(r: Relay, call: Call, p: Pose, now: real)
    ensures var told := Told(r, call, p, now);
            told.accepted == r.accepted && told.state == if call.first then Arming else r.state
  {
  }

  lemma RequestsOne(packet: Packet, p: Pose, q: Pose)
    requires Requests(packet, p) && Requests(packet, q)
    ensures p == q
  {
    forall i | 0 <= i < 6 ensures p[i] == q[i] {
      assert packet.jointTargets.value[i] == Finite(p[i]) == Finite(q[i]);
    }
  }

  /** An uninterrupted `apply` returns, and counts the action, exactly when it is acceptable. */
  lemma AcceptedIff(r: Relay, call: Call, at: nat -> real)
    requires call.packet.Some?
    ensures var (end, outs) := Alone(World(r, Snapshot(call)), at, 0, 8);
            && outs != [] && (outs[|outs| - 1].Returned? || outs[|outs| - 1].Raised?)
            && (outs[|outs| - 1].Returned? <==> Acceptable(r, call, at(0)))
            && end.relay.accepted == r.accepted + if Acceptable(r, call, at(0)) then 1 else 0
  {
    var (end, outs) := Alone(World(r, Snapshot(call)), at, 0, 8);
    ApplyAlone(r, call, at);
    AcceptedRightly(r, call, at, end, outs);
  }

  lemma AcceptedRightly(r: Relay, call: Call, at: nat -> real, end: World, outs: seq<Output>)
    requires call.packet.Some? && ApplyRight(r, call, at, end, outs)
    ensures outs != [] && (outs[|outs| - 1].Returned? || outs[|outs| - 1].Raised?)
    ensures outs[|outs| - 1].Returned? <==> Acceptable(r, call, at(0))
    ensures end.relay.accepted == r.accepted + if Acceptable(r, call, at(0)) then 1 else 0
  {
    var packet, c := call.packet.value, call.config;
    StateIs(r, c, at(0));
    hide Requests, GripperHalf, GripperRefusal, JointRefusal, Refuses, Order, StateResult, Answers, Told, Bound;
    if why :| FirstRefusal(why, r, c, at(0)) {
      assert !Acceptable(r, call, at(0));
    } else if packet.jointTargets.None? {
      HalfReturns(r, call, end, outs);
    } else if p: Pose, position: Pose :|
      Requests(packet, p) && r.joint == Some(position) && JointHalf(r, call, p, position, at(2), end, outs) {
      forall q: Pose | Requests(packet, q) ensures q == p {
        RequestsOne(packet, p, q);
      }
      if JointRefusal(r, call, p, position).None? {
        var rest :| GripperHalf(Told(r, call, p, at(2)), call, end, rest)
          && outs == (if r.publishedTarget == Some(p) then [] else [JointTarget(p, position, Bound(r, call))]) + rest;
        HalfReturns(Told(r, call, p, at(2)), call, end, rest);
        ToldKeeps(r, call, p, at(2));
      }
    }
  }

  /**
   * By itself, the first joint action of a session cannot carry a gripper value too: it arms the relay,
   * publishes its targets, and then raises, because an ARMING relay moves no gripper.
   */
  lemma FirstTargetsExcludeGripper(r: Relay, call: Call, at: nat -> real)
    requires call.packet.Some? && call.first
    requires call.packet.value.jointTargets.Some? && call.packet.value.gripper.Some?
    ensures var outs := Alone(World(r, Snapshot(call)), at, 0, 8).1; outs != [] && outs[|outs| - 1].Raised?
  {
    AcceptedIff(r, call, at);
    hide Alone;
  }

  // ------------------------------------------------------------------ configure and feedback

  /** `configure` is a fresh start: all that is kept is the feedback heard so far. */
  lemma ConfigureIsFreshStart(w: World, c: Config)
    requires w.pc.Idle?
    ensures var r := w.relay;
            Step(w, Configure(c)).0.relay ==
            INITIAL.(config := Some(c), joint := r.joint, jointAt := r.jointAt, gripper := r.gripper,
                     gripperAt := r.gripperAt, status := r.status, statusAt := r.statusAt)
  {
  }

  /** At start-up the relay is LOCKED, without contract, feedback, fault or target. */
  lemma StartsLocked()
    ensures INITIAL.state == Locked && INITIAL.config.None? && INITIAL.fault.None? && INITIAL.target.None?
    ensures INITIAL.joint.None? && INITIAL.gripper.None? && INITIAL.status.None? && INITIAL.accepted == 0
    ensures INITIAL.publishedTarget.None? && INITIAL.publishedGripper.None?
    ensures INITIAL.staged.None? && INITIAL.forwarded.None?
  {
  }

  ghost predicate IsWord(x: int, word: bv32) {
    x == word as int
  }

  /**
   * Only a status of at least seven codes, all of them unsigned 32-bit numbers, replaces the last one, and
   * every code with the word of its value.
   */
  lemma StatusReplaces(w: World, codes: seq<int>, at: real)
    requires HasPacket(w.pc)
    ensures var v, usable := Step(w, StatusFeedback(codes, at)).0,
                |codes| >= 7 && forall x <- codes :: 0 <= x < 0x1_0000_0000;
            && (!usable ==> v == w)
            && (usable ==>
                  && v == w.(relay := w.relay.(status := v.relay.status, statusAt := at)) && v.relay.status.Some?
                  && |v.relay.status.value| == |codes|
                  && forall i, word: bv32 | 0 <= i < |codes| && IsWord(codes[i], word) ::
                       v.relay.status.value[i] == word)
  {
    hide Latch, Decode, MainStep;
    if StatusWords(codes) {
      WordsAre(codes);
    }
  }

  lemma WordsAre(codes: seq<int>)
    requires StatusWords(codes)
    ensures forall i, word: bv32 | 0 <= i < |codes| && IsWord(codes[i], word) :: Words(codes)[i] == word
  {
    forall i, word: bv32 | 0 <= i < |codes| && IsWord(codes[i], word) ensures Words(codes)[i] == word {
      WordOfValue(codes, i, word);
    }
  }

  lemma WordOfValue(codes: seq<int>, i: nat, word: bv32)
    requires StatusWords(codes) && i < |codes| && IsWord(codes[i], word)
    ensures Words(codes)[i] == word
  {
    assert codes[i] in codes;
  }

  // ------------------------------------------------------------------ what is published was asked for

  /** The stroke is the fraction `g` of the contract's range. */
  ghost predicate Stroke(mm: real, g: real, c: Config) {
    mm - c.gripperMin == g * (c.gripperMax - c.gripperMin)
  }

  ghost predicate AsksStroke(call: Call, mm: real) {
    && call.packet.Some? && call.packet.value.gripper.Some? && FractionIn(call.packet.value.gripper.value)
    && Stroke(mm, call.packet.value.gripper.value.v, call.config)
  }

  ghost predicate AsksTargets(call: Call, p: Pose) {
    call.packet.Some? && Requests(call.packet.value, p)
  }

  /** What a call is about to publish is what its packet asks for. */
  ghost predicate Asked(pc: Pc) {
    match pc
    case ReadState(call, p, _) => AsksTargets(call, p)
    case Arm(call, p, _) => AsksTargets(call, p)
    case Retarget(call, p, _) => AsksTargets(call, p)
    case PublishJoint(call, p, _, _) => AsksTargets(call, p)
    case ReadGripper(call, stroke) =>
      call.packet.Some? && call.packet.value.gripper == Some(Finite(stroke)) && FractionIn(Finite(stroke))
    case PublishGripper(call, mm) => AsksStroke(call, mm)
    case _ => true
  }

  lemma AskedNext(w: World, e: Event)
    requires HasPacket(w.pc) && Asked(w.pc)
    ensures Asked(Step(w, e).0.pc)
  {
    if !e.Main? {
      CallbacksKeepPc(w, e);
    } else if w.pc.Snapshot? {
      if w.pc.call.packet.Some? && w.pc.call.packet.value.jointTargets.Some? {
        TargetRefusalIs(w.pc.call.packet.value.jointTargets.value, w.pc.call.config);
      }
      hide TargetRefusal, StateResult;
    } else if w.pc.ReadGripper? {
      StrokeIs(w.pc.stroke, w.pc.call.config);
    }
  }

  lemma {:induction false} AlwaysAsked(run: nat -> Event, n: nat)
    ensures Asked(At(run, n).pc)
  {
    if n > 0 {
      hide *;
      AtNext(run, n - 1);
      AlwaysAsked(run, n - 1);
      AskedNext(At(run, n - 1), run(n - 1));
    } else {
      hide Asked;
      NothingAskedYet();
    }
  }

  lemma NothingAskedYet()
    ensures Asked(Idle)
  {
  }

  /** Over every run, a published stroke is the fraction of the range that its call's packet asks for. */
  lemma StrokeWasAsked(run: nat -> Event, n: nat)
    requires OutputAt(run, n).GripperStroke?
    ensures At(run, n).pc.PublishGripper? && AsksStroke(At(run, n).pc.call, OutputAt(run, n).mm)
  {
    AlwaysAsked(run, n);
    OnlyGripperEmits(At(run, n), run(n));
  }

  /** Over every run, a published joint target is the list of values in its call's packet. */
  lemma TargetWasAsked(run: nat -> Event, n: nat)
    requires OutputAt(run, n).JointTarget?
    ensures At(run, n).pc.PublishJoint? && AsksTargets(At(run, n).pc.call, OutputAt(run, n).target)
  {
    AlwaysAsked(run, n);
    OnlyPublishEmits(At(run, n), run(n));
  }
}
