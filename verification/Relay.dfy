/**
 * The command relay between the OpenRAL client and the A1 driver: its state, its ROS callbacks
 * and the lock sections of `state` and `apply`.
 *
 * One step is one `with self._lock` section, so callbacks may run between any two sections of a
 * call. Clock readings are arbitrary reals carried by the events.
 */
module Relay {
  import opened Basics

  const JOINTS: nat := 6

  type Pose = p: seq<real> | |p| == JOINTS witness [0.0, 0.0, 0.0, 0.0, 0.0, 0.0]

  const LOWER: Pose := [-2.8798, 0.0, -3.3161, -2.8798, -1.6581, -2.8798]
  const UPPER: Pose := [2.8798, 3.1415, 0.0, 2.8798, 1.6581, 2.8798]
  const GRIPPER_STATUS_INDEX: nat := JOINTS
  const MAX_STATUS_MASK := 0xFFFF_FFFF
  const ALLOWED_MODE := 0

  // ---------------------------------------------------------------------------- data

  /** A value that should be a float; `Bad` is a NaN, an infinity or no number at all. */
  datatype Num = Finite(v: real) | Bad

  datatype Mode = NotAnInteger | Mode(value: int)

  /** One message of the vendor tracker. */
  datatype TrackerCommand = TrackerCommand(
    pDes: seq<Num>, vDes: seq<Num>, kp: seq<Num>, kd: seq<Num>, tFf: seq<Num>, mode: Mode)

  datatype Malformed = WrongLength | NotFinite | NegativeGain | WrongMode

  datatype Config = Config(
    alignment: real, maxStep: real, lease: real, stateTimeout: real, statusTimeout: real,
    feedbackTolerance: real, alignmentTimeout: real, idleMask: bv32, gripperMask: bv32,
    gripperMin: real, gripperMax: real, jointMin: Pose, jointMax: Pose)

  datatype RelayState = Locked | Arming | Active | Faulted

  datatype Fault =
    | BadCommand(why: Malformed)
    | CommandOutside(joint: nat)
    | ActuatorError(actuator: nat)
    | FeedbackOutside(joint: nat)
    | AlignmentTimedOut

  /** The fields of `Bridge`. */
  datatype Relay = Relay(
    joint: Option<Pose>, jointAt: real,
    gripper: Option<real>, gripperAt: real,
    status: Option<seq<bv32>>, statusAt: real,
    config: Option<Config>, state: RelayState, fault: Option<Fault>,
    target: Option<Pose>, deadline: real,
    publishedTarget: Option<Pose>, publishedGripper: Option<real>,
    staged: Option<Pose>, forwarded: Option<Pose>, accepted: nat)

  const INITIAL: Relay := Relay(
    None, 0.0, None, 0.0, None, 0.0, None, Locked, None, None, 0.0, None, None, None, None, 0)

  // ---------------------------------------------------------------------------- checks

  predicate Within(p: Pose, lower: Pose, upper: Pose, tolerance: real) {
    forall i | 0 <= i < JOINTS :: lower[i] - tolerance <= p[i] <= upper[i] + tolerance
  }

  /** `max(abs(a - b)) <= bound` over the joints. */
  predicate Near(a: Pose, b: Pose, bound: real) {
    forall i | 0 <= i < JOINTS :: Abs(a[i] - b[i]) <= bound
  }

  /** The joint a fault message names: the first one outside its limits. */
  function FirstOutside(p: Pose, lower: Pose, upper: Pose, tolerance: real): (i: nat)
    requires !Within(p, lower, upper, tolerance)
    ensures i < JOINTS && !(lower[i] - tolerance <= p[i] <= upper[i] + tolerance)
    ensures forall k | 0 <= k < i :: lower[k] - tolerance <= p[k] <= upper[k] + tolerance
  {
    FirstOutsideFrom(p, lower, upper, tolerance, 0)
  }

  function FirstOutsideFrom(p: Pose, lower: Pose, upper: Pose, tolerance: real, from: nat): (i: nat)
    requires !Within(p, lower, upper, tolerance) && from <= JOINTS
    requires forall k | 0 <= k < from :: lower[k] - tolerance <= p[k] <= upper[k] + tolerance
    ensures i < JOINTS && !(lower[i] - tolerance <= p[i] <= upper[i] + tolerance)
    ensures forall k | 0 <= k < i :: lower[k] - tolerance <= p[k] <= upper[k] + tolerance
    decreases JOINTS - from
  {
    if !(lower[from] - tolerance <= p[from] <= upper[from] + tolerance) then from
    else FirstOutsideFrom(p, lower, upper, tolerance, from + 1)
  }

  function AllowedBits(index: nat, c: Config): bv32 {
    if index == GRIPPER_STATUS_INDEX then c.idleMask | c.gripperMask else c.idleMask
  }

  predicate ActuatorClean(code: bv32, index: nat, c: Config) {
    code & !AllowedBits(index, c) == 0
  }

  /** No arm or gripper actuator reports a bit outside its mask. */
  predicate StatusClean(codes: seq<bv32>, c: Config) {
    CleanUpTo(codes, c, |codes|)
  }

  predicate CleanUpTo(codes: seq<bv32>, c: Config, n: nat)
    requires n <= |codes|
  {
    forall i: nat | i < n && i <= GRIPPER_STATUS_INDEX :: ActuatorClean(codes[i], i, c)
  }

  /** `_check_status` from actuator `from` on: the first actuator with an unmasked bit. */
  function StatusFault(codes: seq<bv32>, c: Config, from: nat := 0): (r: Option<nat>)
    requires from <= |codes| && CleanUpTo(codes, c, from)
    ensures r.None? <==> StatusClean(codes, c)
    ensures r.Some? ==> r.value < |codes| && !ActuatorClean(codes[r.value], r.value, c) && CleanUpTo(codes, c, r.value)
    decreases |codes| - from
  {
    if from >= |codes| || from > GRIPPER_STATUS_INDEX then None
    else if !ActuatorClean(codes[from], from, c) then Some(from)
    else StatusFault(codes, c, from + 1)
  }

  function Values(xs: seq<Num>): Option<seq<real>>
    ensures Values(xs).Some? <==> forall x <- xs :: x.Finite?
    ensures Values(xs).Some? ==> |Values(xs).value| == |xs|
    ensures Values(xs).Some? ==> forall i | 0 <= i < |xs| :: Values(xs).value[i] == xs[i].v
  {
    if exists x <- xs :: x.Bad? then None
    else Some(seq(|xs|, i requires 0 <= i < |xs| => xs[i].v))
  }

  function CheckVector(xs: seq<Num>): Option<Malformed> {
    if |xs| != JOINTS then Some(WrongLength) else if Values(xs).None? then Some(NotFinite) else None
  }

  predicate HasNegative(xs: seq<Num>) {
    exists x <- xs :: x.Finite? && x.v < 0.0
  }

  /** `_decode_tracker_command` */
  function Decode(m: TrackerCommand): Result<Pose, Malformed> {
    if CheckVector(m.pDes).Some? then Err(CheckVector(m.pDes).value)
    else if CheckVector(m.vDes).Some? then Err(CheckVector(m.vDes).value)
    else if CheckVector(m.kp).Some? then Err(CheckVector(m.kp).value)
    else if CheckVector(m.kd).Some? then Err(CheckVector(m.kd).value)
    else if CheckVector(m.tFf).Some? then Err(CheckVector(m.tFf).value)
    else if HasNegative(m.kp) || HasNegative(m.kd) then Err(NegativeGain)
    else if m.mode != Mode(ALLOWED_MODE) then Err(WrongMode)
    else Ok(Values(m.pDes).value)
  }

  predicate FiniteVector(xs: seq<Num>) {
    |xs| == JOINTS && forall x <- xs :: x.Finite?
  }

  /** What the driver may be sent: six finite values each, gains not negative, position mode. */
  predicate Forwardable(m: TrackerCommand, p: Pose) {
    && FiniteVector(m.pDes) && FiniteVector(m.vDes) && FiniteVector(m.kp)
    && FiniteVector(m.kd) && FiniteVector(m.tFf)
    && (forall i | 0 <= i < JOINTS :: m.kp[i].v >= 0.0 && m.kd[i].v >= 0.0 && m.pDes[i].v == p[i])
    && m.mode == Mode(0)
  }

  /** Decoding accepts exactly the forwardable messages, and yields their positions. */
  lemma DecodeIff(m: TrackerCommand, p: Pose)
    ensures Decode(m) == Ok(p) <==> Forwardable(m, p)
  {
    if Forwardable(m, p) {
      assert Values(m.pDes).value == p;
    }
    if Decode(m) == Ok(p) {
      forall i | 0 <= i < JOINTS ensures m.kp[i].v >= 0.0 && m.kd[i].v >= 0.0 {
        assert m.kp[i] in m.kp && m.kd[i] in m.kd;
      }
    }
  }

  // ---------------------------------------------------------------------------- callbacks

  /** `_latch_relay_fault_locked`: only the first fault is kept. */
  function Latch(r: Relay, f: Fault): Relay {
    if r.fault.None? then r.(fault := Some(f), state := Faulted) else r
  }

  function Configured(r: Relay, c: Config): Relay {
    r.(config := Some(c), state := Locked, fault := None, target := None, deadline := 0.0,
       publishedTarget := None, publishedGripper := None, staged := None, forwarded := None,
       accepted := 0)
  }

  predicate FreshFeedback(r: Relay, now: real) {
    && r.config.Some? && r.joint.Some? && r.status.Some?
    && now - r.jointAt <= r.config.value.stateTimeout
    && now - r.statusAt <= r.config.value.statusTimeout
  }

  /** `_on_staged` after decoding; the flag says whether the message is forwarded. */
  function OnDecoded(r: Relay, p: Pose, now: real): (Relay, bool) {
    var s := r.(staged := Some(p));
    if !Within(p, LOWER, UPPER, 0.0) then
      var tolerance := if r.config.Some? then r.config.value.feedbackTolerance else 0.0;
      if r.state.Arming? && Within(p, LOWER, UPPER, tolerance) then (s, false)
      else (Latch(s, CommandOutside(FirstOutside(p, LOWER, UPPER, 0.0))), false)
    else if r.target.Some? && FreshFeedback(r, now) then
      var c, current := r.config.value, r.joint.value;
      var bad := StatusFault(r.status.value, c);
      if bad.Some? then (Latch(s, ActuatorError(bad.value)), false)
      else if !Within(current, c.jointMin, c.jointMax, c.feedbackTolerance) then
        (Latch(s, FeedbackOutside(FirstOutside(current, c.jointMin, c.jointMax, c.feedbackTolerance))), false)
      else if r.state.Active? || (r.state.Arming? && AlignedSample(r, p)) then
        (s.(state := Active, forwarded := Some(p)), true)
      else (s, false)
    else (s, false)
  }

  /** A staged sample close to both the requested target and the measured pose. */
  predicate AlignedSample(r: Relay, p: Pose) {
    && r.target.Some? && r.joint.Some? && r.config.Some?
    && Near(p, r.target.value, r.config.value.alignment)
    && Near(p, r.joint.value, r.config.value.alignment)
  }

  function OnStaged(r: Relay, m: TrackerCommand, now: real): (Relay, bool) {
    match Decode(m)
    case Err(why) => (Latch(r, BadCommand(why)), false)
    case Ok(p) => OnDecoded(r, p, now)
  }

  predicate StatusWords(codes: seq<int>) {
    |codes| >= 7 && forall x <- codes :: 0 <= x <= MAX_STATUS_MASK
  }

  function Words(codes: seq<int>): (words: seq<bv32>)
    requires StatusWords(codes)
    ensures |words| == |codes|
  {
    seq(|codes|, i requires 0 <= i < |codes| => assert codes[i] in codes; codes[i] as bv32)
  }

  /** `_on_status`: a short status, or one with a code outside uint32, is ignored. */
  function OnStatus(r: Relay, codes: seq<int>, now: real): Relay {
    if StatusWords(codes) then r.(status := Some(Words(codes)), statusAt := now) else r
  }

  // ---------------------------------------------------------------------------- calls

  /** An action record; a `joint_targets` that is no list is one of the wrong length. */
  datatype Packet = Packet(jointTargets: Option<seq<Num>>, gripper: Option<Num>)

  /** A running `state` (no packet) or `apply` call. */
  datatype Call = Call(packet: Option<Packet>, config: Config, first: bool)

  datatype Refusal =
    | Incomplete | Latched(fault: Fault) | TimedOut | StaleJoint | StaleGripper | StaleStatus
    | BadFeedback | BadStatus | GripperOutside | BadTargets | TargetOutside | TooFar | NotActive
    | BadGripper | GripperNotActive | EmptyAction

  /** Where the calling thread is: before which lock section (or local check). */
  datatype Pc =
    | Idle
    | Snapshot(call: Call)
    | LatchTimeout(call: Call)
    | ReadState(call: Call, target: Pose, position: Pose)
    | Arm(call: Call, target: Pose, position: Pose)
    | Retarget(call: Call, target: Pose, position: Pose)
    | PublishJoint(call: Call, target: Pose, position: Pose, bound: real)
    | CheckGripper(call: Call)
    | ReadGripper(call: Call, stroke: real)
    | PublishGripper(call: Call, mm: real)
    | Count(call: Call)

  /** What `state` answers, apart from velocities, efforts and stamps. */
  datatype Reply = Reply(
    position: Pose, codes: seq<bv32>, gripperNorm: real, state: RelayState,
    staged: Option<Pose>, forwarded: Option<Pose>, accepted: nat)

  datatype Output =
    | Silent
    | Forward(position: Pose)
    | JointTarget(target: Pose, feedback: Pose, bound: real)
    | GripperStroke(mm: real)
    | Raised(why: Refusal)
    | Reported(reply: Reply)
    | Returned(first: bool)

  /** The refusals of `state` that need no lock, in its order; `None` when it answers. */
  function StateRefusal(r: Relay, c: Config, now: real): (why: Option<Refusal>)
    requires r.joint.Some? && r.gripper.Some? && r.status.Some?
  {
    if now - r.jointAt > c.stateTimeout then Some(StaleJoint)
    else if now - r.gripperAt > c.stateTimeout then Some(StaleGripper)
    else if now - r.statusAt > c.statusTimeout then Some(StaleStatus)
    else if !Within(r.joint.value, c.jointMin, c.jointMax, c.feedbackTolerance) then Some(BadFeedback)
    else if !StatusClean(r.status.value, c) then Some(BadStatus)
    // 0 <= (mm - min) / (max - min) <= 1, without the division
    else if !(c.gripperMin <= r.gripper.value <= c.gripperMax) then Some(GripperOutside)
    else None
  }

  /** The checks `apply` makes on the requested joint targets before its next lock section. */
  function TargetRefusal(targets: seq<Num>, c: Config): Option<Refusal> {
    if |targets| != JOINTS || Values(targets).None? then Some(BadTargets)
    else if !Within(Values(targets).value, c.jointMin, c.jointMax, 0.0) then Some(TargetOutside)
    else None
  }

  /** The stroke as a fraction of the configured range. */
  function GripperNorm(mm: real, c: Config): real {
    if c.gripperMin == c.gripperMax then 0.0 else (mm - c.gripperMin) / (c.gripperMax - c.gripperMin)
  }

  function ReplyOf(r: Relay, c: Config): Reply
    requires r.joint.Some? && r.gripper.Some? && r.status.Some?
  {
    Reply(r.joint.value, r.status.value, GripperNorm(r.gripper.value, c), r.state, r.staged, r.forwarded, r.accepted)
  }

  /** What `state` answers from its snapshot at clock reading `now`: the reply, or an error. */
  function StateResult(r: Relay, c: Config, now: real): Result<Reply, Refusal> {
    if r.joint.None? || r.gripper.None? || r.status.None? then Err(Incomplete)
    else if r.fault.Some? then Err(Latched(r.fault.value))
    else if r.state.Arming? && now > r.deadline then Err(TimedOut)
    else if StateRefusal(r, c, now).Some? then Err(StateRefusal(r, c, now).value)
    else Ok(ReplyOf(r, c))
  }

  /** `state`'s lock section at clock reading `now`, and what follows it up to the next section. */
  function SnapshotStep(r: Relay, call: Call, now: real): (Pc, Output) {
    match StateResult(r, call.config, now)
    case Err(TimedOut) => (LatchTimeout(call), Silent)
    case Err(why) => (Idle, Raised(why))
    case Ok(reply) =>
      if call.packet.None? then (Idle, Reported(reply))
      else
        match call.packet.value.jointTargets
        case None => (CheckGripper(call), Silent)
        case Some(targets) =>
          match TargetRefusal(targets, call.config)
          case Some(why) => (Idle, Raised(why))
          case None => (ReadState(call, Values(targets).value, reply.position), Silent)
  }

  /** The feedback-relative bound of line 497. */
  function StepBound(call: Call, seen: RelayState): real {
    if call.first || seen.Arming? then call.config.alignment else call.config.maxStep
  }

  function ReadStateStep(r: Relay, call: Call, target: Pose, position: Pose): (Pc, Output) {
    var bound := StepBound(call, r.state);
    if !Near(target, position, bound) then (Idle, Raised(TooFar))
    else if call.first then (Arm(call, target, position), Silent)
    else if r.state.Arming? then (Retarget(call, target, position), Silent)
    else if r.state.Active? then (PublishJoint(call, target, position, bound), Silent)
    else (Idle, Raised(NotActive))
  }

  function StrokeMm(stroke: real, c: Config): real {
    c.gripperMin + stroke * (c.gripperMax - c.gripperMin)
  }

  function CheckGripperStep(call: Call): (Pc, Output)
    requires call.packet.Some?
  {
    match call.packet.value.gripper
    case None =>
      if call.packet.value.jointTargets.None? then (Idle, Raised(EmptyAction)) else (Count(call), Silent)
    case Some(g) =>
      if g.Bad? || !(0.0 <= g.v <= 1.0) then (Idle, Raised(BadGripper))
      else (ReadGripper(call, g.v), Silent)
  }

  datatype World = World(relay: Relay, pc: Pc)

  /** Past the shared `state` part, the call is an `apply`. */
  predicate HasPacket(pc: Pc) {
    pc.Idle? || pc.Snapshot? || pc.LatchTimeout? || pc.call.packet.Some?
  }

  /** The calling thread's next section. */
  function MainStep(w: World, now: real): (next: (World, Output))
    requires HasPacket(w.pc)
    ensures HasPacket(next.0.pc)
  {
    var r := w.relay;
    match w.pc
    case Idle => (w, Silent)
    case Snapshot(call) =>
      var (pc, out) := SnapshotStep(r, call, now);
      (World(r, pc), out)
    case LatchTimeout(call) =>
      (World(Latch(r, AlignmentTimedOut), Idle), Raised(TimedOut))
    case ReadState(call, target, position) =>
      var (pc, out) := ReadStateStep(r, call, target, position);
      (World(r, pc), out)
    case Arm(call, target, position) =>
      (World(r.(state := Arming, target := Some(target), deadline := now + call.config.alignmentTimeout),
             PublishJoint(call, target, position, call.config.alignment)), Silent)
    case Retarget(call, target, position) =>
      (World(r.(target := Some(target)), PublishJoint(call, target, position, call.config.alignment)), Silent)
    case PublishJoint(call, target, position, bound) =>
      var next := CheckGripper(call);
      if r.publishedTarget != Some(target) then
        (World(r.(publishedTarget := Some(target)), next), JointTarget(target, position, bound))
      else (World(r, next), Silent)
    case CheckGripper(call) =>
      var (pc, out) := CheckGripperStep(call);
      (World(r, pc), out)
    case ReadGripper(call, stroke) =>
      if !r.state.Active? then (World(r, Idle), Raised(GripperNotActive))
      else
        (World(r, PublishGripper(call, StrokeMm(stroke, call.config))), Silent)
    case PublishGripper(call, mm) =>
      if r.publishedGripper != Some(mm) then
        (World(r.(publishedGripper := Some(mm)), Count(call)), GripperStroke(mm))
      else (World(r, Count(call)), Silent)
    case Count(call) =>
      var stillFirst := call.first && call.packet.value.jointTargets.None?;
      (World(r.(accepted := r.accepted + 1), Idle), Returned(stillFirst))
  }

  // ---------------------------------------------------------------------------- runs

  datatype Event =
    | Configure(config: Config)
    | JointFeedback(position: Pose, at: real)
    | GripperFeedback(mm: real, at: real)
    | StatusFeedback(codes: seq<int>, at: real)
    | Staged(command: TrackerCommand, at: real)
    | Begin(call: Call)
    | Main(at: real)

  /** One section. An event that is not enabled (a second call on the busy thread) does nothing. */
  function Step(w: World, e: Event): (next: (World, Output))
    requires HasPacket(w.pc)
    ensures HasPacket(next.0.pc)
  {
    var r := w.relay;
    match e
    case Configure(c) => if w.pc.Idle? then (World(Configured(r, c), Idle), Silent) else (w, Silent)
    case JointFeedback(p, at) => (World(r.(joint := Some(p), jointAt := at), w.pc), Silent)
    case GripperFeedback(mm, at) => (World(r.(gripper := Some(mm), gripperAt := at), w.pc), Silent)
    case StatusFeedback(codes, at) => (World(OnStatus(r, codes, at), w.pc), Silent)
    case Staged(m, at) =>
      var (r', forwards) := OnStaged(r, m, at);
      (World(r', w.pc), if forwards then Forward(Decode(m).value) else Silent)
    case Begin(call) => if w.pc.Idle? then (World(r, Snapshot(call)), Silent) else (w, Silent)
    case Main(at) => MainStep(w, at)
  }

  /** The world before event `n` of a run. */
  function At(run: nat -> Event, n: nat): (w: World)
    ensures HasPacket(w.pc)
  {
    if n == 0 then World(INITIAL, Idle) else Step(At(run, n - 1), run(n - 1)).0
  }

  function OutputAt(run: nat -> Event, n: nat): Output {
    Step(At(run, n), run(n)).1
  }
}
