/** What every run of the relay keeps, whatever the interleaving of its lock sections. */
module RelaySafety {
  import opened Basics
  import opened Relay

  // ------------------------------------------------------------------ alignment before motion

  /** No `configure` takes effect in sections `from..to` (it runs on the calling thread, between calls). */
  ghost predicate NoConfigure(run: nat -> Event, from: nat, to: nat) {
    forall m: nat | from <= m < to :: !ConfiguresAt(run, m)
  }

  ghost predicate ConfiguresAt(run: nat -> Event, m: nat) {
    run(m).Configure? && At(run, m).pc.Idle?
  }

  /** Section `k` of the run is the write of line 504: `apply` starts an alignment. */
  ghost predicate ArmsAt(run: nat -> Event, k: nat) {
    At(run, k).pc.Arm? && run(k).Main?
  }

  /** Section `j` is a staged sample, seen while ARMING, close to both target and feedback. */
  ghost predicate AlignsAt(run: nat -> Event, j: nat) {
    var r := At(run, j).relay;
    && run(j).Staged? && r.state.Arming? && Decode(run(j).command).Ok?
    && AlignedSample(r, Decode(run(j).command).value)
  }

  ghost predicate ArmedSince(run: nat -> Event, n: nat, k: nat) {
    k < n && ArmsAt(run, k) && NoConfigure(run, k, n)
  }

  ghost predicate AlignedSince(run: nat -> Event, n: nat, k: nat, j: nat) {
    k < j < n && ArmedSince(run, n, k) && AlignsAt(run, j)
  }

  /** The only ways into ARMING and ACTIVE. */
  lemma StateMoves(w: World, e: Event)
    requires HasPacket(w.pc)
    ensures var r, s := w.relay, Step(w, e).0.relay;
            && (e.Configure? && w.pc.Idle? ==> s.state.Locked?)
            && (s.state.Arming? ==> r.state.Arming? || (w.pc.Arm? && e.Main?))
            && (s.state.Active? && !r.state.Active? ==>
                  r.state.Arming? && e.Staged? && Decode(e.command).Ok? && AlignedSample(r, Decode(e.command).value))
  {
    if e.Main? {
      MainMoves(w, e.at);
    }
  }

  lemma MainMoves(w: World, now: real)
    requires HasPacket(w.pc)
    ensures var r, s := w.relay, MainStep(w, now).0.relay;
            && (s.state.Arming? ==> r.state.Arming? || w.pc.Arm?)
            && (s.state.Active? ==> r.state.Active?)
            && (s.fault.None? <==> r.fault.None? && !w.pc.LatchTimeout?)
            && (r.fault.Some? ==> s.fault == r.fault)
  {
  }

  lemma AtNext(run: nat -> Event, n: nat)
    ensures At(run, n + 1) == Step(At(run, n), run(n)).0
  {
  }

  ghost predicate WasArmed(run: nat -> Event, n: nat) {
    exists k: nat :: ArmedSince(run, n, k)
  }

  ghost predicate WasAligned(run: nat -> Event, n: nat) {
    exists k: nat, j: nat :: AlignedSince(run, n, k, j)
  }

  lemma HistoryExtends(run: nat -> Event, n: nat)
    requires !ConfiguresAt(run, n)
    ensures WasArmed(run, n) ==> WasArmed(run, n + 1)
    ensures WasAligned(run, n) ==> WasAligned(run, n + 1)
    ensures WasArmed(run, n) && AlignsAt(run, n) ==> WasAligned(run, n + 1)
  {
    if k: nat :| ArmedSince(run, n, k) {
      assert ArmedSince(run, n + 1, k);
      if AlignsAt(run, n) {
        assert AlignedSince(run, n + 1, k, n);
      }
    }
    if k: nat, j: nat :| AlignedSince(run, n, k, j) {
      assert ArmedSince(run, n + 1, k);
      assert AlignedSince(run, n + 1, k, j);
    }
  }

  /** What `MotionHistory` says at one point of a run. */
  ghost predicate Motivated(run: nat -> Event, n: nat, state: RelayState) {
    && (state.Arming? ==> WasArmed(run, n))
    && (state.Active? ==> WasAligned(run, n))
  }

  lemma MotionStep(run: nat -> Event, n: nat, w: World, e: Event)
    requires w == At(run, n) && e == run(n) && Motivated(run, n, w.relay.state)
    ensures Motivated(run, n + 1, Step(w, e).0.relay.state)
  {
    StateMoves(w, e);
    if !(e.Configure? && w.pc.Idle?) {
      HistoryExtends(run, n);
      if w.pc.Arm? && e.Main? {
        assert ArmedSince(run, n + 1, n);
      }
    }
  }

  /** ARMING was preceded by an arming write, ACTIVE by one and then an aligned sample. */
  lemma {:induction false} MotionHistory(run: nat -> Event, n: nat)
    ensures Motivated(run, n, At(run, n).relay.state)
  {
    if n > 0 {
      hide *;
      AtNext(run, n - 1);
      MotionHistory(run, n - 1);
      MotionStep(run, n - 1, At(run, n - 1), run(n - 1));
    }
  }

  /** Everything a forwarded command was checked against at the moment it was chosen. */
  ghost predicate CheckedCommand(r: Relay, m: TrackerCommand, now: real, p: Pose) {
    && Forwardable(m, p)
    && Within(p, LOWER, UPPER, 0.0)
    && FreshFeedback(r, now)
    && StatusClean(r.status.value, r.config.value)
    && var c := r.config.value;
       Within(r.joint.value, c.jointMin, c.jointMax, c.feedbackTolerance)
  }

  /**
   * A command is forwarded only when it is well formed and inside the joint limits, with fresh
   * fault-free feedback, the relay ACTIVE, and an earlier aligned ARMING sample since `configure`.
   */
  lemma ForwardedIsJustified(run: nat -> Event, n: nat)
    requires OutputAt(run, n).Forward?
    ensures run(n).Staged?
    ensures CheckedCommand(At(run, n).relay, run(n).command, run(n).at, OutputAt(run, n).position)
    ensures At(run, n + 1).relay.state.Active?
    ensures At(run, n + 1).relay.forwarded == Some(OutputAt(run, n).position)
    ensures WasAligned(run, n + 1)
  {
    DecodeIff(run(n).command, Decode(run(n).command).value);
    MotionHistory(run, n + 1);
  }

  // ------------------------------------------------------------------ what is published

  /** In `w`, at clock reading `now`, the `state` snapshot admits `call` with feedback `position`. */
  ghost predicate Admits(w: World, now: real, call: Call, position: Pose) {
    && w.pc == Snapshot(call)
    && w.relay.fault.None? && w.relay.joint == Some(position)
    && now - w.relay.jointAt <= call.config.stateTimeout
    && Within(position, call.config.jointMin, call.config.jointMax, call.config.feedbackTolerance)
  }

  ghost predicate WasAdmitted(run: nat -> Event, n: nat, call: Call, position: Pose) {
    exists m: nat | m < n :: run(m).Main? && Admits(At(run, m), run(m).at, call, position)
  }

  ghost predicate AdmittedTarget(call: Call, target: Pose, position: Pose, bound: real) {
    && Within(target, call.config.jointMin, call.config.jointMax, 0.0)
    && Near(target, position, bound)
    && (bound == call.config.alignment || (!call.first && bound == call.config.maxStep))
  }

  predicate CarriesTarget(pc: Pc) {
    pc.ReadState? || pc.Arm? || pc.Retarget? || pc.PublishJoint?
  }

  /** The checks already made on the joint target a call carries. */
  ghost predicate CheckedTarget(pc: Pc) {
    match pc
    case ReadState(call, target, position) => Within(target, call.config.jointMin, call.config.jointMax, 0.0)
    case Arm(call, target, position) => call.first && AdmittedTarget(call, target, position, call.config.alignment)
    case Retarget(call, target, position) => AdmittedTarget(call, target, position, call.config.alignment)
    case PublishJoint(call, target, position, bound) => AdmittedTarget(call, target, position, bound)
    case _ => true
  }

  lemma MainKeepsTarget(w: World, now: real)
    requires HasPacket(w.pc) && CheckedTarget(w.pc)
    ensures var pc := MainStep(w, now).0.pc;
            && CheckedTarget(pc)
            && (CarriesTarget(pc) ==>
                  if CarriesTarget(w.pc) then pc.call == w.pc.call && pc.position == w.pc.position
                  else Admits(w, now, pc.call, pc.position))
  {
  }

  lemma CallbacksKeepPc(w: World, e: Event)
    requires HasPacket(w.pc) && !e.Main?
    ensures var pc := Step(w, e).0.pc; pc == w.pc || pc.Idle? || pc.Snapshot?
  {
  }

  lemma {:induction false} CarriedIsAdmitted(run: nat -> Event, n: nat)
    ensures CarriedSafely(run, n, At(run, n).pc)
  {
    if n > 0 {
      hide *;
      AtNext(run, n - 1);
      CarriedIsAdmitted(run, n - 1);
      CarriedStep(run, n - 1, At(run, n - 1), run(n - 1));
    }
  }

  ghost predicate CarriedSafely(run: nat -> Event, n: nat, pc: Pc) {
    CheckedTarget(pc) && (CarriesTarget(pc) ==> WasAdmitted(run, n, pc.call, pc.position))
  }

  lemma CarriedStep(run: nat -> Event, n: nat, w: World, e: Event)
    requires w == At(run, n) && e == run(n) && CarriedSafely(run, n, w.pc)
    ensures CarriedSafely(run, n + 1, Step(w, e).0.pc)
  {
    if e.Main? {
      MainKeepsTarget(w, e.at);
    } else {
      CallbacksKeepPc(w, e);
    }
  }

  /** The target's bound is the one for the relay state that its own call read in section `m`. */
  ghost predicate BoundReadAt(run: nat -> Event, m: nat, call: Call, target: Pose, position: Pose, bound: real) {
    && run(m).Main? && At(run, m).pc == ReadState(call, target, position)
    && bound == StepBound(call, At(run, m).relay.state)
  }

  ghost predicate BoundWasRead(run: nat -> Event, n: nat, call: Call, target: Pose, position: Pose, bound: real) {
    exists m: nat | m < n :: BoundReadAt(run, m, call, target, position, bound)
  }

  /** The bound that the target a call carries was checked against, once it has been. */
  function CheckedBound(pc: Pc): Option<real> {
    match pc
    case Arm(call, _, _) => Some(call.config.alignment)
    case Retarget(call, _, _) => Some(call.config.alignment)
    case PublishJoint(_, _, _, bound) => Some(bound)
    case _ => None
  }

  ghost predicate BoundJustified(run: nat -> Event, n: nat, pc: Pc) {
    CheckedBound(pc).Some? ==> BoundWasRead(run, n, pc.call, pc.target, pc.position, CheckedBound(pc).value)
  }

  lemma BoundMoves(w: World, e: Event)
    requires HasPacket(w.pc)
    ensures var pc := Step(w, e).0.pc;
            CheckedBound(pc).Some? ==>
              if CheckedBound(w.pc).Some? then
                && pc.call == w.pc.call && pc.target == w.pc.target && pc.position == w.pc.position
                && CheckedBound(pc) == CheckedBound(w.pc)
              else
                && e.Main? && w.pc == ReadState(pc.call, pc.target, pc.position)
                && CheckedBound(pc) == Some(StepBound(pc.call, w.relay.state))
  {
    if !e.Main? {
      CallbacksKeepPc(w, e);
    }
  }

  lemma {:induction false} BoundIsJustified(run: nat -> Event, n: nat)
    ensures BoundJustified(run, n, At(run, n).pc)
  {
    if n > 0 {
      BoundIsJustified(run, n - 1);
      AtNext(run, n - 1);
      BoundMoves(At(run, n - 1), run(n - 1));
      BoundStep(run, n - 1, At(run, n - 1).pc, At(run, n).pc);
    }
  }

  lemma BoundStep(run: nat -> Event, n: nat, before: Pc, pc: Pc)
    requires before == At(run, n).pc && BoundJustified(run, n, before)
    requires CheckedBound(pc).Some? ==>
               if CheckedBound(before).Some? then
                 && pc.call == before.call && pc.target == before.target && pc.position == before.position
                 && CheckedBound(pc) == CheckedBound(before)
               else
                 && run(n).Main? && before == ReadState(pc.call, pc.target, pc.position)
                 && CheckedBound(pc) == Some(StepBound(pc.call, At(run, n).relay.state))
    ensures BoundJustified(run, n + 1, pc)
  {
    hide At, StepBound;
    if CheckedBound(pc).Some? {
      if CheckedBound(before).Some? {
        var m: nat :| m < n && BoundReadAt(run, m, pc.call, pc.target, pc.position, CheckedBound(pc).value);
      } else {
        assert BoundReadAt(run, n, pc.call, pc.target, pc.position, CheckedBound(pc).value);
      }
    }
  }

  /** A target was admitted within the alignment bound of a fresh, unfaulted feedback sample. */
  ghost predicate AdmittedAligned(run: nat -> Event, n: nat, target: Pose) {
    exists call: Call, position: Pose ::
      WasAdmitted(run, n, call, position) && AdmittedTarget(call, target, position, call.config.alignment)
  }

  lemma TargetMoves(w: World, e: Event)
    requires HasPacket(w.pc)
    ensures var t := Step(w, e).0.relay.target;
            t.Some? ==> t == w.relay.target || ((w.pc.Arm? || w.pc.Retarget?) && t == Some(w.pc.target))
  {
  }

  ghost predicate TargetAligned(run: nat -> Event, n: nat, target: Option<Pose>) {
    target.Some? ==> AdmittedAligned(run, n, target.value)
  }

  lemma TargetStep(run: nat -> Event, n: nat, w: World, e: Event)
    requires w == At(run, n) && e == run(n) && CarriedSafely(run, n, w.pc) && TargetAligned(run, n, w.relay.target)
    ensures TargetAligned(run, n + 1, Step(w, e).0.relay.target)
  {
    TargetMoves(w, e);
    hide Step, At, Admits;
    var t := Step(w, e).0.relay.target;
    if t.Some? {
      if t == w.relay.target {
        var call: Call, position: Pose :|
          WasAdmitted(run, n, call, position) && AdmittedTarget(call, t.value, position, call.config.alignment);
        assert WasAdmitted(run, n + 1, call, position);
      } else {
        assert WasAdmitted(run, n + 1, w.pc.call, w.pc.position);
        assert AdmittedTarget(w.pc.call, t.value, w.pc.position, w.pc.call.config.alignment);
      }
    }
  }

  lemma NoTargetYet(run: nat -> Event)
    ensures TargetAligned(run, 0, At(run, 0).relay.target)
  {
  }

  /**
   * The target that the staged hold is aligned with, and every target of an ARMING relay, is within the
   * alignment bound of the feedback that admitted it, never just within the step bound.
   */
  lemma {:induction false} RelayTargetIsAligned(run: nat -> Event, n: nat)
    ensures TargetAligned(run, n, At(run, n).relay.target)
  {
    hide *;
    if n == 0 {
      NoTargetYet(run);
    } else {
      AtNext(run, n - 1);
      RelayTargetIsAligned(run, n - 1);
      CarriedIsAdmitted(run, n - 1);
      TargetStep(run, n - 1, At(run, n - 1), run(n - 1));
    }
  }

  /**
   * Every published joint target lies inside the client's limits and within its feedback-relative
   * bound of the very feedback sample that admitted it, taken fresh while no fault was latched. The
   * bound is the alignment one unless its own call read the relay as neither ARMING nor due to be armed.
   */
  lemma PublishedIsAdmitted(run: nat -> Event, n: nat)
    requires OutputAt(run, n).JointTarget?
    ensures var pc, out := At(run, n).pc, OutputAt(run, n);
            && pc.PublishJoint? && out.target == pc.target
            && AdmittedTarget(pc.call, out.target, out.feedback, out.bound)
            && WasAdmitted(run, n, pc.call, out.feedback)
            && BoundWasRead(run, n, pc.call, out.target, out.feedback, out.bound)
  {
    CarriedIsAdmitted(run, n);
    BoundIsJustified(run, n);
    OnlyPublishEmits(At(run, n), run(n));
  }

  lemma OnlyPublishEmits(w: World, e: Event)
    requires HasPacket(w.pc) && Step(w, e).1.JointTarget?
    ensures w.pc.PublishJoint? && Step(w, e).1 == JointTarget(w.pc.target, w.pc.position, w.pc.bound)
  {
  }

  ghost predicate GripperAfterAlignment(run: nat -> Event, n: nat, pc: Pc) {
    pc.PublishGripper? ==> WasAligned(run, n)
  }

  lemma GripperPcStep(w: World, e: Event)
    requires HasPacket(w.pc) && Step(w, e).0.pc.PublishGripper?
    ensures !w.pc.Idle?
    ensures w.pc.PublishGripper? || w.relay.state.Active?
  {
  }

  lemma GripperStep(run: nat -> Event, n: nat, w: World, e: Event)
    requires w == At(run, n) && e == run(n)
    requires GripperAfterAlignment(run, n, w.pc) && Motivated(run, n, w.relay.state)
    ensures GripperAfterAlignment(run, n + 1, Step(w, e).0.pc)
  {
    if Step(w, e).0.pc.PublishGripper? {
      GripperPcStep(w, e);
      HistoryExtends(run, n);
    }
  }

  lemma NoCallYet(run: nat -> Event)
    ensures GripperAfterAlignment(run, 0, At(run, 0).pc)
  {
  }

  lemma {:induction false} GripperIsAligned(run: nat -> Event, n: nat)
    ensures GripperAfterAlignment(run, n, At(run, n).pc)
  {
    hide *;
    if n == 0 {
      NoCallYet(run);
    } else {
      AtNext(run, n - 1);
      GripperIsAligned(run, n - 1);
      MotionHistory(run, n - 1);
      GripperStep(run, n - 1, At(run, n - 1), run(n - 1));
    }
  }

  /** In section `m` the call found the relay ACTIVE, and has since only waited to publish the stroke. */
  ghost predicate StrokeReadAt(run: nat -> Event, m: nat, n: nat, call: Call, mm: real) {
    && m < n && run(m).Main? && At(run, m).pc.ReadGripper? && At(run, m).pc.call == call
    && mm == StrokeMm(At(run, m).pc.stroke, call.config) && At(run, m).relay.state.Active?
    && forall j: nat | m < j <= n :: At(run, j).pc == PublishGripper(call, mm)
  }

  ghost predicate StrokeWasRead(run: nat -> Event, n: nat, pc: Pc) {
    pc.PublishGripper? ==> exists m: nat :: StrokeReadAt(run, m, n, pc.call, pc.mm)
  }

  lemma StrokeMoves(w: World, e: Event)
    requires HasPacket(w.pc) && Step(w, e).0.pc.PublishGripper?
    ensures var pc := Step(w, e).0.pc;
            pc == w.pc || (e.Main? && w.pc.ReadGripper? && w.pc.call == pc.call
                           && pc.mm == StrokeMm(w.pc.stroke, pc.call.config) && w.relay.state.Active?)
  {
    if !e.Main? {
      CallbacksKeepPc(w, e);
    }
  }

  lemma {:induction false} StrokeIsRead(run: nat -> Event, n: nat)
    ensures StrokeWasRead(run, n, At(run, n).pc)
  {
    if n > 0 {
      StrokeIsRead(run, n - 1);
      AtNext(run, n - 1);
      var before, pc := At(run, n - 1).pc, At(run, n).pc;
      if pc.PublishGripper? {
        StrokeMoves(At(run, n - 1), run(n - 1));
        hide At, Step;
        if pc == before {
          var m: nat :| StrokeReadAt(run, m, n - 1, pc.call, pc.mm);
          assert StrokeReadAt(run, m, n, pc.call, pc.mm);
        } else {
          assert StrokeReadAt(run, n - 1, n, pc.call, pc.mm);
        }
      }
    }
  }

  /**
   * The gripper, which bypasses the staged hold, moves only after the arm has aligned, and after the
   * same call has found the relay ACTIVE.
   */
  lemma GripperNeedsAlignment(run: nat -> Event, n: nat)
    requires OutputAt(run, n).GripperStroke?
    ensures WasAligned(run, n)
    ensures exists m: nat :: StrokeReadAt(run, m, n, At(run, n).pc.call, OutputAt(run, n).mm)
  {
    GripperIsAligned(run, n);
    StrokeIsRead(run, n);
    OnlyGripperEmits(At(run, n), run(n));
  }

  lemma OnlyGripperEmits(w: World, e: Event)
    requires HasPacket(w.pc) && Step(w, e).1.GripperStroke?
    ensures w.pc.PublishGripper? && Step(w, e).1 == GripperStroke(w.pc.mm)
  {
  }

  // ------------------------------------------------------------------ faults

  lemma StepKeepsFault(w: World, e: Event)
    requires HasPacket(w.pc) && w.relay.fault.Some? && !(e.Configure? && w.pc.Idle?)
    ensures Step(w, e).0.relay.fault == w.relay.fault
  {
    if e.Main? {
      MainMoves(w, e.at);
    }
  }

  /** A latched fault stays, unchanged, until the next `configure`. */
  lemma {:induction false} FaultSticks(run: nat -> Event, i: nat, n: nat)
    requires i <= n && NoConfigure(run, i, n)
    requires At(run, i).relay.fault.Some?
    ensures At(run, n).relay.fault == At(run, i).relay.fault
  {
    if i < n {
      assert !ConfiguresAt(run, n - 1);
      AtNext(run, n - 1);
      hide At, Step;
      FaultSticks(run, i, n - 1);
      StepKeepsFault(At(run, n - 1), run(n - 1));
    }
  }

  /** A fault is latched in section `j`. */
  ghost predicate LatchesAt(run: nat -> Event, j: nat) {
    At(run, j).relay.fault.None? && At(run, j + 1).relay.fault.Some?
  }

  ghost predicate LatchedBetween(run: nat -> Event, m: nat, n: nat) {
    exists j: nat | m <= j < n :: LatchesAt(run, j)
  }

  lemma LatchedOneMore(run: nat -> Event, m: nat, n: nat)
    requires m <= n
    ensures LatchedBetween(run, m, n + 1) <==> LatchedBetween(run, m, n) || LatchesAt(run, n)
  {
    hide LatchesAt;
  }

  lemma {:induction false} FaultCameBetween(run: nat -> Event, m: nat, n: nat)
    requires m <= n && NoConfigure(run, m, n)
    ensures At(run, n).relay.fault.Some? <==> At(run, m).relay.fault.Some? || LatchedBetween(run, m, n)
    decreases n
  {
    hide At, Step, ConfiguresAt;
    if m < n {
      hide LatchedBetween;
      FaultCameBetween(run, m, n - 1);
      FaultKept(run, n - 1);
      LatchedOneMore(run, m, n - 1);
    }
  }

  lemma FaultKept(run: nat -> Event, n: nat)
    requires !ConfiguresAt(run, n)
    ensures At(run, n).relay.fault.Some? ==> At(run, n + 1).relay.fault.Some?
  {
    AtNext(run, n);
    if At(run, n).relay.fault.Some? {
      StepKeepsFault(At(run, n), run(n));
    }
  }

  /** No `configure` comes between the gripper's check of the relay and its stroke. */
  lemma NoConfigureInStroke(run: nat -> Event, m: nat, n: nat, call: Call, mm: real)
    requires StrokeReadAt(run, m, n, call, mm)
    ensures NoConfigure(run, m, n)
  {
  }

  /**
   * A stroke that passed its check in section `m` is published under a latched fault exactly when the
   * fault was already latched at the check (which needs an unguarded arming write), or is latched
   * between the check and the publication, which nothing looks at any more.
   */
  lemma StrokeUnderFaultIff(run: nat -> Event, m: nat, n: nat, call: Call)
    requires OutputAt(run, n).GripperStroke? && StrokeReadAt(run, m, n, call, OutputAt(run, n).mm)
    ensures At(run, n).relay.fault.Some? <==>
            At(run, m).relay.fault.Some? || LatchedBetween(run, m, n)
  {
    NoConfigureInStroke(run, m, n, call, OutputAt(run, n).mm);
    FaultCameBetween(run, m, n);
  }

  /** Every `state` or `apply` whose snapshot follows the latch raises. */
  lemma CallsRaiseAfterLatch(run: nat -> Event, i: nat, n: nat)
    requires i <= n && NoConfigure(run, i, n)
    requires At(run, i).relay.fault.Some?
    requires At(run, n).pc.Snapshot? && run(n).Main?
    ensures OutputAt(run, n).Raised? && At(run, n + 1).pc.Idle?
    ensures OutputAt(run, n).why in {Incomplete, Latched(At(run, i).relay.fault.value)}
  {
    FaultSticks(run, i, n);
  }

  /** The relay state agrees with the fault field: FAULT exactly while a fault is latched. */
  ghost predicate Consistent(r: Relay) {
    r.fault.Some? <==> r.state.Faulted?
  }

  /** No arming write in sections `from..to` overwrote a latched fault. */
  ghost predicate Guarded(run: nat -> Event, from: nat, to: nat) {
    forall m: nat | from <= m < to :: ArmsAt(run, m) ==> At(run, m).relay.fault.None?
  }

  ghost predicate AlwaysConsistent(run: nat -> Event, from: nat, to: nat) {
    forall m: nat | from <= m <= to :: Consistent(At(run, m).relay)
  }

  /** The run, or its last `configure`, starts afresh here. */
  ghost predicate Fresh(run: nat -> Event, s: nat) {
    s == 0 || ConfiguresAt(run, s - 1)
  }

  lemma FreshIsConsistent(run: nat -> Event, s: nat)
    requires Fresh(run, s)
    ensures Consistent(At(run, s).relay) && AlwaysConsistent(run, s, s) && Guarded(run, s, s)
  {
    if s > 0 {
      AtNext(run, s - 1);
    }
  }

  lemma StepKeepsConsistent(w: World, e: Event)
    requires HasPacket(w.pc) && Consistent(w.relay)
    ensures Consistent(Step(w, e).0.relay) <==> !Overwrites(w, e)
  {
  }

  lemma ConsistentOneMore(run: nat -> Event, s: nat, n: nat)
    requires s <= n
    ensures AlwaysConsistent(run, s, n + 1) <==> AlwaysConsistent(run, s, n) && Consistent(At(run, n + 1).relay)
    ensures AlwaysConsistent(run, s, n) ==> Consistent(At(run, n).relay)
  {
    hide At, Consistent;
  }

  lemma GuardedOneMore(run: nat -> Event, s: nat, n: nat)
    requires s <= n
    ensures Guarded(run, s, n + 1) <==> Guarded(run, s, n) && !Overwrites(At(run, n), run(n))
  {
    hide At;
  }

  /** An arming write is about to overwrite a latched fault. */
  ghost predicate Overwrites(w: World, e: Event) {
    w.pc.Arm? && e.Main? && w.relay.fault.Some?
  }

  /**
   * From a fresh start on, state and fault field agree exactly as long as each arming write of line 504
   * finds no latched fault. The code does not check this itself.
   */
  lemma {:induction false} ConsistentIffGuarded(run: nat -> Event, s: nat, n: nat)
    requires s <= n && Fresh(run, s)
    ensures AlwaysConsistent(run, s, n) <==> Guarded(run, s, n)
    decreases n
  {
    hide *;
    if n == s {
      FreshIsConsistent(run, s);
    } else {
      ConsistentIffGuarded(run, s, n - 1);
      ConsistentOneMore(run, s, n - 1);
      GuardedOneMore(run, s, n - 1);
      AtNext(run, n - 1);
      if Consistent(At(run, n - 1).relay) {
        StepKeepsConsistent(At(run, n - 1), run(n - 1));
      }
    }
  }

  /** If no arming write since the start or the last `configure` met a latched fault, nothing is forwarded under one. */
  lemma NothingForwardedAfterLatch(run: nat -> Event, s: nat, i: nat, n: nat)
    requires s <= i <= n && NoConfigure(run, i, n) && Fresh(run, s) && Guarded(run, s, n)
    requires At(run, i).relay.fault.Some?
    ensures !OutputAt(run, n).Forward?
  {
    FaultSticks(run, i, n);
    ConsistentIffGuarded(run, s, n);
    assert Consistent(At(run, n).relay);
    OnlyUnfaultedForwards(At(run, n), run(n));
  }

  lemma OnlyUnfaultedForwards(w: World, e: Event)
    requires HasPacket(w.pc)
    ensures Step(w, e).1.Forward? ==> !w.relay.state.Faulted?
  {
  }

  // ------------------------------------------------------------------ handlers atomic

  /** Up to `n`, nothing ran between two sections of one call. */
  ghost predicate Uninterrupted(run: nat -> Event, n: nat) {
    forall m: nat | m < n :: !InterruptsAt(run, m)
  }

  ghost predicate InterruptsAt(run: nat -> Event, m: nat) {
    !At(run, m).pc.Idle? && !run(m).Main?
  }

  /** A call past its snapshot, when nothing interferes, runs without a latched fault. */
  ghost predicate CallSeesNoFault(w: World) {
    w.pc.Idle? || w.pc.Snapshot? || w.relay.fault.None?
  }

  lemma UninterruptedStep(w: World, e: Event)
    requires HasPacket(w.pc) && CallSeesNoFault(w) && (w.pc.Idle? || e.Main?)
    ensures CallSeesNoFault(Step(w, e).0)
  {
    if e.Main? {
      MainMoves(w, e.at);
    }
  }

  lemma UninterruptedPrefix(run: nat -> Event, n: nat)
    requires Uninterrupted(run, n + 1)
    ensures Uninterrupted(run, n) && (At(run, n).pc.Idle? || run(n).Main?)
  {
    assert !InterruptsAt(run, n);
  }

  lemma StartSeesNoFault(run: nat -> Event)
    ensures CallSeesNoFault(At(run, 0))
  {
  }

  lemma {:induction false} UninterruptedCallSeesNoFault(run: nat -> Event, n: nat)
    requires Uninterrupted(run, n)
    ensures CallSeesNoFault(At(run, n))
  {
    if n > 0 {
      hide *;
      UninterruptedPrefix(run, n - 1);
      AtNext(run, n - 1);
      UninterruptedCallSeesNoFault(run, n - 1);
      UninterruptedStep(At(run, n - 1), run(n - 1));
    } else {
      StartSeesNoFault(run);
    }
  }

  /** With handlers atomic, every run is guarded, so a latched fault stops all forwarding. */
  lemma AtomicHandlersStopForwarding(run: nat -> Event, i: nat, n: nat)
    requires i <= n && NoConfigure(run, i, n) && Uninterrupted(run, n)
    requires At(run, i).relay.fault.Some?
    ensures !OutputAt(run, n).Forward?
  {
    forall m: nat | m < n && ArmsAt(run, m) ensures At(run, m).relay.fault.None? {
      UninterruptedCallSeesNoFault(run, m);
    }
    NothingForwardedAfterLatch(run, 0, i, n);
  }

  /** With handlers atomic no stroke and no joint target is published under a latched fault. */
  lemma AtomicHandlersPublishUnfaulted(run: nat -> Event, n: nat)
    requires Uninterrupted(run, n) && (OutputAt(run, n).GripperStroke? || OutputAt(run, n).JointTarget?)
    ensures At(run, n).relay.fault.None?
  {
    UninterruptedCallSeesNoFault(run, n);
    if OutputAt(run, n).GripperStroke? {
      OnlyGripperEmits(At(run, n), run(n));
    } else {
      OnlyPublishEmits(At(run, n), run(n));
    }
  }

  // ------------------------------------------------------------------ the unguarded write

  function Repeat(x: Num): seq<Num> {
    [x, x, x, x, x, x]
  }

  /** A hold at `p`: what the tracker stages once it has reached the target. */
  function Hold(p: Pose): TrackerCommand
    ensures Decode(Hold(p)) == Ok(p)
  {
    var zero := Repeat(Finite(0.0));
    var m := TrackerCommand(seq(JOINTS, i requires 0 <= i < JOINTS => Finite(p[i])), zero, zero, zero, zero, Mode(0));
    assert Forwardable(m, p);
    DecodeIff(m, p);
    m
  }

  const IDLE_STATUS: seq<int> := [0, 0, 0, 0, 0, 0, 0]
  const IDLE_WORDS: seq<bv32> := [0, 0, 0, 0, 0, 0, 0]

  function RunEvents(w: World, es: seq<Event>): (w': World)
    requires HasPacket(w.pc)
    ensures HasPacket(w'.pc)
    decreases |es|
  {
    if es == [] then w else RunEvents(Step(w, es[0]).0, es[1..])
  }

  lemma IdleStatusIsClean(c: Config)
    ensures StatusWords(IDLE_STATUS) && Words(IDLE_STATUS) == IDLE_WORDS && StatusClean(IDLE_WORDS, c)
  {
    forall i: nat | i < |IDLE_WORDS| && i <= GRIPPER_STATUS_INDEX ensures ActuatorClean(IDLE_WORDS[i], i, c) {
      var allowed := AllowedBits(i, c);
      assert 0 & !allowed == 0;
    }
  }

  /**
   * From any world in which an unguarded arming write is due, ordinary feedback and one staged
   * hold make the relay forward a command although its fault is still latched.
   */
  lemma UnguardedArmForwards(w: World, c: Config, now: real)
    requires w.pc.Arm? && HasPacket(w.pc) && w.relay.fault.Some? && w.relay.config == Some(c)
    requires c.alignment >= 0.0 && c.stateTimeout >= 0.0 && c.statusTimeout >= 0.0
    requires c.feedbackTolerance >= 0.0 && c.jointMin == LOWER && c.jointMax == UPPER
    requires Within(w.pc.target, LOWER, UPPER, 0.0)
    ensures var p := w.pc.target;
            var v := RunEvents(w, [Main(now), JointFeedback(p, now), StatusFeedback(IDLE_STATUS, now)]);
            && v.relay.fault == w.relay.fault
            && Step(v, Staged(Hold(p), now)).1 == Forward(p)
            && Step(v, Staged(Hold(p), now)).0.relay.fault == w.relay.fault
  {
    var p := w.pc.target;
    IdleStatusIsClean(c);
    var es := [Main(now), JointFeedback(p, now), StatusFeedback(IDLE_STATUS, now)];
    var w1 := Step(w, es[0]).0;
    var w2 := Step(w1, es[1]).0;
    var w3 := Step(w2, es[2]).0;
    assert es[1..] == [es[1], es[2]] && es[1..][1..] == [es[2]] && es[1..][1..][1..] == [];
    assert RunEvents(w, es) == RunEvents(w1, es[1..]) == RunEvents(w2, es[1..][1..]) == w3;
    assert AlignedSample(w3.relay, p);
  }

  lemma {:induction false} RunConcat(w: World, a: seq<Event>, b: seq<Event>)
    requires HasPacket(w.pc)
    ensures RunEvents(w, a + b) == RunEvents(RunEvents(w, a), b)
    decreases |a|
  {
    if a == [] {
      assert a + b == b;
    } else {
      assert (a + b)[1..] == a[1..] + b;
      RunConcat(Step(w, a[0]).0, a[1..], b);
    }
  }

  const HOME: Pose := [0.0, 0.0, 0.0, 0.0, 0.0, 0.0]
  const CONTRACT: Config :=
    Config(0.05, 0.08, 0.5, 0.5, 1.0, 0.01, 5.0, 0, 0, 0.0, 104.0, LOWER, UPPER)
  const HOLD_HOME: Call := Call(Some(Packet(Some(Repeat(Finite(0.0))), None)), CONTRACT, true)
  const GARBLED: TrackerCommand := TrackerCommand([], [], [], [], [], NotAnInteger)

  const SETUP: seq<Event> := [Configure(CONTRACT), JointFeedback(HOME, 0.0), GripperFeedback(0.0, 0.0),
      StatusFeedback(IDLE_STATUS, 0.0)]
  /** `apply` has passed its `state` call and its bound check when a garbled command latches a fault. */
  const RACE: seq<Event> := [Begin(HOLD_HOME), Main(0.0), Main(0.0), Staged(GARBLED, 0.0)]

  /** The unguarded write is reachable from start-up: in this run a command is forwarded under a latched fault. */
  lemma FaultedForwardIsReachable()
    ensures var es := SETUP + RACE + [Main(0.0), JointFeedback(HOME, 0.0), StatusFeedback(IDLE_STATUS, 0.0)];
            var w := RunEvents(World(INITIAL, Idle), es);
            && w.relay.fault == Some(BadCommand(WrongLength))
            && Step(w, Staged(Hold(HOME), 0.0)).1 == Forward(HOME)
  {
    var start := World(INITIAL, Idle);
    var after := [Main(0.0), JointFeedback(HOME, 0.0), StatusFeedback(IDLE_STATUS, 0.0)];
    SetupReaches();
    var w := RunEvents(start, SETUP);
    RaceReaches(w);
    RunConcat(start, SETUP, RACE);
    RunConcat(start, SETUP + RACE, after);
    UnguardedArmForwards(RunEvents(w, RACE), CONTRACT, 0.0);
  }

  ghost predicate Ready(w: World) {
    && w.pc.Idle? && w.relay.config == Some(CONTRACT) && w.relay.fault.None? && w.relay.state.Locked?
    && w.relay.joint == Some(HOME) && w.relay.gripper == Some(0.0) && w.relay.status == Some(IDLE_WORDS)
    && w.relay.jointAt == w.relay.gripperAt == w.relay.statusAt == 0.0 && w.relay.publishedGripper.None?
  }

  lemma RunOne(w: World, a: Event, rest: seq<Event>)
    requires HasPacket(w.pc)
    ensures RunEvents(w, [a] + rest) == RunEvents(Step(w, a).0, rest)
  {
    assert ([a] + rest)[1..] == rest;
  }

  lemma RunFour(w: World, a: Event, b: Event, c: Event, d: Event)
    requires HasPacket(w.pc)
    ensures var w1 := Step(w, a).0;
            var w2 := Step(w1, b).0;
            var w3 := Step(w2, c).0;
            RunEvents(w, [a, b, c, d]) == Step(w3, d).0
  {
    hide Step;
    var w1 := Step(w, a).0;
    var w2 := Step(w1, b).0;
    var w3 := Step(w2, c).0;
    assert [a, b, c, d] == [a] + [b, c, d] && [b, c, d] == [b] + [c, d] && [c, d] == [c] + [d] && [d] == [d] + [];
    RunOne(w, a, [b, c, d]);
    RunOne(w1, b, [c, d]);
    RunOne(w2, c, [d]);
    RunOne(w3, d, []);
  }

  lemma SetupReaches()
    ensures Ready(RunEvents(World(INITIAL, Idle), SETUP))
  {
    IdleStatusIsClean(CONTRACT);
    RunFour(World(INITIAL, Idle), SETUP[0], SETUP[1], SETUP[2], SETUP[3]);
  }

  lemma RaceReaches(w: World)
    requires Ready(w) && HasPacket(w.pc)
    ensures var v := RunEvents(w, RACE);
            && v.pc == Arm(HOLD_HOME, HOME, HOME) && v.relay.config == Some(CONTRACT)
            && v.relay.fault == Some(BadCommand(WrongLength))
  {
    RunFour(w, RACE[0], RACE[1], RACE[2], RACE[3]);
    var w1 := Step(w, RACE[0]).0;
    assert w1 == World(w.relay, Snapshot(HOLD_HOME));
    SnapshotAdmitsHome(w.relay);
    var w2 := Step(w1, RACE[1]).0;
    assert w2 == World(w.relay, ReadState(HOLD_HOME, HOME, HOME));
    assert Abs(0.0) <= CONTRACT.alignment;
    assert Near(HOME, HOME, CONTRACT.alignment);
    var w3 := Step(w2, RACE[2]).0;
    assert w3 == World(w.relay, Arm(HOLD_HOME, HOME, HOME));
    assert Decode(GARBLED) == Err(WrongLength);
  }

  lemma SnapshotAdmitsHome(r: Relay)
    requires Ready(World(r, Idle))
    ensures SnapshotStep(r, HOLD_HOME, 0.0) == (ReadState(HOLD_HOME, HOME, HOME), Silent)
  {
    IdleStatusIsClean(CONTRACT);
    assert StateResult(r, CONTRACT, 0.0) == Ok(ReplyOf(r, CONTRACT));
    assert Values(Repeat(Finite(0.0))).value == HOME;
  }

  // ------------------------------------------------------------------ a stroke under a latched fault

  const GRIP: Call := Call(Some(Packet(Some(Repeat(Finite(0.0))), Some(Finite(1.0)))), CONTRACT, true)

  /** One action arms the relay and, once a staged hold has made it ACTIVE, passes the gripper's check. */
  const ARMING: seq<Event> := [Begin(GRIP), Main(0.0), Main(0.0), Main(0.0)]
  const ACTIVATING: seq<Event> := [Main(0.0), Staged(Hold(HOME), 0.0), Main(0.0), Main(0.0)]

  /**
   * A garbled command that comes just after the check does not stop the stroke: the fault is latched, and
   * it is published.
   */
  lemma FaultedStrokeIsReachable()
    ensures var w := RunEvents(World(INITIAL, Idle), SETUP + ARMING + ACTIVATING + [Staged(GARBLED, 0.0)]);
            w.relay.fault == Some(BadCommand(WrongLength)) && Step(w, Main(0.0)).1 == GripperStroke(104.0)
  {
    var start := World(INITIAL, Idle);
    SetupReaches();
    ArmingReaches(RunEvents(start, SETUP));
    ActivatingReaches(RunEvents(RunEvents(start, SETUP), ARMING));
    hide *;
    RunConcat(start, SETUP, ARMING);
    RunConcat(start, SETUP + ARMING, ACTIVATING);
    RunConcat(start, SETUP + ARMING + ACTIVATING, [Staged(GARBLED, 0.0)]);
    GarbledStroke(RunEvents(start, SETUP + ARMING + ACTIVATING));
  }

  lemma GarbledStroke(v: World)
    requires v.pc == PublishGripper(GRIP, 104.0) && v.relay.fault.None? && v.relay.publishedGripper.None?
    ensures var w := RunEvents(v, [Staged(GARBLED, 0.0)]);
            w.relay.fault == Some(BadCommand(WrongLength)) && Step(w, Main(0.0)).1 == GripperStroke(104.0)
  {
    assert [Staged(GARBLED, 0.0)] == [Staged(GARBLED, 0.0)] + [];
    RunOne(v, Staged(GARBLED, 0.0), []);
    assert Decode(GARBLED) == Err(WrongLength);
  }

  /** The relay is ARMING with the home target, and the call is about to publish it. */
  ghost predicate Armed(w: World) {
    && w.pc == PublishJoint(GRIP, HOME, HOME, CONTRACT.alignment)
    && w.relay.config == Some(CONTRACT) && w.relay.fault.None? && w.relay.state.Arming? && w.relay.target == Some(HOME)
    && w.relay.joint == Some(HOME) && w.relay.status == Some(IDLE_WORDS) && w.relay.publishedGripper.None?
    && w.relay.jointAt == w.relay.statusAt == 0.0
  }

  lemma GripSnapshot(r: Relay)
    requires Ready(World(r, Idle))
    ensures SnapshotStep(r, GRIP, 0.0) == (ReadState(GRIP, HOME, HOME), Silent)
  {
    IdleStatusIsClean(CONTRACT);
    assert StateResult(r, CONTRACT, 0.0) == Ok(ReplyOf(r, CONTRACT));
    assert Values(Repeat(Finite(0.0))).value == HOME;
  }

  lemma ArmingReaches(w: World)
    requires Ready(w) && HasPacket(w.pc)
    ensures Armed(RunEvents(w, ARMING))
  {
    RunFour(w, ARMING[0], ARMING[1], ARMING[2], ARMING[3]);
    var w1 := Step(w, ARMING[0]).0;
    GripSnapshot(w.relay);
    var w2 := Step(w1, ARMING[1]).0;
    assert w2 == World(w.relay, ReadState(GRIP, HOME, HOME));
    assert Abs(0.0) <= CONTRACT.alignment;
    assert Near(HOME, HOME, CONTRACT.alignment);
    var w3 := Step(w2, ARMING[2]).0;
    assert w3 == World(w.relay, Arm(GRIP, HOME, HOME));
  }

  lemma ActivatingReaches(w: World)
    requires Armed(w)
    ensures var v := RunEvents(w, ACTIVATING);
            v.pc == PublishGripper(GRIP, 104.0) && v.relay.fault.None? && v.relay.publishedGripper.None?
  {
    RunFour(w, ACTIVATING[0], ACTIVATING[1], ACTIVATING[2], ACTIVATING[3]);
    var w1 := Step(w, ACTIVATING[0]).0;
    assert w1.pc == CheckGripper(GRIP);
    HoldActivates(w1);
    var w2 := Step(w1, ACTIVATING[1]).0;
    var w3 := Step(w2, ACTIVATING[2]).0;
    assert w3 == World(w2.relay, ReadGripper(GRIP, 1.0));
  }

  lemma HoldActivates(w: World)
    requires w.pc == CheckGripper(GRIP)
    requires w.relay.config == Some(CONTRACT) && w.relay.state.Arming? && w.relay.target == Some(HOME)
    requires w.relay.joint == Some(HOME) && w.relay.status == Some(IDLE_WORDS)
    requires w.relay.jointAt == w.relay.statusAt == 0.0
    ensures var v := Step(w, Staged(Hold(HOME), 0.0)).0;
            v.pc == w.pc && v.relay.state.Active? && v.relay.fault == w.relay.fault
            && v.relay.publishedGripper == w.relay.publishedGripper
  {
    IdleStatusIsClean(CONTRACT);
    assert AlignedSample(w.relay, HOME);
  }
}
