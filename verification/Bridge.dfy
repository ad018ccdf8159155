/** `Bridge`: the relay as an object whose callbacks and calls update its fields. */
module BridgeObject {
  import opened Basics
  import opened Relay
  import opened RelaySafety
  import opened History

  class Bridge {
    var joint: Option<Pose>
    var jointAt: real
    var gripper: Option<real>
    var gripperAt: real
    var status: Option<seq<bv32>>
    var statusAt: real
    var config: Option<Config>
    var state: RelayState
    var fault: Option<Fault>
    var target: Option<Pose>
    var deadline: real
    var publishedTarget: Option<Pose>
    var publishedGripper: Option<real>
    var staged: Option<Pose>
    var forwarded: Option<Pose>
    var accepted: nat
    /** What was published on the three command topics, in order. */
    var sent: seq<Output>
    /** Where the calling thread is, and every section so far. */
    ghost var pc: Pc
    ghost var history: seq<Done>

    ghost function View(): Relay
      reads this
    {
      Relay(joint, jointAt, gripper, gripperAt, status, statusAt, config, state, fault, target, deadline,
            publishedTarget, publishedGripper, staged, forwarded, accepted)
    }

    /**
     * The history is a faithful run of the lock-section machine from start-up, and leads to the present; what
     * was published is what it put out.
     */
    ghost predicate Valid()
      reads this
    {
      Faithful(history) && WorldAfter(history) == World(View(), pc) && sent == Sent(history)
    }

    ghost function LastOut(): Output
      requires history != []
      reads this
    {
      history[|history| - 1].out
    }

    constructor ()
      ensures Valid() && history == [] && pc == Idle && View() == INITIAL
    {
      joint, jointAt, gripper, gripperAt, status, statusAt := None, 0.0, None, 0.0, None, 0.0;
      config, state, fault, target, deadline := None, Locked, None, None, 0.0;
      publishedTarget, publishedGripper, staged, forwarded, accepted := None, None, None, None, 0;
      pc, history, sent := Idle, [], [];
    }

    /** The section `e` has just been gone through, from the world `w`. */
    ghost method Record(e: Event, w: World)
      requires Faithful(history) && WorldAfter(history) == w && View() == Step(w, e).0.relay
      requires sent == Sent(history) + Emission(Step(w, e).1)
      modifies this`pc, this`history
      ensures Valid() && pc == Step(w, e).0.pc && history == old(history) + [Done(e, Step(w, e).1)]
    {
      var d := Done(e, Step(w, e).1);
      Append(history, d);
      SentNext(history, d);
      pc, history := Step(w, e).0.pc, history + [d];
    }

    method Install(c: Config)
      modifies this`config, this`state, this`fault, this`target, this`deadline,
               this`publishedTarget, this`publishedGripper, this`staged, this`forwarded, this`accepted
      ensures View() == Configured(old(View()), c)
    {
      config, state, fault, target, deadline := Some(c), Locked, None, None, 0.0;
      ForgetOutputs();
    }

    /** Nothing published, staged, forwarded or accepted yet. */
    method ForgetOutputs()
      modifies this`publishedTarget, this`publishedGripper, this`staged, this`forwarded, this`accepted
      ensures publishedTarget == None && publishedGripper == None && staged == None && forwarded == None
              && accepted == 0
    {
      publishedTarget, publishedGripper, staged, forwarded, accepted := None, None, None, None, 0;
    }

    method OnJoint(position: Pose, at: real)
      modifies this`joint, this`jointAt
      ensures joint == Some(position) && jointAt == at
    {
      joint, jointAt := Some(position), at;
    }

    method OnGripper(mm: real, at: real)
      modifies this`gripper, this`gripperAt
      ensures gripper == Some(mm) && gripperAt == at
    {
      gripper, gripperAt := Some(mm), at;
    }

    method OnMotorStatus(codes: seq<int>, at: real)
      modifies this`status, this`statusAt
      ensures View() == OnStatus(old(View()), codes, at)
    {
      if |codes| < 7 {
        return;
      }
      if exists code <- codes :: code < 0 || code > MAX_STATUS_MASK {
        return;
      }
      status, statusAt := Some(Words(codes)), at;
    }

    method LatchFault(f: Fault)
      modifies this`fault, this`state
      ensures View() == Latch(old(View()), f)
    {
      if fault.None? {
        fault, state := Some(f), Faulted;
      }
    }

    /** `_on_staged`: `output` is the message to publish to the driver, if any. */
    method OnStagedCommand(m: TrackerCommand, now: real) returns (output: Option<TrackerCommand>)
      modifies this`staged, this`state, this`fault, this`forwarded
      ensures View() == OnStaged(old(View()), m, now).0
      ensures output == if OnStaged(old(View()), m, now).1 then Some(m) else None
    {
      output := None;
      match Decode(m)
      case Err(why) =>
        LatchFault(BadCommand(why));
      case Ok(position) =>
        output := OnPosition(m, position, now);
    }

    method OnPosition(m: TrackerCommand, position: Pose, now: real) returns (output: Option<TrackerCommand>)
      modifies this`staged, this`state, this`fault, this`forwarded
      ensures View() == OnDecoded(old(View()), position, now).0
      ensures output == if OnDecoded(old(View()), position, now).1 then Some(m) else None
    {
      output := None;
      staged := Some(position);
      if !Within(position, LOWER, UPPER, 0.0) {
        var tolerance := if config.Some? then config.value.feedbackTolerance else 0.0;
        if state.Arming? && Within(position, LOWER, UPPER, tolerance) {
          return;
        }
        LatchFault(CommandOutside(FirstOutside(position, LOWER, UPPER, 0.0)));
        return;
      }
      if config.Some? && target.Some? && joint.Some? && status.Some?
         && now - jointAt <= config.value.stateTimeout && now - statusAt <= config.value.statusTimeout {
        var c, current := config.value, joint.value;
        var bad := StatusFault(status.value, c);
        if bad.Some? {
          LatchFault(ActuatorError(bad.value));
          return;
        }
        if !Within(current, c.jointMin, c.jointMax, c.feedbackTolerance) {
          LatchFault(FeedbackOutside(FirstOutside(current, c.jointMin, c.jointMax, c.feedbackTolerance)));
          return;
        }
        if state.Arming? && Near(position, target.value, c.alignment) && Near(position, current, c.alignment) {
          state := Active;
        }
        if state.Active? {
          output := Some(m);
          forwarded := Some(position);
        }
      }
    }

    // ---------------------------------------------------------------- sections

    /** One callback of the ROS threads. */
    method Callback(e: Callback)
      requires Valid()
      modifies this
      ensures Valid() && pc == old(pc) && accepted == old(accepted) && config == old(config)
              && (InMotion(View()) ==> InMotion(old(View())))
      ensures history == old(history) + [Done(e, Step(WorldAfter(old(history)), e).1)]
    {
      ghost var w := World(View(), pc);
      CallbackMoves(w, e);
      Dispatch(e);
      Record(e, w);
    }

    method Dispatch(e: Callback)
      modifies this
      ensures View() == Step(World(old(View()), Idle), e).0.relay && pc == old(pc) && history == old(history)
      ensures sent == old(sent) + Emission(Step(World(old(View()), Idle), e).1)
    {
      match e {
        case JointFeedback(p, at) => OnJoint(p, at);
        case GripperFeedback(mm, at) => OnGripper(mm, at);
        case StatusFeedback(codes, at) => OnMotorStatus(codes, at);
        case Staged(m, at) =>
          var output := OnStagedCommand(m, at);
          if output.Some? {
            sent := sent + [Forward(Decode(m).value)];
          }
      }
    }

    /** The callbacks that get the lock before the next section of the calling thread. */
    method Gap(es: seq<Callback>, ghost from: seq<Done>)
      requires Valid() && Sections(from, history)
      modifies this
      ensures Valid() && pc == old(pc) && accepted == old(accepted) && config == old(config)
              && (InMotion(View()) ==> InMotion(old(View())))
      ensures Sections(from, history)
    {
      var i := 0;
      while i < |es|
        invariant 0 <= i <= |es| && Valid() && Sections(from, history)
        invariant pc == old(pc) && accepted == old(accepted) && config == old(config)
                  && (InMotion(View()) ==> InMotion(old(View())))
      {
        hide Step, Faithful, WorldAfter, InMotion;
        Callback(es[i]);
        i := i + 1;
      }
    }

    /** A section of the calling thread has just been gone through, from the world `w`. */
    ghost method Section(at: real, w: World, from: seq<Done>)
      requires Sections(from, history)
      requires Faithful(history) && WorldAfter(history) == w && View() == Step(w, Main(at)).0.relay
      requires sent == Sent(history) + Emission(Step(w, Main(at)).1)
      modifies this`pc, this`history
      ensures Valid() && Sections(from, history) && history != []
      ensures (pc, LastOut()) == (Step(w, Main(at)).0.pc, Step(w, Main(at)).1)
    {
      hide Step, Faithful, WorldAfter;
      Record(Main(at), w);
    }

    /** `configure` */
    method Configure(c: Config)
      requires Valid() && pc.Idle?
      modifies this
      ensures Valid() && pc.Idle? && View() == Configured(old(View()), c)
      ensures history == old(history) + [Done(Event.Configure(c), Silent)]
    {
      ghost var w := World(View(), pc);
      Install(c);
      Record(Event.Configure(c), w);
    }

    // ---------------------------------------------------------------- calls

    /** The checks of `state` on one snapshot, in their order. */
    method Check(c: Config, now: real) returns (r: Result<Reply, Refusal>)
      ensures r == StateResult(View(), c, now)
    {
      if joint.None? || gripper.None? || status.None? {
        return Err(Incomplete);
      }
      if fault.Some? {
        return Err(Latched(fault.value));
      }
      if state.Arming? && now > deadline {
        return Err(TimedOut);
      }
      if now - jointAt > c.stateTimeout {
        return Err(StaleJoint);
      }
      if now - gripperAt > c.stateTimeout {
        return Err(StaleGripper);
      }
      if now - statusAt > c.statusTimeout {
        return Err(StaleStatus);
      }
      if !Within(joint.value, c.jointMin, c.jointMax, c.feedbackTolerance) {
        return Err(BadFeedback);
      }
      if StatusFault(status.value, c).Some? {
        return Err(BadStatus);
      }
      if !(c.gripperMin <= gripper.value <= c.gripperMax) {
        return Err(GripperOutside);
      }
      return Ok(Reply(joint.value, status.value, GripperNorm(gripper.value, c), state, staged, forwarded, accepted));
    }

    /** `state` inside a call: its snapshot section, and the latch of an alignment that timed out. */
    method Snapshot(call: Call, s: Schedule, ghost from: seq<Done>) returns (answer: Result<Reply, Refusal>)
      requires Valid() && pc == Pc.Snapshot(call) && Sections(from, history)
      modifies this
      ensures Valid() && Sections(from, history) && history != []
      ensures accepted == old(accepted) && config == old(config) && (InMotion(View()) ==> InMotion(old(View())))
      ensures answer.Err? ==> pc.Idle? && LastOut() == Raised(answer.error)
      ensures answer.Ok? ==> (pc, LastOut()) == Answered(call, answer.value)
    {
      hide Step, Faithful, WorldAfter, Sections, Answered, StateResult;
      Gap(s.before(0), from);
      answer := Check(call.config, s.at(0));
      ghost var w := World(View(), pc);
      SnapshotSection(w, call, s.at(0));
      Section(s.at(0), w, from);
      if answer == Err(TimedOut) {
        LatchTimeout(call, s, from);
      }
    }

    method LatchTimeout(call: Call, s: Schedule, ghost from: seq<Done>)
      requires Valid() && pc == Pc.LatchTimeout(call) && Sections(from, history)
      modifies this
      ensures Valid() && Sections(from, history) && history != [] && pc.Idle? && LastOut() == Raised(TimedOut)
      ensures accepted == old(accepted) && config == old(config) && (InMotion(View()) ==> InMotion(old(View())))
    {
      hide Faithful, WorldAfter, Sections;
      Gap(s.before(1), from);
      ghost var w := World(View(), pc);
      LatchFault(AlignmentTimedOut);
      Section(s.at(1), w, from);
    }

    /** The whole of `state`, called for a report. */
    method State(c: Config, s: Schedule) returns (answer: Result<Reply, Refusal>)
      requires Valid() && pc.Idle?
      modifies this
      ensures Valid() && pc.Idle? && OneCall(old(history), history, Call(None, c, false))
      ensures accepted == old(accepted) && config == old(config) && (InMotion(View()) ==> InMotion(old(View())))
      ensures LastOut() == match answer case Ok(reply) => Reported(reply) case Err(why) => Raised(why)
    {
      hide Faithful, WorldAfter, MainStep;
      var call := Call(None, c, false);
      Start(call);
      ghost var from := history;
      answer := Snapshot(call, s, from);
      CallIsOne(old(history), from, history, call);
    }

    /** The calling thread enters a call. */
    ghost method Start(call: Call)
      requires Valid() && pc.Idle?
      modifies this`pc, this`history
      ensures Valid() && pc == Pc.Snapshot(call) && Sections(history, history)
      ensures |history| == |old(history)| + 1 && old(history) <= history
              && history[|old(history)|] == Done(Begin(call), Silent)
    {
      hide Faithful, WorldAfter, MainStep;
      Record(Begin(call), World(View(), pc));
    }

    /** The arm half of `apply` (lines 493-531): admit, arm or retarget, and publish the joint targets. */
    method ApplyJoints(call: Call, requested: Pose, position: Pose, s: Schedule, ghost from: seq<Done>)
      returns (refused: Option<Refusal>)
      requires Valid() && call.packet.Some? && pc == ReadState(call, requested, position) && Sections(from, history)
      modifies this
      ensures Valid() && Sections(from, history) && history != [] && accepted == old(accepted) && config == old(config)
      ensures refused.None? ==> pc == CheckGripper(call)
      ensures refused.Some? ==> pc.Idle? && LastOut() == Raised(refused.value)
    {
      hide Step, Faithful, WorldAfter, Sections, Near;
      Gap(s.before(2), from);
      ghost var w := World(View(), pc);
      var seen, bound := state, StepBound(call, state);
      ReadStateSection(w, call, requested, position, s.at(2));
      Section(s.at(2), w, from);
      if !Near(requested, position, bound) {
        return Some(TooFar);
      }
      if call.first {
        StartAlignment(call, requested, position, s, from);
      } else if seen.Arming? {
        MoveAlignment(call, requested, position, s, from);
      } else if !seen.Active? {
        return Some(NotActive);
      }
      PublishTarget(call, requested, position, bound, s, from);
      return None;
    }

    method StartAlignment(call: Call, requested: Pose, position: Pose, s: Schedule, ghost from: seq<Done>)
      requires Valid() && call.packet.Some? && pc == Arm(call, requested, position) && Sections(from, history)
      modifies this
      ensures Valid() && Sections(from, history) && accepted == old(accepted) && config == old(config)
      ensures pc == PublishJoint(call, requested, position, call.config.alignment)
    {
      hide Faithful, WorldAfter, Sections;
      Gap(s.before(3), from);
      ghost var w := World(View(), pc);
      state, target, deadline := Arming, Some(requested), s.at(3) + call.config.alignmentTimeout;
      Section(s.at(3), w, from);
    }

    method MoveAlignment(call: Call, requested: Pose, position: Pose, s: Schedule, ghost from: seq<Done>)
      requires Valid() && call.packet.Some? && pc == Retarget(call, requested, position) && Sections(from, history)
      modifies this
      ensures Valid() && Sections(from, history) && accepted == old(accepted) && config == old(config)
      ensures pc == PublishJoint(call, requested, position, call.config.alignment)
    {
      hide Faithful, WorldAfter, Sections;
      Gap(s.before(3), from);
      ghost var w := World(View(), pc);
      target := Some(requested);
      Section(s.at(3), w, from);
    }

    method PublishTarget(call: Call, requested: Pose, position: Pose, bound: real, s: Schedule, ghost from: seq<Done>)
      requires Valid() && call.packet.Some? && pc == PublishJoint(call, requested, position, bound)
      requires Sections(from, history)
      modifies this
      ensures Valid() && Sections(from, history) && history != [] && accepted == old(accepted)
              && config == old(config) && pc == CheckGripper(call)
    {
      hide Faithful, WorldAfter, Sections;
      Gap(s.before(4), from);
      ghost var w := World(View(), pc);
      if publishedTarget != Some(requested) {
        publishedTarget := Some(requested);
        sent := sent + [JointTarget(requested, position, bound)];
      }
      Section(s.at(4), w, from);
    }

    /** The gripper half of `apply` (lines 532-564) and the acceptance count. */
    method ApplyGripper(call: Call, s: Schedule, ghost from: seq<Done>) returns (r: Result<bool, Refusal>)
      requires Valid() && call.packet.Some? && pc == CheckGripper(call) && Sections(from, history)
      modifies this
      ensures Valid() && pc.Idle? && Sections(from, history) && history != []
      ensures LastOut() == match r case Ok(first) => Returned(first) case Err(why) => Raised(why)
      ensures config == old(config) && accepted == old(accepted) + if r.Ok? then 1 else 0
    {
      hide Step, Faithful, WorldAfter, Sections;
      var packet := call.packet.value;
      ghost var w := World(View(), pc);
      CheckGripperSection(w, call, s.at(5));
      Section(s.at(5), w, from);
      if packet.gripper.None? {
        if packet.jointTargets.None? {
          return Err(EmptyAction);
        }
      } else {
        var g := packet.gripper.value;
        if g.Bad? || !(0.0 <= g.v <= 1.0) {
          return Err(BadGripper);
        }
        var active := MoveGripper(call, g.v, s, from);
        if !active {
          return Err(GripperNotActive);
        }
      }
      CountAction(call, s, from);
      return Ok(call.first && packet.jointTargets.None?);
    }

    method MoveGripper(call: Call, stroke: real, s: Schedule, ghost from: seq<Done>) returns (active: bool)
      requires Valid() && call.packet.Some? && pc == ReadGripper(call, stroke) && Sections(from, history)
      modifies this
      ensures Valid() && Sections(from, history) && history != [] && accepted == old(accepted) && config == old(config)
      ensures if active then pc == Count(call) else pc.Idle? && LastOut() == Raised(GripperNotActive)
    {
      hide Step, Faithful, WorldAfter, Sections;
      Gap(s.before(6), from);
      ghost var w := World(View(), pc);
      active := state.Active?;
      ReadGripperSection(w, call, stroke, s.at(6));
      Section(s.at(6), w, from);
      if active {
        PublishStroke(call, StrokeMm(stroke, call.config), s, from);
      }
    }

    method PublishStroke(call: Call, mm: real, s: Schedule, ghost from: seq<Done>)
      requires Valid() && call.packet.Some? && pc == PublishGripper(call, mm) && Sections(from, history)
      modifies this
      ensures Valid() && Sections(from, history) && history != [] && accepted == old(accepted)
              && config == old(config) && pc == Count(call)
    {
      hide Faithful, WorldAfter, Sections;
      Gap(s.before(7), from);
      ghost var w := World(View(), pc);
      if publishedGripper != Some(mm) {
        publishedGripper := Some(mm);
        sent := sent + [GripperStroke(mm)];
      }
      Section(s.at(7), w, from);
    }

    method CountAction(call: Call, s: Schedule, ghost from: seq<Done>)
      requires Valid() && call.packet.Some? && pc == Count(call) && Sections(from, history)
      modifies this
      ensures Valid() && Sections(from, history) && history != [] && accepted == old(accepted) + 1
              && config == old(config) && pc.Idle?
      ensures LastOut() == Returned(call.first && call.packet.value.jointTargets.None?)
    {
      hide Faithful, WorldAfter, Sections;
      Gap(s.before(8), from);
      ghost var w := World(View(), pc);
      accepted := accepted + 1;
      Section(s.at(8), w, from);
    }

    /**
     * `apply`, with callbacks between any of its sections: the history grows by one call of the
     * lock-section machine from its begin to its end, and the answer is the one that call puts out.
     */
    method Apply(call: Call, s: Schedule) returns (r: Result<bool, Refusal>)
      requires Valid() && pc.Idle? && call.packet.Some?
      modifies this
      ensures Valid() && pc.Idle? && OneCall(old(history), history, call)
      ensures LastOut() == match r case Ok(first) => Returned(first) case Err(why) => Raised(why)
      ensures config == old(config) && accepted == old(accepted) + if r.Ok? then 1 else 0
    {
      hide Step, Faithful, WorldAfter, Sections, TargetRefusal;
      Start(call);
      ghost var from := history;
      var answer := Snapshot(call, s, from);
      if answer.Ok? && call.packet.value.jointTargets.Some? {
        var targets := call.packet.value.jointTargets.value;
        var refusal := TargetRefusal(targets, call.config);
        if refusal.None? {
          TargetsAreSix(targets, call.config);
          refusal := ApplyJoints(call, Values(targets).value, answer.value.position, s, from);
        }
        if refusal.Some? {
          answer := Err(refusal.value);
        }
      }
      if answer.Err? {
        r := Err(answer.error);
      } else {
        r := ApplyGripper(call, s, from);
      }
      CallIsOne(old(history), from, history, call);
    }
  }

  // ------------------------------------------------------------------ what the sections do

  predicate InMotion(r: Relay) {
    r.state.Arming? || r.state.Active?
  }

  lemma CallIsOne(h: seq<Done>, from: seq<Done>, k: seq<Done>, call: Call)
    requires |from| == |h| + 1 && h <= from && from[|h|].event == Begin(call) && Sections(from, k)
    ensures OneCall(h, k, call)
  {
    assert k[..|h| + 1] == from;
  }

  lemma TargetsAreSix(targets: seq<Num>, c: Config)
    requires TargetRefusal(targets, c).None?
    ensures Values(targets).Some? && |Values(targets).value| == JOINTS
  {
  }

  lemma CallbackMoves(w: World, e: Callback)
    requires HasPacket(w.pc)
    ensures var (v, out) := Step(w, e);
            && v.relay == Step(World(w.relay, Idle), e).0.relay
            && out == Step(World(w.relay, Idle), e).1
            && v.pc == w.pc && v.relay.accepted == w.relay.accepted && v.relay.config == w.relay.config
                && (InMotion(v.relay) ==> InMotion(w.relay))
  {
    StateMoves(w, e);
  }

  /** Where a call stands, and what came out, once `state` has answered. */
  function Answered(call: Call, reply: Reply): (Pc, Output) {
    if call.packet.None? then (Idle, Reported(reply))
    else
      match call.packet.value.jointTargets
      case None => (CheckGripper(call), Silent)
      case Some(targets) =>
        match TargetRefusal(targets, call.config)
        case Some(why) => (Idle, Raised(why))
        case None => (ReadState(call, Values(targets).value, reply.position), Silent)
  }

  lemma SnapshotSection(w: World, call: Call, now: real)
    requires w.pc == Pc.Snapshot(call)
    ensures var (v, out) := Step(w, Main(now));
            && v.relay == w.relay && !OnTopic(out)
            && match StateResult(w.relay, call.config, now)
               case Err(TimedOut) => v.pc == Pc.LatchTimeout(call)
               case Err(why) => v.pc.Idle? && out == Raised(why)
               case Ok(reply) => (v.pc, out) == Answered(call, reply)
  {
  }

  lemma ReadStateSection(w: World, call: Call, target: Pose, position: Pose, now: real)
    requires w.pc == ReadState(call, target, position) && call.packet.Some?
    ensures var (v, out) := Step(w, Main(now));
            v.relay == w.relay && (v.pc, out) == ReadStateStep(w.relay, call, target, position) && !OnTopic(out)
  {
  }

  lemma CheckGripperSection(w: World, call: Call, now: real)
    requires w.pc == CheckGripper(call) && call.packet.Some?
    ensures var (v, out) := Step(w, Main(now));
            v.relay == w.relay && (v.pc, out) == CheckGripperStep(call) && !OnTopic(out)
  {
  }

  lemma ReadGripperSection(w: World, call: Call, stroke: real, now: real)
    requires w.pc == ReadGripper(call, stroke) && call.packet.Some?
    ensures var (v, out) := Step(w, Main(now));
            && v.relay == w.relay
            && (v.pc, out) ==
               if w.relay.state.Active? then (PublishGripper(call, StrokeMm(stroke, call.config)), Silent)
               else (Idle, Raised(GripperNotActive))
  {
  }
}
