# Verified models of the robot tooling

Nine pieces of logic from `tools/`, modelled in Dafny, each with the property it exists for. Floats are
real numbers. Clocks, ROS callbacks, GitHub, the renderer and the lifecycle node are environment steps
that may happen in any order; runs are event sequences or ghost histories.

| files | piece |
|---|---|
| `Framing`, `Relay`, `RelaySafety`, `RelayLaws`, `History`, `Bridge`, `Handshake`, `Stack`, `Serve` | the Galaxea A1 command relay: record framing, the LOCKED / ARMING / ACTIVE / FAULT machine, its safety over every run, what its sections and an uninterrupted call do, the lock-holding object, the hello contract, process teardown and the serving loop |
| `Boxes`, `Fixture`, `StaticFilter` | scene fixtures: bounds of oriented boxes, the flood over colliders, destination hulls, the distance filter |
| `Observer` | the momentum observer and the torque corruption of a current-sensed drive |
| `CppArgs` | the splitter for C++ call arguments |
| `Readiness`, `Dispatcher` | the heavy-lane dispatcher against GitHub |
| `Moe` | the expert-by-expert mixture loop |
| `TimeBase`, `Frames` | the Isaac time base, stepping and frame catch-up |
| `Utf8`, `GradeTail`, `TreeDiff` | the deploy batch's grade monitor and its tree distance |
| `Autostart` | the lifecycle autostart client |
| `Basics` | options, results, rounding, what is found in a sequence, and a few product facts |

The relay is modelled at lock-section granularity. `Relay.Step` makes each `with self._lock` section one
atomic step, and a run is any infinite sequence of such steps; `RelaySafety` proves everything for all
runs, and `AtomicHandlersStopForwarding` is about the runs whose calls are not interrupted.
`BridgeObject.Bridge` is the object whose handlers update fields, with callbacks between any two sections
of a call. It keeps a history of the sections it went through, proved to be a run of that machine, so
what holds of runs holds of the object and of the serving loop `Serve.Session.Run` above it.

Functions that compute are held by statements that do not use them: limits, ages, masks, labels and
character sets are written out in the predicates of those statements, and lists built by recursion are
compared with `Basics.Found`, of which `FoundAt` and `FoundWhere` say what stands where.

## What the proofs found

The model follows the code where code and intention part.

- `apply` writes ARMING (line 504) without looking at the fault. A fault latched between its `state` call
  and that write is overwritten, and the relay can then forward with the fault still set. State and
  fault field agree exactly as long as no arming write meets a latched fault
  (`RelaySafety.ConsistentIffGuarded`); `FaultedForwardIsReachable` is a concrete run from start-up.
- The first joint action of a session cannot carry a gripper value too: uninterrupted, it arms the relay,
  publishes its targets and then raises (`RelayLaws.FirstTargetsExcludeGripper`).
- A fork's run is listed under the commit of its own branch, so only the "Running" status shields the
  fork's head. If that status is lost the lanes start twice (`Dispatcher.ForkLostStatusStartsTwice`); a
  run on a same-repository branch is safe without it while the tip is unchanged. `SafeForeverIffWitnessed`
  is the exact condition.
- A "Running" status posted after the gate's result overwrites it, and no sweep corrects it
  (`Dispatcher.LatePostStrands`). A result survives exactly when the sweep is not just then between its
  dispatch and that post (`ResultStaysIff`).
- The warning that frames still trail is raised whenever all eight catch-up renders are spent. By the
  world's clock that is exactly when some frame after seven of them is older than the present, but the
  frames then still trail only if one after eight is (`Frames.WarningIff`, for any scene). Right after a
  physics step this means a pipeline at least eight, and deeper than eight, renders deep
  (`WarningByDepth`); a refresh of a step already rendered may need fewer renders than the depth.
- Without the world's clock catch-up is timed by the step count, which is read before the step is
  counted and starts after the reset's own steps. `Frames.ShowsIff` says exactly when a fresh step still
  shows its own state; right after a reset it does so only if no pipeline is deep at all
  (`FreshAfterReset`, and `TrailingScene` for a concrete scene).
- The offset into the grade log is advanced by the length of the decoded text encoded again, and a cut
  character counts three bytes there. The offset never falls behind (`GradeTail.NeverBehind`), so no byte
  is read twice, but bytes are skipped: it equals the bytes read after every read exactly when every read
  that a longer one follows ends between two characters, and the last one does too or stops after three
  bytes of a four-byte character (`KeepsPlaceIffWhole`). So no read that ends inside a character is
  harmless once the log goes on; `ThreeByteReadLosesPlace` is a concrete pair of reads.
- A gripper stroke is checked in one lock section and published in a later one, so it is published under
  a latched fault exactly when that was latched already at the check or came in between
  (`RelaySafety.StrokeUnderFaultIff`; `FaultedStrokeIsReachable` is a concrete run). Uninterrupted
  handlers exclude both.
- `_max_abs_diff` is no metric once booleans occur: `TreeDiff.SymmetricIff` and `TreeDiff.TriangleIff` say
  exactly when symmetry and the triangle inequality hold.
- The source fixture depends on the order of the colliders exactly when equally high supports have
  different parents (`Fixture.OrderFreeIffParentsAgree`; `TwoPlatesDisagree` is a concrete pair).
- `derive_physics_substeps` rounds before it compares, but loses nothing by it: a ratio is refused exactly
  when no whole count is within one per cent (`TimeBase.RefusedIffNoCount`). This needs the tie at 49.5
  to round to the even 50.

## Model

| member | source | states |
|---|---|---|
| Framing.TakeAppend | tools/galaxea_a1_ros1_sidecar.py:653-665 | taking records from a + b is taking them from a, then from its rest with b, refusal included |
| Framing.ChunkingIrrelevant | tools/galaxea_a1_ros1_sidecar.py:685-689 | every chunking of a stream gives the records, the rest and the refusal of the whole stream |
| Framing.RefusedIffLongRun | tools/galaxea_a1_ros1_sidecar.py:660-664 | a stream is refused exactly when it holds a newline-free stretch longer than the record cap |
| Framing.PrintedRecordsComeBack | tools/galaxea_a1_ros1_sidecar.py:653-665 | newline-terminated records within the cap come back unchanged and in order, before an unfinished rest |
| Framing.RecordsAreLines | tools/galaxea_a1_ros1_sidecar.py:653-665 | whatever the bytes: the records are the newline-ended stretches but for empty ones, in order, the rest is what follows the last newline, and none is over the cap |
| Relay.DecodeIff | tools/galaxea_a1_ros1_sidecar.py:321-351 | a tracker command decodes to p exactly when all five vectors are six finite values, both gains non-negative, the mode the integer 0, and its positions are p |
| Relay.StatusFault | tools/galaxea_a1_ros1_sidecar.py:566-573 | a status is refused exactly when one of the checked actuators reports a bit outside its mask, and the actuator named is the first that does |
| Relay.FirstOutside | tools/galaxea_a1_ros1_sidecar.py:265-270 | the joint a fault names is outside its limits and every earlier one inside |
| RelayLaws.StagedCommand | tools/galaxea_a1_ros1_sidecar.py:229-319 | a well-formed staged command is recorded; out-of-limit positions (but for an ARMING sample within the tolerance), an unmasked actuator bit or out-of-limit feedback latch the fault that names the first offender, and nothing is forwarded; otherwise it is forwarded exactly when a target is set, feedback is fresh and the relay is ACTIVE or ARMING with an aligned sample, and the relay is then ACTIVE; nothing else changes |
| RelayLaws.StagedGarbage | tools/galaxea_a1_ros1_sidecar.py:229-234 | a malformed command latches the fault that says why, is neither recorded nor forwarded |
| RelayLaws.MalformedIs | tools/galaxea_a1_ros1_sidecar.py:321-351 | the reason given is that of the first bad vector, then negative gains, then the mode |
| RelayLaws.LatchedIff | tools/galaxea_a1_ros1_sidecar.py:229-319 | for every unfaulted relay and every message: exactly when a fault is latched, and exactly when the message is forwarded |
| RelayLaws.StateIs | tools/galaxea_a1_ros1_sidecar.py:408-469 | `state` answers, with the relay as it is, exactly when nothing speaks against it, and otherwise raises for the first reason in order |
| RelayLaws.ApplyAlone | tools/galaxea_a1_ros1_sidecar.py:471-564 | what an uninterrupted `apply` does for any relay, contract and packet: the first reason it raises for, or the targets and stroke it publishes, the arming or retargeting, and the count |
| RelayLaws.AcceptedIff | tools/galaxea_a1_ros1_sidecar.py:471-564 | it returns, and counts the action, exactly when neither `state` nor the packet's targets nor its gripper value speak against it |
| RelayLaws.FirstTargetsExcludeGripper | tools/galaxea_a1_ros1_sidecar.py:502-547 | uninterrupted, a first joint action that carries a gripper value too always raises |
| RelayLaws.ConfigureIsFreshStart | tools/galaxea_a1_ros1_sidecar.py:184-196 | `configure` leaves the start-up relay with the contract and the feedback heard so far |
| RelayLaws.StartsLocked | tools/galaxea_a1_ros1_sidecar.py:148-164 | at start-up the relay is LOCKED, with nothing configured, heard, published, staged or accepted |
| RelayLaws.StatusReplaces | tools/galaxea_a1_ros1_sidecar.py:217-227 | a status replaces the last one, code by code, exactly when it has seven codes or more, all of them uint32 |
| RelayLaws.StrokeWasAsked | tools/galaxea_a1_ros1_sidecar.py:532-560 | over every run, a published stroke is the fraction in [0, 1] of the gripper range that its call's packet asks for |
| RelayLaws.TargetWasAsked | tools/galaxea_a1_ros1_sidecar.py:471-531 | over every run, a published joint target is the list of six finite values in its call's packet |
| RelaySafety.ForwardedIsJustified | tools/galaxea_a1_ros1_sidecar.py:229-351 | in every run, a forwarded command is well formed and inside the joint limits, with fresh fault-free feedback inside its limits, the relay ACTIVE, and an aligned ARMING sample since `configure` |
| RelaySafety.MotionHistory | tools/galaxea_a1_ros1_sidecar.py:300-307 | in every run, ARMING has an arming write behind it since `configure`, ACTIVE an arming write and then a sample within the alignment of target and feedback |
| RelaySafety.PublishedIsAdmitted | tools/galaxea_a1_ros1_sidecar.py:471-531 | every published joint target lies inside the limits and within a bound of the very feedback that an unfaulted snapshot admitted; the bound is that of the state its own call read, the alignment in LOCKED and ARMING |
| RelaySafety.RelayTargetIsAligned | tools/galaxea_a1_ros1_sidecar.py:471-522 | in every run, the target a relay is ARMING with lies within the alignment of the feedback that admitted it |
| RelaySafety.GripperNeedsAlignment | tools/galaxea_a1_ros1_sidecar.py:532-560 | in every run, a gripper stroke is published only by a call that itself read the relay ACTIVE, and only after a staged alignment since `configure` |
| RelaySafety.StrokeUnderFaultIff | tools/galaxea_a1_ros1_sidecar.py:532-560 | a stroke is published under a latched fault exactly when the fault was latched already at its call's check for ACTIVE, or between the check and the publication |
| RelaySafety.AtomicHandlersPublishUnfaulted | tools/galaxea_a1_ros1_sidecar.py:532-560 | with handlers atomic neither a stroke nor a joint target is published under a latched fault |
| RelaySafety.FaultedStrokeIsReachable | tools/galaxea_a1_ros1_sidecar.py:532-560 | a concrete run from start-up that publishes a stroke under a latched fault |
| RelaySafety.FaultSticks | tools/galaxea_a1_ros1_sidecar.py:353-361 | a latched fault stays, with its reason, until the next `configure` |
| RelaySafety.CallsRaiseAfterLatch | tools/galaxea_a1_ros1_sidecar.py:408-430 | every `state` or `apply` whose snapshot follows the latch raises |
| RelaySafety.ConsistentIffGuarded | tools/galaxea_a1_ros1_sidecar.py:502-508 | from the start or a `configure` on, state and fault field agree exactly as long as no arming write meets a latched fault |
| RelaySafety.NothingForwardedAfterLatch | tools/galaxea_a1_ros1_sidecar.py:229-315 | if no such write occurred since the start or the last `configure`, nothing is forwarded while a fault is latched |
| RelaySafety.AtomicHandlersStopForwarding | tools/galaxea_a1_ros1_sidecar.py:471-508 | with handlers atomic, no latched fault is ever followed by a forward before `configure` |
| RelaySafety.UnguardedArmForwards | tools/galaxea_a1_ros1_sidecar.py:502-508 | from any world about to overwrite a fault, ordinary feedback and one staged hold lead to a forward with the fault still latched |
| RelaySafety.FaultedForwardIsReachable | tools/galaxea_a1_ros1_sidecar.py:502-508 | a concrete run from start-up that does so |
| BridgeObject.Bridge.Install | tools/galaxea_a1_ros1_sidecar.py:184-196 | `configure` leaves LOCKED, no fault, no targets, and every feedback field as it was |
| BridgeObject.Bridge.OnMotorStatus | tools/galaxea_a1_ros1_sidecar.py:217-227 | only a status of seven codes or more, all of them uint32, replaces the last one |
| BridgeObject.Bridge.OnStagedCommand | tools/galaxea_a1_ros1_sidecar.py:229-319 | the handler changes the relay and forwards exactly as its lock section does, of which `RelayLaws.StagedCommand` and `StagedGarbage` say what that is |
| BridgeObject.Bridge.LatchFault | tools/galaxea_a1_ros1_sidecar.py:353-361 | the first fault is kept and the state becomes FAULT, later ones change nothing |
| BridgeObject.Bridge.Check | tools/galaxea_a1_ros1_sidecar.py:408-469 | the reply of the snapshot, or the error of the first check that fails, in the code's order; it changes nothing |
| BridgeObject.Bridge.State | tools/galaxea_a1_ros1_sidecar.py:408-469 | with callbacks between its two sections, `state` is one call of the lock-section machine, answers what that call puts out, and changes neither contract nor count, nor starts a motion |
| BridgeObject.Bridge.Apply | tools/galaxea_a1_ros1_sidecar.py:471-564 | with any callbacks between any of its sections, `apply` grows the history by exactly one call of the lock-section machine, answers what that call puts out, publishes exactly what the history puts out on the topics, and counts exactly the actions that return; what a call puts out is stated by `RelayLaws.TargetWasAsked`, `StrokeWasAsked` and, uninterrupted, `ApplyAlone` |
| BridgeObject.Bridge.Callback | tools/galaxea_a1_ros1_sidecar.py:198-319 | a callback is one section of the machine at any point of a call, and forwards what that section does: it keeps the call in place, the contract and the count, and never starts a motion |
| History.HistoryIsRun | tools/galaxea_a1_ros1_sidecar.py:184-564 | the world a history leads to is that of the run it begins, so every statement about runs holds of the object |
| History.OutputsAreRun | tools/galaxea_a1_ros1_sidecar.py:184-564 | a faithful history records exactly what the run puts out |
| History.TargetsAreOk | tools/galaxea_a1_ros1_sidecar.py:471-531 | whatever the interleaving, a published joint target is that of the packet of a call begun before, inside the official limits, and within 0.05 (or, after the first, 0.08) of the feedback that admitted it |
| History.StrokesAreAsked | tools/galaxea_a1_ros1_sidecar.py:532-560 | whatever the interleaving, every stroke of a faithful history was asked for by the packet of a call begun before |
| History.OneCallApplies | tools/galaxea_a1_ros1_sidecar.py:471-564 | a call adds exactly its own action to the actions applied |
| Handshake.HelloConfig | tools/galaxea_a1_ros1_sidecar.py:580-650 | an accepted hello introduces itself correctly and stays inside every ceiling |
| Handshake.AcceptsExactly | tools/galaxea_a1_ros1_sidecar.py:580-650 | a hello is accepted as contract c exactly when it states c field by field and c is inside the ceilings |
| Handshake.ContractRoundTrip | tools/galaxea_a1_ros1_sidecar.py:580-650 | sending a contract gives it back if it is inside the ceilings and is refused otherwise |
| ProcessStack.InterruptAll | tools/galaxea_a1_ros1_sidecar.py:120-123 | every living child is interrupted, in the order given, and no other |
| ProcessStack.WaitFor | tools/galaxea_a1_ros1_sidecar.py:125-135 | a child is killed exactly when it has not exited by the deadline (or now, if that is later); without a kill the wait ends at the first moment it has exited, with one after its exit or the kill wait |
| ProcessStack.WaitAll | tools/galaxea_a1_ros1_sidecar.py:125-135 | it ends within the grace time and one kill wait for each child killed; no child that exits within the grace time is killed, and every other one is killed unless its interrupt still ends it before all the waiting is over; it succeeds exactly when all have exited, and by then they had |
| ProcessStack.Stack.Stop | tools/galaxea_a1_ros1_sidecar.py:119-136 | every living child is interrupted, last started first; it returns normally only once every child has exited, otherwise one outlived its kill and the list is kept |
| Serve.Session.Handle | tools/galaxea_a1_ros1_sidecar.py:689-706 | before the hello only an acceptable hello goes on, and configures; afterwards an action is exactly one call on the history and goes on exactly when it returns, an e-stop ends the session as stopped exactly when the stack is empty, anything else fails |
| Serve.Session.HandleAction | tools/galaxea_a1_ros1_sidecar.py:698-700 | one call on the history; when it returns the lease runs from the clock reading after it and the first-command flag is the one returned |
| Serve.Session.HandleEStop | tools/galaxea_a1_ros1_sidecar.py:701-704 | an e-stop is acknowledged exactly when the stack is empty, and then every child has exited |
| Serve.Session.CheckLease | tools/galaxea_a1_ros1_sidecar.py:707-722 | with callbacks before the relay state is read and inside the report, it fails exactly when an ACTIVE relay's last action is older than the lease or a due report raises; otherwise the turn is recorded with its place in the history |
| Serve.Session.Receive | tools/galaxea_a1_ros1_sidecar.py:685-689 | a stream that is refused fails the session with the history unchanged; otherwise the actions applied are those of the records so far |
| Serve.Session.Run | tools/galaxea_a1_ros1_sidecar.py:668-722 | at lock-section granularity: the history is a faithful run whose targets are safe and whose targets and strokes were asked for; every completed turn after the first record passed its lease check, where ARMING or ACTIVE has an accepted action and ACTIVE one no older than the lease, and made a report exactly when 20 ms had passed; exactly the actions among the records handled were applied, in order; and why it ended: shut down after all rounds, disconnected at the first empty chunk, stopped by an e-stop with no child left, or failed by a refused stream, a record that had to be refused, a lease that ran out, or a report that raised |
| Boxes.AabbContainsBox | tools/derive_scene_inputs.py:92-111 | for any matrix, every point of the oriented box is in its bound up to the six-decimal rounding |
| Boxes.AabbFacesAttained | tools/derive_scene_inputs.py:92-111 | every face of the bound is touched by a corner of the box, to the same error |
| Boxes.HullIsLeastCover | tools/derive_scene_inputs.py:177-179 | the face-by-face extremes are the least box that covers all of the boxes |
| Boxes.LeastCoverUnique | tools/derive_scene_inputs.py:177-179 | that least box is unique |
| Fixture.Members | tools/derive_scene_inputs.py:161-165 | the group is exactly the same-parent colliders not wholly below the support's top |
| Fixture.Parent | tools/derive_scene_inputs.py:155-165 | what precedes the last slash of a path, or all of it |
| Fixture.SupportsIff | tools/derive_scene_inputs.py:149-154 | a support has the middle of the object in its footprint and rises at most the tolerance above its bottom |
| Fixture.TopIsHighest | tools/derive_scene_inputs.py:151-165 | no point of a collider lies above its top, and a corner reaches it, up to the rounding |
| Fixture.TouchesIff | tools/derive_scene_inputs.py:167-168 | boxes touch exactly when a point of one and a point of the other are at most the gap apart in each coordinate |
| Fixture.Flood | tools/derive_scene_inputs.py:170-176 | the flood ends with exactly the connected component of the support under the gap relation |
| Fixture.ClosedGroupIsComponent | tools/derive_scene_inputs.py:167-176 | a closed set of connected boxes is the whole component |
| Fixture.HighestSupport | tools/derive_scene_inputs.py:149-155 | the first of the highest boxes under the object, or none when nothing is under it |
| Fixture.SourceFixture | tools/derive_scene_inputs.py:114-179 | the least box that covers the support's component, with the support's parent; none exactly when nothing is under the object |
| Fixture.FixtureHoldsSupport | tools/derive_scene_inputs.py:149-179 | the fixture holds the box of the first listed highest support and bears its parent path |
| Fixture.OrderFreeIffParentsAgree | tools/derive_scene_inputs.py:149-179 | every order of the colliders has the same answer exactly when all the highest supports have one parent |
| Fixture.TiesAgreeIffParents | tools/derive_scene_inputs.py:151-176 | highest supports of one parent always touch, so they are of one connected group |
| Fixture.OrderIndependent | tools/derive_scene_inputs.py:149-179 | equally high supports of one group give the same answer in every order |
| Fixture.FirstListedDecides | tools/derive_scene_inputs.py:151-155 | listing a highest support first makes its parent the answer |
| Fixture.TwoPlatesDisagree | tools/derive_scene_inputs.py:151-155 | two concrete colliders for which the two orders have different answers |
| Fixture.DestinationHull | tools/derive_scene_inputs.py:182-245 | names kept and dropped, and the least box over every part of exactly the candidates that reach the window |
| Fixture.ReachesIffMeets | tools/derive_scene_inputs.py:224-228 | a candidate is kept exactly when its bound shares a point with the window |
| StaticFilter.CauchySchwarz | tools/derive_scene_inputs.py:80-89 | the inequality behind centre norm minus half-extent norm |
| StaticFilter.NearestIsAttained | tools/derive_scene_inputs.py:80-89 | some point within the half-extents' norm of the centre is exactly at the nearest distance |
| StaticFilter.DroppedIffBallIsFar | tools/derive_scene_inputs.py:292-309 | an entry is dropped exactly when every point within the half-extents' norm of its centre is farther than the distance |
| StaticFilter.RotationKeepsNorm | tools/derive_scene_inputs.py:80-89 | an orthonormal matrix keeps lengths |
| StaticFilter.TurnIsOrthonormal | tools/derive_scene_inputs.py:92-104 | a turn by any angle about the vertical axis is such a matrix |
| StaticFilter.DroppedBoxIsFar | tools/derive_scene_inputs.py:80-89 | every point of a dropped box is farther than the distance |
| StaticFilter.MeshInsideBounds | tools/derive_scene_inputs.py:68-77 | every point of every triangle lies in the mesh's bound |
| StaticFilter.MeshFacesAttained | tools/derive_scene_inputs.py:68-77 | every face of a mesh's bound holds a vertex |
| StaticFilter.DroppedMeshIsFar | tools/derive_scene_inputs.py:68-89 | every point of a dropped mesh is farther than the distance |
| StaticFilter.WriteStatic | tools/derive_scene_inputs.py:285-310 | exactly the enabled static colliders that the filter keeps are written, each once, sorted by distance and for equal distances in the order reported; it fails on a mesh without vertices |
| StaticFilter.BeforeIsStrict | tools/derive_scene_inputs.py:292-309 | of any two entries exactly one comes first |
| StaticFilter.LeftOutIsFar | tools/derive_scene_inputs.py:308-309 | a collider that the filter leaves out has no point within the distance of the base |
| Observer.Observe | tools/force_layer_feasibility.py:165-174 | the loop, with its carried integral and previous matrix, computes the residual recurrence |
| Observer.MassRateCancels | tools/force_layer_feasibility.py:166-173 | differencing the mass matrix leaves exactly the momentum gained under the old matrix |
| Observer.StepTowards | tools/force_layer_feasibility.py:173-174 | one step moves the residual the fraction K dt towards the external torque, less the error |
| Observer.Converges | tools/force_layer_feasibility.py:144-178 | k steps after any sample the residual is within (1 - K dt)^k of the start's distance plus e (1 - (1 - K dt)^k) |
| Observer.ConvergesFromStart | tools/force_layer_feasibility.py:144-178 | the same from the first sample, which starts at -K dt X_0, with error term e |
| Observer.NeverCrosses | tools/force_layer_feasibility.py:173-174 | without torque error the distance shrinks by exactly (1 - K dt)^k, so the residual never crosses |
| Observer.HwEffortError | tools/force_layer_feasibility.py:113-119 | moving or at rest, friction, noise and quantisation move the torque by at most their three bounds together |
| Observer.HwEffortIs | tools/force_layer_feasibility.py:101-121 | the reported torque is a whole number of steps of a 2048th of the rated torque, within half a step of the torque plus friction and noise |
| CppArgs.SplitArgs | tools/gen_ros_topic_graph.py:511-539 | the index loop computes the recursive scan |
| CppArgs.StripIs | tools/gen_ros_topic_graph.py:511-539 | stripping takes exactly the whitespace off both ends |
| CppArgs.ScanPiece | tools/gen_ros_topic_graph.py:519-537 | a string literal, an arrow, a bracketed group or a plain character is passed without splitting |
| CppArgs.PrintedCallSplits | tools/gen_ros_topic_graph.py:511-539 | a printed argument list splits into its trimmed arguments, inside any surrounding text |
| CppArgs.SplitInvertsPrint | tools/gen_ros_topic_graph.py:511-539 | printing trimmed, non-empty, balanced arguments and splitting them gives exactly them, with nesting, escapes and arrows |
| CppArgs.UnclosedGroup | tools/gen_ros_topic_graph.py:511-539 | an argument whose bracket is never closed goes on to the end of the text |
| CppArgs.UnclosedLiteral | tools/gen_ros_topic_graph.py:511-539 | so does one whose string literal is never closed |
| Readiness.Evaluate | tools/heavy_lanes_trigger.py:166-193 | exactly the reasons that apply are given, of every kind and check by check, and none exactly when the pull request is ready |
| Readiness.FactsGreen | tools/heavy_lanes_trigger.py:178-190 | the three lists of reasons are empty exactly when required checks are present, checks are green and statuses succeed |
| Readiness.FactsApply | tools/heavy_lanes_trigger.py:178-190 | the three lists together hold exactly the facts that apply, each about its own check or status |
| Dispatcher.StepKeeps | tools/heavy_lanes_trigger.py:420-461 | every step that leaves a trace keeps the invariant |
| Dispatcher.NeverTwice | tools/heavy_lanes_trigger.py:420-461 | over every run of sweeps, pushes, completions and cancellations no commit has two live dispatched runs |
| Dispatcher.SafeForeverIffWitnessed | tools/heavy_lanes_trigger.py:152-163 | a world between pull requests stays safe for ever exactly when each live run is listed under its commit or its commit's status says so |
| Dispatcher.UnseenRunIsDoubled | tools/heavy_lanes_trigger.py:152-163 | any unseen live run can be doubled, by the steps returned |
| Dispatcher.TraceOfDispatch | tools/heavy_lanes_trigger.py:287-302 | a same-repository run on an unchanged tip leaves a trace even if its status is lost; any other needs the status |
| Dispatcher.ForkLostStatusStartsTwice | tools/heavy_lanes_trigger.py:453-460 | a fork's lost "Running" status makes the lanes start twice |
| Dispatcher.RetriedIffNothingStarted | tools/heavy_lanes_trigger.py:152-163 | a judged-ready commit is dispatched exactly when its status and every run listed under it say nothing or "cancelled" |
| Dispatcher.LatePostStrands | tools/heavy_lanes_trigger.py:366-385 | a "Running" post after the gate's result, passed or failed, leaves the commit pending whatever later sweeps do |
| Dispatcher.ResultStaysIff | tools/heavy_lanes_trigger.py:366-385 | a reported result survives every later sweep and push exactly when the sweep is not between its dispatch on the commit and its "Running" post (nor about to post another non-result there) |
| Dispatcher.ReadsBring | tools/heavy_lanes_trigger.py:420-440 | a sweep judges a commit by its own status and the runs listed under it, as they are when each is read |
| Dispatcher.JudgeReports | tools/heavy_lanes_trigger.py:366-385 | a ready commit without a sign of a start goes on to the recheck; on any other exactly the status that is called for is posted, and nothing else changes |
| Dispatcher.BackfillCopies | tools/heavy_lanes_trigger.py:372-381 | without a status of its own, a finished run is reported as success exactly when the first listed conclusion is "success", otherwise as failure |
| Dispatcher.WaitingIsShown | tools/heavy_lanes_trigger.py:382-385 | a commit without any sign of a start that is not ready then shows why it waits |
| Dispatcher.RecheckComparesHeads | tools/heavy_lanes_trigger.py:443-452 | the recheck goes on exactly when the judged commit is still the head of its pull request |
| Dispatcher.DispatchStarts | tools/heavy_lanes_trigger.py:453-460 | a dispatch starts one run of the judged commit, listed under the tip unless it is a fork's, and the status then says "Running" exactly if the answer arrives and the post lands |
| Moe.Scatter | tools/_lingbot_vla2_server.py:482 | the masked addition adds row i to token tok[i] and leaves all other rows |
| Moe.AddExpert | tools/_lingbot_vla2_server.py:471-482 | one pass adds exactly the expert's share to every token |
| Moe.AddOneExpert | tools/_lingbot_vla2_server.py:471-482 | raising the expert limit by one adds that expert's output times the weight of all slots that select it |
| Moe.InRangeSum | tools/_lingbot_vla2_server.py:461-483 | with every index in range no slot is left out |
| Moe.Forward | tools/_lingbot_vla2_server.py:461-483 | every entry of the result is the weighted sum over the token's slots whose index is in range |
| Moe.RoutingIsTopK | tools/_lingbot_vla2_server.py:461-483 | with every index in range that is the per-token top-k sum, repeated selections included |
| Moe.RoutingIsMixture | tools/_lingbot_vla2_server.py:461-483 | every entry is, slot by slot, the weight times the selected expert's output, for the slots whose index is in range |
| Moe.OutputIs | tools/_lingbot_vla2_server.py:471-482 | an expert puts `silu` of its gate projection times its up projection through its down weights |
| TimeBase.MultipleIsLeast | tools/_isaac_scene_base.py:65-79 | the physics rate is the least whole multiple of the control rate that reaches 60 Hz, up to the slack |
| TimeBase.DeriveRecoversMultiple | tools/_isaac_scene_base.py:82-109 | the chosen dt gives back exactly the multiple it was built from |
| TimeBase.RefusedIffNoCount | tools/_isaac_scene_base.py:99-101 | a ratio is refused exactly when no whole count is within one per cent |
| TimeBase.DerivedCount | tools/_isaac_scene_base.py:82-109 | a count is refused for a dt or rate that is not positive or when none is within one per cent; otherwise it is such a count, and the nearest to the ratio |
| TimeBase.PhysicsDtIs | tools/_isaac_scene_base.py:65-79 | there is a dt exactly for a positive rate, the reciprocal of a whole multiple of it |
| TimeBase.AcceptedTick | tools/_isaac_scene_base.py:99-109 | any accepted count keeps n dt rate between 1/1.01 and 1/0.99 |
| TimeBase.LinearDrift | tools/_isaac_scene_base.py:99-109 | after k ticks simulated time is off by at most k/99 control periods |
| TimeBase.ExactTicks | tools/_isaac_scene_base.py:65-109 | at the chosen dt k ticks are exactly k control periods |
| Frames.Drains | tools/_isaac_scene_base.py:350-356 | n renders without stepping deliver the n-th frame in flight, or the present one |
| Frames.CurrentIffSince | tools/_isaac_scene_base.py:347-352 | half a physics step tells the frames of a step and later from every earlier one |
| Frames.CatchUpReaches | tools/_isaac_scene_base.py:336-356 | when catch-up ends every timed camera at most eight renders deep shows this step |
| Frames.CatchUpIff | tools/_isaac_scene_base.py:336-364 | for any scene and a clock that reads step m: all eight renders are spent exactly when some frame after seven is older than m, and the frames end at the present exactly when eight renders suffice and no earlier one already satisfied the clock alone |
| Frames.WarningIff | tools/_isaac_scene_base.py:350-364 | for any scene timed by the world's clock: all eight renders are spent, and the warning raised, exactly when some frame after seven is older than the present; the frames then still trail exactly when one after eight is |
| Frames.WarningByDepth | tools/_isaac_scene_base.py:350-364 | right after a physics step: the warning is raised exactly when a pipeline is at least eight deep, and the frames trail exactly when one is deeper |
| Frames.ShowsIff | tools/_isaac_scene_base.py:336-356 | timed by a clock that reads step m, catch-up ends on the present step exactly when no pipeline is deeper than eight and one of the deepest holds, before its newest frame, only frames older than m |
| Frames.RenderedEachStep | tools/_isaac_scene_base.py:300-319 | after a rendered step no deep pipeline meets that condition for the step count |
| Frames.FreshAfterReset | tools/_isaac_scene_base.py:153-227 | the first fresh step after a reset shows its own state exactly when no pipeline is deeper than eight, or, without the world's clock, deep at all |
| Frames.TrailingScene | tools/_isaac_scene_base.py:300-319 | a concrete scene without a clock whose fresh step shows an older state |
| Frames.Scene.ResolveTimeBase | tools/_isaac_scene_base.py:229-244 | a pinned count wins, otherwise the derived one; a refusal leaves the scene unresolved |
| Frames.Scene.CatchUpFrames | tools/_isaac_scene_base.py:336-364 | renders until current or eight times, counts them, and warns exactly when all eight were spent |
| Frames.Scene.Advance | tools/_isaac_scene_base.py:191-197 | exactly the substeps, with a render only in the last and only when wanted |
| Frames.Scene.Step | tools/_isaac_scene_base.py:172-227 | physics advances by exactly the substeps in every mode, at most nine renders are spent, pipelines keep their depths, and when a fresh step shows the state it stepped to is stated exactly, with and without the world's clock; so is the warning by the world's clock |
| Frames.Scene.RefreshFrames | tools/_isaac_scene_base.py:324-334 | simulated time does not move, at most nine renders are spent, pipelines keep their depths; when it warns and when its frames are of the present is stated exactly, by the frames due after its first render |
| Frames.Scene.Reset | tools/_isaac_scene_base.py:153-170 | warm-up, settling and one more step are all the physics there is; the cameras see each warm-up step, the last one and at most eight catch-up renders, but none of the settling; pipelines keep their depths, and with none deeper than eight the first observation is of the present |
| Frames.RunOps | tools/_isaac_scene_base.py:172-227 | over any sequence of calls, every observation in the log is of the step count so far times the substeps and spent the renders of its mode, and with no pipeline deeper than eight every fresh step and every refresh observed its own moment |
| Frames.RunAtRate | tools/_isaac_scene_base.py:65-109 | a scene built at its rate's dt always resolves and simulates exactly one control period a step, in every run |
| Utf8.RoundTrip | tools/deploy_sim_batch.py:215-218 | decoding encoded text gives it back |
| Utf8.DecodesEncoded | tools/deploy_sim_batch.py:215-218 | bytes that begin with a character's encoding decode to it |
| Utf8.DecodedIsEncoded | tools/deploy_sim_batch.py:215-218 | what decodes to anything but a replacement is that character's encoding |
| Utf8.NoLongerPrefix | tools/deploy_sim_batch.py:215-218 | of ill-formed bytes no longer stretch begins a character than was replaced |
| Utf8.ReplacedBegins | tools/deploy_sim_batch.py:215-218 | a replacement of more than one byte stands for bytes that begin a character |
| Utf8.NeverShrinks | tools/deploy_sim_batch.py:215-218 | any bytes, decoded and encoded again, are at least as many |
| Utf8.CutChunkLength | tools/deploy_sim_batch.py:215-218 | a chunk cut inside a character re-encodes to three bytes for it |
| GradeTail.EventsSplit | tools/deploy_sim_batch.py:84-102 | reading two newline-separated texts in turn finds the events of the whole |
| GradeTail.EventsAreFound | tools/deploy_sim_batch.py:84-102 | the grade changes of a text are what parsing finds on its lines, each once and in order |
| GradeTail.LinesOf | tools/deploy_sim_batch.py:84-102 | every text divides into lines and line breaks |
| GradeTail.FinishedAreFound | tools/deploy_sim_batch.py:218-221 | those fed are what is found on the lines before the last newline |
| GradeTail.SettledIff | tools/deploy_sim_batch.py:105-134 | the timer is due exactly when the last finished line that says anything says `complete`, and that was long enough ago |
| GradeTail.CutContinues | tools/deploy_sim_batch.py:218-221 | keeping the unfinished line and reading on feeds each finished line once and in order |
| GradeTail.Tail.ReadOn | tools/deploy_sim_batch.py:215-221 | whatever bytes are read, the changes fed to the timer are then exactly those of the finished lines of the text heard, each once and in order, and the offset has moved by that text's encoding |
| GradeTail.Tail.Turn | tools/deploy_sim_batch.py:211-222 | after a read the timer is due exactly when the finished lines heard end on a settled `complete` |
| GradeTail.Monitor | tools/deploy_sim_batch.py:202-223 | for any log bytes and any reads: exactly the changes on the finished lines of the text heard are fed, and the goal is asked to complete at exactly the turns where the last finished line heard that says anything says `complete`, long enough ago, until accepted |
| GradeTail.HeardIsWritten | tools/deploy_sim_batch.py:211-218 | when every read ends between two characters, the text heard is exactly what was written since the start |
| GradeTail.SettledOnWritten | tools/deploy_sim_batch.py:211-223 | and then a turn is settled exactly when the lines written so far say so |
| GradeTail.NeverBehind | tools/deploy_sim_batch.py:215-218 | on any growing log the offset is never behind the bytes read |
| GradeTail.KeepsPlaceIffNeutral | tools/deploy_sim_batch.py:215-218 | on any growing log, valid UTF-8 or not, the offset equals the bytes read after every read exactly when the new bytes of each read keep their number when decoded and encoded again |
| GradeTail.KeepsPlaceIffWhole | tools/deploy_sim_batch.py:215-218 | on a growing UTF-8 log, exactly when every read that a longer one follows ends between two characters, and the last one does too or stops after three bytes of a four-byte character |
| GradeTail.ThreeByteReadLosesPlace | tools/deploy_sim_batch.py:215-218 | two concrete reads of which the first stops after three of four bytes and the second ends two bytes past the log |
| TreeDiff.ZeroIffEqual | tools/deploy_sim_batch.py:528-545 | zero exactly between trees that Python calls equal |
| TreeDiff.NoGapBeyond | tools/deploy_sim_batch.py:528-545 | no two facing numbers of the trees differ by more than the distance |
| TreeDiff.GapAttained | tools/deploy_sim_batch.py:528-545 | a finite distance other than zero is how far two facing numbers differ |
| TreeDiff.InfiniteIff | tools/deploy_sim_batch.py:528-545 | infinite exactly when shapes differ or a boolean of the first tree faces another number |
| TreeDiff.SymmetricIff | tools/deploy_sim_batch.py:543-545 | symmetric exactly when shapes differ or both orders, or neither, have such a boolean |
| TreeDiff.Triangle | tools/deploy_sim_batch.py:528-545 | the triangle inequality when no boolean of the first tree faces another number of the third |
| TreeDiff.TriangleIff | tools/deploy_sim_batch.py:528-545 | the exact condition for the triangle inequality |
| TreeDiff.BoolFreeMetric | tools/deploy_sim_batch.py:528-545 | on boolean-free trees the distance is an extended metric |
| TreeDiff.BooleansBreakMetric | tools/deploy_sim_batch.py:543-545 | two small trees on which symmetry fails and three on which the triangle inequality does |
| Autostart.Poll | tools/lifecycle_autostart.py:113-121 | polling ends within the budget and one read, and says landed exactly when a goal state was read |
| Autostart.Grace | tools/lifecycle_autostart.py:129-137 | success exactly when success was answered or a goal state read; otherwise the whole grace period has passed |
| Autostart.DriveTransition | tools/lifecycle_autostart.py:82-143 | it ends in bounded time, reads the state at least once in every poll slice and read timeout, and returns normally exactly when success was answered or a goal state (inactive or active for CONFIGURE, only active for ACTIVATE) was read during the call |
| Autostart.StaysInGoal | tools/lifecycle_autostart.py:44 | a node that nobody takes back is still in the goal it was seen in, or beyond |
| Autostart.Advance | tools/lifecycle_autostart.py:219-228 | one turn requests one transition; the requests certified are then all of them if it returns normally, all but this one otherwise |
| Autostart.CertifiedNext | tools/lifecycle_autostart.py:219-228 | later requests and reads do not change what certified the earlier ones |
| Autostart.AutoStart | tools/lifecycle_autostart.py:206-232 | CONFIGURE is requested exactly when the first read is neither inactive nor active, ACTIVATE after it or after reading inactive, each at most once; every request is certified (success answered or a goal state read) before the next is sent and before exit 0, and on exit 1 the last one never was; exit 0 means the target was reached during the run |
| Autostart.FitIsFew | tools/lifecycle_autostart.py:206-228 | what the request list of a run can be: CONFIGURE unless the first read is inactive or active, ACTIVATE only for an active target and never before it |

## Left out

- Serve.Session.Run: JSON decoding is an arbitrary function from bytes to messages, sockets are lists of chunks; reading the relay state at the lease check when no action was accepted yet has no effect in the model, where the code skips it.
- BridgeObject.Bridge.State: the joint velocities, efforts and stamps of the reply.
- ProcessStack.Stack.Stop: a process is described by how long it takes to exit after an interrupt and after a kill; a process that dies between poll and signal behaves like one that has exited.
- Dispatcher.NeverTwice: a run counts as cancelled from its gate's cancellation report on, so for a fork, whose runs are not listed under its head, a second run may start while the first is not yet marked cancelled. GitHub answers are taken to be current when read; manual dispatches, re-runs of cancelled runs, dry runs and the deletion of fork branches are not modelled.
- StaticFilter.WriteStatic: the YAML and the `.npz` payloads; norms are parameters known to square to the squared lengths, as reals have no computable root.
- Observer.Observe: one joint at a time; the mass matrix, torques and velocities are inputs, MuJoCo and the slow drift of the drive are part of the torque error.
- Observer.HwEffortError: the smoothed sign, the friction draw and the noise are bounded inputs.
- Moe.Forward: real arithmetic, so the casts to and from the tensors' types are not modelled.
- Frames.Scene.Reset: a world reset is taken to leave only frames of its start in the pipelines; observation, rewards and the action itself are not modelled.
- Frames.Scene.CatchUpFrames: a scene always has its physics dt, so the early return without one is not modelled.
- GradeTail.Monitor: what a log line says is an arbitrary function of the line that finds nothing in an empty one; a log that is truncated or replaced while it is followed is covered by the monitor, but not by the statements about keeping the place.
- TreeDiff.ZeroIffEqual: NaN and infinite leaves of a tree.
- Autostart.DriveTransition: a successful answer is taken to be true. Waiting for the services, and `main` without them, are not modelled.
- The reordering of joint names, and exceptions with an empty message, which would latch no fault.
- IEEE rounding everywhere except the six decimals of a bound and the nanoseconds of a frame time.
- ROS publishers, subprocess start, HTTP, the AST resolver and page rendering of the topic graph, argument parsers and argv builders.
