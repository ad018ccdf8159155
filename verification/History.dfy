/** A relay's history: the lock sections it went through, with what came out of each. */
module History {
  import opened Basics
  import opened Relay
  import opened RelaySafety
  import opened RelayLaws
  import opened Handshake

  /** One section and its output. */
  datatype Done = Done(event: Event, out: Output)

  predicate IsCallback(e: Event) {
    e.JointFeedback? || e.GripperFeedback? || e.StatusFeedback? || e.Staged?
  }

  type Callback = e: Event | IsCallback(e) witness GripperFeedback(0.0, 0.0)

  /** What happens around a call: the callbacks before its `k`-th section, and the clock there. */
  datatype Schedule = Schedule(before: nat -> seq<Callback>, at: nat -> real)

  /** The world a history leads to from start-up. */
  function WorldAfter(h: seq<Done>): (w: World)
    ensures HasPacket(w.pc)
  {
    if h == [] then World(INITIAL, Idle) else Step(WorldAfter(h[..|h| - 1]), h[|h| - 1].event).0
  }

  /** Every output recorded is the one the section put out. */
  ghost predicate Faithful(h: seq<Done>) {
    forall n: nat | n < |h| :: h[n].out == Step(WorldAfter(h[..n]), h[n].event).1
  }

  lemma Append(h: seq<Done>, d: Done)
    ensures WorldAfter(h + [d]) == Step(WorldAfter(h), d.event).0
    ensures Faithful(h) && d.out == Step(WorldAfter(h), d.event).1 ==> Faithful(h + [d])
  {
    var longer := h + [d];
    assert longer[..|h|] == h;
    if Faithful(h) && d.out == Step(WorldAfter(h), d.event).1 {
      forall n: nat | n < |longer| ensures longer[n].out == Step(WorldAfter(longer[..n]), longer[n].event).1 {
        assert n < |h| ==> longer[..n] == h[..n];
      }
    }
  }

  // ------------------------------------------------------------------ what is sent

  /** The messages on the three command topics. */
  predicate OnTopic(o: Output) {
    o.Forward? || o.JointTarget? || o.GripperStroke?
  }

  ghost function Sending(): Done -> Option<Output> {
    (d: Done) => if OnTopic(d.out) then Some(d.out) else None
  }

  /** Everything a history has put out on the topics, in order. */
  ghost function Sent(h: seq<Done>): seq<Output> {
    Found(h, Sending())
  }

  function Emission(o: Output): seq<Output> {
    if OnTopic(o) then [o] else []
  }

  lemma SentNext(h: seq<Done>, d: Done)
    ensures Sent(h + [d]) == Sent(h) + Emission(d.out)
  {
    FoundNext(h, d, Sending());
  }

  // ------------------------------------------------------------------ a history is a run

  /** The run that a history begins. */
  function AsRun(h: seq<Done>): nat -> Event {
    (n: nat) => if n < |h| then h[n].event else Main(0.0)
  }

  lemma HistoryNext(h: seq<Done>, n: nat)
    requires n < |h|
    ensures WorldAfter(h[..n + 1]) == Step(WorldAfter(h[..n]), AsRun(h)(n)).0
  {
    assert h[..n] + [h[n]] == h[..n + 1];
    Append(h[..n], h[n]);
  }

  lemma {:induction false} HistoryIsRun(h: seq<Done>, n: nat)
    requires n <= |h|
    ensures WorldAfter(h[..n]) == At(AsRun(h), n)
  {
    if n > 0 {
      hide *;
      HistoryIsRun(h, n - 1);
      HistoryNext(h, n - 1);
      AtNext(AsRun(h), n - 1);
    }
  }

  lemma OutputsAreRun(h: seq<Done>, n: nat)
    requires Faithful(h) && n < |h|
    ensures h[n].out == OutputAt(AsRun(h), n)
  {
    HistoryIsRun(h, n);
    hide Step, WorldAfter, At;
  }

  // ------------------------------------------------------------------ the calls of a history

  /** `k` goes on from `h` with callbacks and sections of the calling thread only. */
  ghost predicate Sections(h: seq<Done>, k: seq<Done>) {
    h <= k && forall i | |h| <= i < |k| :: IsCallback(k[i].event) || k[i].event.Main?
  }

  /** `k` goes on from `h` with exactly one call. */
  ghost predicate OneCall(h: seq<Done>, k: seq<Done>, call: Call) {
    |h| < |k| && h <= k && k[|h|].event == Begin(call) && Sections(k[..|h| + 1], k)
  }

  function PacketOf(e: Event): seq<Packet> {
    if e.Begin? && e.call.packet.Some? then [e.call.packet.value] else []
  }

  /** The actions that `apply` was called with, in order. */
  function Applied(h: seq<Done>): seq<Packet> {
    if h == [] then [] else Applied(h[..|h| - 1]) + PacketOf(h[|h| - 1].event)
  }

  lemma {:induction false} SectionsApplyNothing(h: seq<Done>, k: seq<Done>)
    requires Sections(h, k)
    ensures Applied(k) == Applied(h)
    decreases |k|
  {
    if |h| < |k| {
      var init := k[..|k| - 1];
      assert Sections(h, init);
      SectionsApplyNothing(h, init);
      assert PacketOf(k[|k| - 1].event) == [];
    } else {
      assert h == k;
    }
  }

  lemma OneCallApplies(h: seq<Done>, k: seq<Done>, call: Call)
    requires OneCall(h, k, call)
    ensures Applied(k) == Applied(h) + PacketOf(Begin(call))
  {
    var begun := k[..|h| + 1];
    assert begun[..|h|] == h;
    SectionsApplyNothing(begun, k);
  }

  // ------------------------------------------------------------------ targets of a session

  ghost predicate BeganBefore(run: nat -> Event, n: nat, call: Call) {
    exists m: nat | m < n :: run(m) == Begin(call)
  }

  lemma PcOfCall(w: World, e: Event)
    requires HasPacket(w.pc)
    ensures var pc := Step(w, e).0.pc;
            !pc.Idle? ==> if w.pc.Idle? then e == Begin(pc.call) else pc.call == w.pc.call
  {
  }

  /** The call in progress was begun. */
  lemma {:induction false} CallWasBegun(run: nat -> Event, n: nat)
    ensures !At(run, n).pc.Idle? ==> BeganBefore(run, n, At(run, n).pc.call)
  {
    if n > 0 {
      CallWasBegun(run, n - 1);
      PcOfCall(At(run, n - 1), run(n - 1));
      AtNext(run, n - 1);
      hide At, Step;
      var pc, before := At(run, n).pc, At(run, n - 1).pc;
      if !pc.Idle? && !before.Idle? {
        var m: nat :| m < n - 1 && run(m) == Begin(before.call);
        assert run(m) == Begin(pc.call);
      } else if !pc.Idle? {
        assert run(n - 1) == Begin(pc.call);
      }
    }
  }

  /** A published joint target: inside the official limits, and near the feedback that admitted it. */
  ghost predicate TargetOk(call: Call, o: Output)
    requires o.JointTarget?
  {
    && WithinCeilings(call.config)
    && Within(o.target, LOWER, UPPER, 0.0)
    && Near(o.target, o.feedback, o.bound)
    && (o.bound == call.config.alignment <= MAX_ALIGNMENT
        || (!call.first && o.bound == call.config.maxStep <= MAX_STEP))
    && Within(o.feedback, LOWER, UPPER, MAX_FEEDBACK_TOLERANCE)
  }

  /** Every call of the history was made under a contract inside the ceilings. */
  ghost predicate CallsWithinCeilings(h: seq<Done>) {
    forall n | 0 <= n < |h| && h[n].event.Begin? :: WithinCeilings(h[n].event.call.config)
  }

  ghost predicate BegunIn(h: seq<Done>, n: nat, call: Call) {
    exists m: nat | m < n && m < |h| :: h[m].event == Begin(call)
  }

  ghost predicate TargetJustified(h: seq<Done>, n: nat)
    requires n < |h| && h[n].out.JointTarget?
  {
    var pc := WorldAfter(h[..n]).pc;
    && pc.PublishJoint? && BegunIn(h, n, pc.call) && TargetOk(pc.call, h[n].out)
    && AsksTargets(pc.call, h[n].out.target)
  }

  ghost predicate TargetsOk(h: seq<Done>) {
    forall n: nat | n < |h| && h[n].out.JointTarget? :: TargetJustified(h, n)
  }

  /** Whatever the interleaving, all joint targets of such a history are safe. */
  lemma TargetsAreOk(h: seq<Done>)
    requires Faithful(h) && CallsWithinCeilings(h)
    ensures TargetsOk(h)
  {
    forall n: nat | n < |h| && h[n].out.JointTarget? ensures TargetJustified(h, n) {
      TargetIsOk(h, n);
    }
  }

  lemma TargetIsOk(h: seq<Done>, n: nat)
    requires Faithful(h) && CallsWithinCeilings(h) && n < |h| && h[n].out.JointTarget?
    ensures TargetJustified(h, n)
  {
    var run := AsRun(h);
    HistoryIsRun(h, n);
    OutputsAreRun(h, n);
    PublishedIsAdmitted(run, n);
    CallWasBegun(run, n);
    var call := At(run, n).pc.call;
    var m: nat :| m < n && run(m) == Begin(call);
    assert h[m].event == Begin(call);
    assert BegunIn(h, n, call);
    TargetWasAsked(run, n);
    AdmittedIsOk(call, h[n].out);
  }

  lemma AdmittedIsOk(call: Call, o: Output)
    requires o.JointTarget? && WithinCeilings(call.config) && AdmittedTarget(call, o.target, o.feedback, o.bound)
    requires Within(o.feedback, call.config.jointMin, call.config.jointMax, call.config.feedbackTolerance)
    ensures TargetOk(call, o)
  {
  }

  /** A stroke was put out by a call of the history whose packet asks for it. */
  ghost predicate StrokeJustified(h: seq<Done>, n: nat)
    requires n < |h| && h[n].out.GripperStroke?
  {
    var pc := WorldAfter(h[..n]).pc;
    pc.PublishGripper? && BegunIn(h, n, pc.call) && AsksStroke(pc.call, h[n].out.mm)
  }

  ghost predicate StrokesOk(h: seq<Done>) {
    forall n: nat | n < |h| && h[n].out.GripperStroke? :: StrokeJustified(h, n)
  }

  /** Whatever the interleaving, every stroke of a faithful history was asked for, as a fraction of the range. */
  lemma StrokesAreAsked(h: seq<Done>)
    requires Faithful(h)
    ensures StrokesOk(h)
  {
    forall n: nat | n < |h| && h[n].out.GripperStroke? ensures StrokeJustified(h, n) {
      var run := AsRun(h);
      HistoryIsRun(h, n);
      OutputsAreRun(h, n);
      StrokeWasAsked(run, n);
      CallWasBegun(run, n);
      hide Step, At, OutputAt, WorldAfter, AsksStroke;
      var call := At(run, n).pc.call;
      var m: nat :| m < n && run(m) == Begin(call);
      assert h[m].event == Begin(call);
      assert BegunIn(h, n, call);
    }
  }
}
