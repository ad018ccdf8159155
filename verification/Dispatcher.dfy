/**
 * The heavy-lanes trigger against GitHub: at most one live run for a commit.
 *
 * A step is one API call of the (single) sweep, or something that happens on GitHub between two
 * calls: a push, a gate job's report, a run that finishes, is cancelled or is re-run.
 */
module Dispatcher {
  import opened Basics
  import opened Readiness

  type Sha = nat
  type Number = nat

  /** `Cancelling`: the gate job has reported the cancellation, the run is not marked cancelled yet. */
  datatype Phase = Active | Finished(conclusion: string) | Cancelling | Cancelled

  /**
   * A dispatched run: the commit it tests (the `sha` input) and the commit GitHub lists it under,
   * which is the branch tip, or for a fork a fresh commit that is no pull request's head.
   */
  datatype Run = Run(target: Sha, listedUnder: Option<Sha>, phase: Phase)

  datatype Pull = Pull(head: Sha, sameRepo: bool)

  /** Where the sweep is with the pull request it is handling; `head` is the commit being judged. */
  datatype Pc =
    | Rest
    | ReadStatus(number: Number, head: Sha)
    | ReadRuns(number: Number, head: Sha, own: Option<CommitStatus>)
    | Judge(number: Number, head: Sha, own: Option<CommitStatus>, runs: seq<LaneRun>)
    | Report(head: Sha, status: CommitStatus)
    | Recheck(number: Number, head: Sha)
    | Dispatch(number: Number, head: Sha)
    | PostRunning(head: Sha, run: nat)

  datatype World = World(pulls: map<Number, Pull>, statuses: map<Sha, CommitStatus>, runs: seq<Run>, pc: Pc)

  datatype DispatchOutcome = Rejected | Created | CreatedButFailed

  datatype Event =
    | Push(number: Number, pull: Pull)
    | GateReports(run: nat, passed: bool)
    | RunFinishes(run: nat, conclusion: string)
    | GateReportsCancel(run: nat)
    | RunCancelled(run: nat)
    | Rerun(run: nat)
    | Consider(number: Number, head: Sha)
    | Fails
    | Reads
    | Judges(factsReady: bool, why: string)
    | Posts(landed: bool)
    | Dispatches(outcome: DispatchOutcome)

  // ------------------------------------------------------------------ what GitHub shows

  function OwnOf(w: World, c: Sha): Option<CommitStatus> {
    if c in w.statuses then Some(w.statuses[c]) else None
  }

  function ViewOf(r: Run): LaneRun {
    match r.phase
    case Active => LaneRun("in_progress", None)
    case Cancelling => LaneRun("in_progress", None)
    case Finished(conclusion) => LaneRun("completed", Some(conclusion))
    case Cancelled => LaneRun("completed", Some("cancelled"))
  }

  /** The dispatched runs GitHub lists for head commit `c`. */
  function ListedRuns(runs: seq<Run>, c: Sha): (r: seq<LaneRun>)
    ensures (exists x <- r :: RunSaysStarted(x)) <==>
            exists run <- runs :: run.listedUnder == Some(c) && RunSaysStarted(ViewOf(run))
  {
    if runs == [] then []
    else (if runs[0].listedUnder == Some(c) then [ViewOf(runs[0])] else []) + ListedRuns(runs[1..], c)
  }

  // ------------------------------------------------------------------ steps

  function Posted(w: World, c: Sha, state: string, description: string): World {
    w.(statuses := w.statuses[c := CommitStatus(STATUS_CONTEXT, state, description)])
  }

  function WithPhase(w: World, i: nat, phase: Phase): World
    requires i < |w.runs|
  {
    w.(runs := w.runs[i := w.runs[i].(phase := phase)])
  }

  /** The finished, not cancelled runs among those listed, as `_report_waiting` picks them. */
  function FirstConclusion(runs: seq<LaneRun>): Option<string> {
    if runs == [] then None
    else if runs[0].status == "completed" && runs[0].conclusion.Some?
        && runs[0].conclusion.value !in {"cancelled", ""} then
      runs[0].conclusion
    else FirstConclusion(runs[1..])
  }

  /** `str.capitalize`, for the lower-case conclusions GitHub reports. */
  function Capitalized(s: string): string {
    if s != "" && 'a' <= s[0] <= 'z' then [s[0] - 'a' + 'A'] + s[1..] else s
  }

  function Truncated(s: string): string {
    if |s| <= STATUS_DESCRIPTION_MAX then s else s[..STATUS_DESCRIPTION_MAX]
  }

  /** `_report_waiting`: the status to post, if any. */
  function WaitingReport(own: Option<CommitStatus>, runs: seq<LaneRun>, why: string): Option<CommitStatus> {
    if Started(runs, own) then
      if own.None? && FirstConclusion(runs).Some? then
        var done := FirstConclusion(runs).value;
        Some(CommitStatus(STATUS_CONTEXT, if done == "success" then "success" else "failure",
                          Truncated(Capitalized(done) + " (backfilled from the run)")))
      else None
    else
      var description := Truncated(WAITING + why);
      if own.None? || own.value.description != description then
        Some(CommitStatus(STATUS_CONTEXT, "pending", description))
      else None
  }

  function NewRun(w: World, number: Number, head: Sha): Run
    requires number in w.pulls
  {
    Run(head, if w.pulls[number].sameRepo then Some(w.pulls[number].head) else None, Active)
  }

  function SweepStep(w: World, e: Event): World {
    match (w.pc, e)
    case (Rest, Consider(n, head)) => if n in w.pulls then w.(pc := ReadStatus(n, head)) else w
    case (ReadStatus(n, head), Reads) => w.(pc := ReadRuns(n, head, OwnOf(w, head)))
    case (ReadRuns(n, head, own), Reads) => w.(pc := Judge(n, head, own, ListedRuns(w.runs, head)))
    case (Judge(n, head, own, runs), Judges(factsReady, why)) =>
      if factsReady && !Started(runs, own) then w.(pc := Recheck(n, head))
      else
        var report := WaitingReport(own, runs, why);
        if report.Some? then w.(pc := Report(head, report.value)) else w.(pc := Rest)
    case (Report(head, s), Posts(landed)) =>
      (if landed then Posted(w, head, s.state, s.description) else w).(pc := Rest)
    case (Recheck(n, head), Reads) =>
      if n in w.pulls && w.pulls[n].head == head then w.(pc := Dispatch(n, head)) else w.(pc := Rest)
    case (Dispatch(n, head), Dispatches(outcome)) =>
      if outcome.Rejected? || n !in w.pulls then w.(pc := Rest)
      else w.(runs := w.runs + [NewRun(w, n, head)],
              pc := if outcome.Created? then PostRunning(head, |w.runs|) else Rest)
    case (PostRunning(head, run), Posts(landed)) =>
      (if landed then Posted(w, head, "pending", RUNNING + " — dispatched by heavy-lanes-trigger")
       else w).(pc := Rest)
    case (_, Fails) => if w.pc.PostRunning? then w else w.(pc := Rest)
    case _ => w
  }

  /** One API call of the sweep or one event on GitHub; an event that is not possible does nothing. */
  function Step(w: World, e: Event): World {
    match e
    case Push(n, pull) => w.(pulls := w.pulls[n := pull])
    case GateReports(i, passed) =>
      if i < |w.runs| && w.runs[i].phase.Active? then
        if passed then Posted(w, w.runs[i].target, "success", "Passed")
        else Posted(w, w.runs[i].target, "failure", "Failed — open Details for the failing lane")
      else w
    case RunFinishes(i, conclusion) =>
      if i < |w.runs| && w.runs[i].phase.Active? && conclusion != "cancelled"
          then WithPhase(w, i, Finished(conclusion)) else w
    case GateReportsCancel(i) =>
      if i < |w.runs| && w.runs[i].phase.Active? then
        Posted(WithPhase(w, i, Cancelling), w.runs[i].target, "error",
            "Cancelled — heavy-lanes-trigger starts it again")
      else w
    case RunCancelled(i) =>
      if i < |w.runs| && (w.runs[i].phase.Active? || w.runs[i].phase.Cancelling?) then WithPhase(w, i, Cancelled) else w
    case Rerun(i) =>
      if i < |w.runs| && Live(w.runs[i]) then WithPhase(w, i, Active) else w
    case _ => SweepStep(w, e)
  }

  function After(w: World, es: seq<Event>): World
    decreases |es|
  {
    if es == [] then w else After(Step(w, es[0]), es[1..])
  }

  // ------------------------------------------------------------------ the claim

  /** Running, or finished with any conclusion but `cancelled`. */
  predicate Live(r: Run) {
    r.phase.Active? || (r.phase.Finished? && r.phase.conclusion != "cancelled")
  }

  /** Run `i` is live and tests commit `c`. */
  predicate LiveFor(w: World, i: nat, c: Sha) {
    i < |w.runs| && Live(w.runs[i]) && w.runs[i].target == c
  }

  /** No commit has two dispatched runs that are not cancelled. */
  ghost predicate AtMostOne(w: World) {
    forall c: Sha, i: nat, j: nat :: LiveFor(w, i, c) && LiveFor(w, j, c) ==> i == j
  }

  /** A later sweep can see the run: it is listed under the commit it tests, or that commit's status says so. */
  predicate Witnessed(w: World, i: nat)
    requires i < |w.runs|
  {
    w.runs[i].listedUnder == Some(w.runs[i].target) || StatusSaysStarted(OwnOf(w, w.runs[i].target))
  }

  ghost predicate AllWitnessed(w: World) {
    forall i: nat :: i < |w.runs| && Live(w.runs[i]) ==> Witnessed(w, i)
  }

  /**
   * The step leaves no unseen run behind: a dispatch whose answer is lost, or whose "Running"
   * status is lost, was at least listed under the commit it tests.
   */
  predicate LeavesTrace(w: World, e: Event) {
    match (w.pc, e)
    case (Dispatch(n, head), Dispatches(outcome)) =>
      outcome.CreatedButFailed? && n in w.pulls ==> NewRun(w, n, head).listedUnder == Some(head)
    case (PostRunning(head, run), Posts(landed)) =>
      landed || (run < |w.runs| ==> w.runs[run].listedUnder == Some(head))
    case _ => true
  }

  predicate AllLeaveTrace(w: World, es: seq<Event>)
    decreases |es|
  {
    es == [] || (LeavesTrace(w, es[0]) && AllLeaveTrace(Step(w, es[0]), es[1..]))
  }

  // ------------------------------------------------------------------ the invariant

  ghost predicate NoLive(w: World, c: Sha) {
    forall i: nat :: !LiveFor(w, i, c)
  }

  ghost predicate OnlyListed(w: World, c: Sha) {
    forall i: nat :: LiveFor(w, i, c) ==> w.runs[i].listedUnder == Some(c)
  }

  /** What the sweep has read so far is still true enough: a commit it takes for not started has no live run. */
  ghost predicate PcSound(w: World) {
    match w.pc
    case ReadRuns(_, c, own) => !StatusSaysStarted(own) ==> OnlyListed(w, c)
    case Judge(_, c, own, runs) => !Started(runs, own) ==> NoLive(w, c)
    case Report(c, s) => !StatusSaysStarted(Some(s)) ==> NoLive(w, c)
    case Recheck(_, c) => NoLive(w, c)
    case Dispatch(_, c) => NoLive(w, c)
    case _ => true
  }

  /** Every live run is witnessed, but for the one whose status is about to be posted. */
  ghost predicate WitnessedButPending(w: World) {
    forall i: nat :: i < |w.runs| && Live(w.runs[i]) && w.pc != PostRunning(w.runs[i].target, i) ==> Witnessed(w, i)
  }

  ghost predicate PendingSound(w: World) {
    w.pc.PostRunning? ==> w.pc.run < |w.runs| && w.runs[w.pc.run].target == w.pc.head
  }

  ghost predicate Inv(w: World) {
    AtMostOne(w) && WitnessedButPending(w) && PcSound(w) && PendingSound(w)
  }

  // ------------------------------------------------------------------ every step keeps it

  lemma ListedSaysStarted(w: World, c: Sha)
    requires OnlyListed(w, c) && !(exists x <- ListedRuns(w.runs, c) :: RunSaysStarted(x))
    ensures NoLive(w, c)
  {
    forall i: nat ensures !LiveFor(w, i, c) {
      if LiveFor(w, i, c) {
        assert w.runs[i] in w.runs && RunSaysStarted(ViewOf(w.runs[i]));
      }
    }
  }

  lemma PhaseKeeps(w: World, i: nat, phase: Phase)
    requires Inv(w) && i < |w.runs|
    requires Live(w.runs[i].(phase := phase)) ==> Live(w.runs[i])
    ensures Inv(WithPhase(w, i, phase))
  {
    var v := WithPhase(w, i, phase);
    assert forall j: nat, c: Sha :: LiveFor(v, j, c) ==> LiveFor(w, j, c);
    assert forall j: nat | j < |w.runs| ::
        v.runs[j].target == w.runs[j].target && v.runs[j].listedUnder == w.runs[j].listedUnder;
    forall j: nat | j < |v.runs| && Live(v.runs[j]) && v.pc != PostRunning(v.runs[j].target, j)
        ensures Witnessed(v, j) {
      assert Live(w.runs[j]);
    }
  }

  /** A status may be overwritten by one that says "started", or when its commit has no live run. */
  lemma PostKeeps(w: World, c: Sha, state: string, description: string)
    requires Inv(w)
    requires StatusSaysStarted(Some(CommitStatus(STATUS_CONTEXT, state, description))) || NoLive(w, c)
    ensures Inv(Posted(w, c, state, description))
  {
    var v := Posted(w, c, state, description);
    assert forall j: nat, d: Sha :: LiveFor(v, j, d) <==> LiveFor(w, j, d);
    forall j: nat | j < |v.runs| && Live(v.runs[j]) && v.pc != PostRunning(v.runs[j].target, j)
        ensures Witnessed(v, j) {
      assert LiveFor(w, j, w.runs[j].target);
      assert Witnessed(w, j);
    }
  }

  lemma CancelLeavesNone(w: World, i: nat, phase: Phase)
    requires AtMostOne(w) && i < |w.runs| && Live(w.runs[i]) && !Live(w.runs[i].(phase := phase))
    ensures NoLive(WithPhase(w, i, phase), w.runs[i].target)
  {
    var v, c := WithPhase(w, i, phase), w.runs[i].target;
    forall j: nat ensures !LiveFor(v, j, c) {
      if LiveFor(v, j, c) {
        assert LiveFor(w, j, c) && LiveFor(w, i, c);
      }
    }
  }

  lemma GitHubKeeps(w: World, e: Event)
    requires Inv(w) && (e.Push? || e.GateReports? || e.RunFinishes? || e.GateReportsCancel? || e.RunCancelled?
            || e.Rerun?)
    ensures Inv(Step(w, e))
  {
    if e.Push? || e.run >= |w.runs| {
      SameRunsKeep(w, Step(w, e));
    } else {
      var i := e.run;
      match e
      case GateReports(_, passed) =>
        if w.runs[i].phase.Active? {
          PostKeeps(w, w.runs[i].target, if passed then "success" else "failure",
                    if passed then "Passed" else "Failed — open Details for the failing lane");
        }
      case RunFinishes(_, conclusion) =>
          PhaseKeeps(w, i, if w.runs[i].phase.Active? then Finished(conclusion) else w.runs[i].phase);
      case GateReportsCancel(_) =>
        if w.runs[i].phase.Active? {
          PhaseKeeps(w, i, Cancelling);
          CancelLeavesNone(w, i, Cancelling);
          PostKeeps(WithPhase(w, i, Cancelling), w.runs[i].target, "error",
              "Cancelled — heavy-lanes-trigger starts it again");
        }
      case RunCancelled(_) => PhaseKeeps(w, i, Cancelled);
      case Rerun(_) => PhaseKeeps(w, i, if Live(w.runs[i]) then Active else w.runs[i].phase);
    }
  }

  lemma SameRunsKeep(w: World, v: World)
    requires Inv(w) && v.runs == w.runs && v.statuses == w.statuses && v.pc == w.pc
    ensures Inv(v)
  {
    assert forall j: nat, d: Sha :: LiveFor(v, j, d) <==> LiveFor(w, j, d);
    assert forall j: nat | j < |w.runs| :: Witnessed(v, j) <==> Witnessed(w, j);
  }

  /** Moving on without a live pending run: the invariant needs the new program counter to be sound. */
  lemma MoveKeeps(w: World, pc: Pc)
    requires AtMostOne(w) && AllWitnessed(w) && PcSound(w.(pc := pc)) && !pc.PostRunning?
    ensures Inv(w.(pc := pc))
  {
    var v := w.(pc := pc);
    assert forall j: nat, d: Sha :: LiveFor(v, j, d) <==> LiveFor(w, j, d);
    assert forall j: nat | j < |w.runs| :: Witnessed(v, j) <==> Witnessed(w, j);
  }

  lemma SettledIsWitnessed(w: World)
    requires Inv(w) && !w.pc.PostRunning?
    ensures AllWitnessed(w)
  {
  }

  lemma ReadingKeeps(w: World, e: Event)
    requires Inv(w) && !w.pc.PostRunning? && !w.pc.Dispatch? && !w.pc.Report?
    requires e.Consider? || e.Reads? || e.Judges? || e.Fails?
    ensures Inv(Step(w, e))
  {
    var v := Step(w, e);
    SettledIsWitnessed(w);
    match w.pc {
      case ReadStatus(n, c) =>
        forall i: nat | LiveFor(w, i, c) && !StatusSaysStarted(OwnOf(w, c)) ensures w.runs[i].listedUnder == Some(c) {
          assert Witnessed(w, i);
        }
      case ReadRuns(n, c, own) =>
        if !StatusSaysStarted(own) && !(exists x <- ListedRuns(w.runs, c) :: RunSaysStarted(x)) {
          ListedSaysStarted(w, c);
        }
      case _ =>
    }
    assert v == w.(pc := v.pc);
    assert forall i: nat, c: Sha :: LiveFor(v, i, c) <==> LiveFor(w, i, c);
    MoveKeeps(w, v.pc);
  }

  lemma PostingKeeps(w: World, landed: bool)
    requires Inv(w) && (w.pc.PostRunning? || w.pc.Report?) && LeavesTrace(w, Posts(landed))
    ensures Inv(Step(w, Posts(landed)))
  {
    match w.pc
    case Report(c, s) =>
      SettledIsWitnessed(w);
      if landed {
        PostKeeps(w, c, s.state, s.description);
        SettledIsWitnessed(Posted(w, c, s.state, s.description));
        MoveKeeps(Posted(w, c, s.state, s.description), Rest);
      } else {
        MoveKeeps(w, Rest);
      }
    case PostRunning(c, i) =>
      var text := RUNNING + " — dispatched by heavy-lanes-trigger";
      var v := if landed then Posted(w, c, "pending", text) else w;
      if landed {
        PostKeeps(w, c, "pending", text);
        assert OwnOf(v, c) == Some(CommitStatus(STATUS_CONTEXT, "pending", text));
      }
      assert Witnessed(v, i);
      MoveKeeps(v, Rest);
  }

  lemma DispatchKeeps(w: World, outcome: DispatchOutcome)
    requires Inv(w) && w.pc.Dispatch? && LeavesTrace(w, Dispatches(outcome))
    ensures Inv(Step(w, Dispatches(outcome)))
  {
    var (n, c) := (w.pc.number, w.pc.head);
    SettledIsWitnessed(w);
    if outcome.Rejected? || n !in w.pulls {
      MoveKeeps(w, Rest);
    } else {
      var v, k := Step(w, Dispatches(outcome)), |w.runs|;
      assert v.runs[k] == NewRun(w, n, c) && v.runs[..k] == w.runs;
      assert forall j: nat | j < k :: v.runs[j] == w.runs[j];
      assert forall j: nat, d: Sha :: LiveFor(v, j, d) ==> LiveFor(w, j, d) || (j == k && d == c);
      forall j: nat | j < |v.runs| && Live(v.runs[j]) && v.pc != PostRunning(v.runs[j].target, j)
          ensures Witnessed(v, j) {
        if j < k {
          assert Witnessed(w, j);
        }
      }
    }
  }

  lemma StepKeeps(w: World, e: Event)
    requires Inv(w) && LeavesTrace(w, e)
    ensures Inv(Step(w, e))
  {
    if e.Push? || e.GateReports? || e.RunFinishes? || e.GateReportsCancel? || e.RunCancelled? || e.Rerun? {
      GitHubKeeps(w, e);
    } else if w.pc.Dispatch? && e.Dispatches? {
      DispatchKeeps(w, e.outcome);
    } else if (w.pc.PostRunning? || w.pc.Report?) && e.Posts? {
      PostingKeeps(w, e.landed);
    } else if (w.pc.Dispatch? || w.pc.Report?) && e.Fails? {
      SettledIsWitnessed(w);
      MoveKeeps(w, Rest);
    } else if !w.pc.PostRunning? && !w.pc.Dispatch? && !w.pc.Report?
        && (e.Consider? || e.Reads? || e.Judges? || e.Fails?) {
      ReadingKeeps(w, e);
    } else {
      assert Step(w, e) == w;
    }
  }

  /** From a world without unseen runs, no run of sweeps and GitHub events puts two live runs on one commit. */
  lemma {:induction false} NeverTwice(w: World, es: seq<Event>)
    requires Inv(w) && AllLeaveTrace(w, es)
    ensures Inv(After(w, es)) && AtMostOne(After(w, es))
    decreases |es|
  {
    if es != [] {
      StepKeeps(w, es[0]);
      NeverTwice(Step(w, es[0]), es[1..]);
    }
  }

  // ------------------------------------------------------------------ and only then

  /** No run listed under `c` would stop a dispatch any more. */
  ghost predicate Unshielded(w: World, c: Sha, n: nat) {
    forall j: nat | j < n && j < |w.runs| && w.runs[j].listedUnder == Some(c) :: !RunSaysStarted(ViewOf(w.runs[j]))
  }

  /** The two worlds differ only in the phases of runs listed under `c`. */
  ghost predicate DiffersUnder(w: World, v: World, c: Sha) {
    && v.pulls == w.pulls && v.statuses == w.statuses && v.pc == w.pc && |v.runs| == |w.runs|
    && forall j: nat | j < |w.runs| ::
         && v.runs[j].listedUnder == w.runs[j].listedUnder && v.runs[j].target == w.runs[j].target
         && (w.runs[j].listedUnder != Some(c) ==> v.runs[j] == w.runs[j])
  }

  lemma {:induction false} AfterConcat(w: World, a: seq<Event>, b: seq<Event>)
    ensures After(w, a + b) == After(After(w, a), b)
    ensures AllLeaveTrace(w, a) && AllLeaveTrace(After(w, a), b) ==> AllLeaveTrace(w, a + b)
    decreases |a|
  {
    if a == [] {
      assert a + b == b;
    } else {
      assert (a + b)[1..] == a[1..] + b;
      AfterConcat(Step(w, a[0]), a[1..], b);
    }
  }

  lemma CancelOne(v: World, c: Sha, i: nat) returns (es: seq<Event>)
    requires v.pc.Rest? && i < |v.runs| && v.runs[i].listedUnder == Some(c) && RunSaysStarted(ViewOf(v.runs[i]))
    ensures AllLeaveTrace(v, es)
    ensures After(v, es) == v.(runs := v.runs[i := v.runs[i].(phase := Cancelled)])
  {
    // A finished run is re-run before it can be cancelled; for any other the re-run does nothing.
    es := [Rerun(i), RunCancelled(i)];
    var u := Step(v, es[0]);
    assert u.runs[i].phase.Active? || u.runs[i].phase.Cancelling?;
    var t := Step(u, es[1]);
    assert es[1..] == [es[1]] && [es[1]][1..] == [];
    assert After(v, es) == After(u, [es[1]]) == After(t, []) == t;
    assert AllLeaveTrace(t, []) && AllLeaveTrace(u, [es[1]]) && AllLeaveTrace(v, es);
    assert t.runs == v.runs[i := v.runs[i].(phase := Cancelled)];
  }

  /** Cancellations alone can remove every run listed under `c` from a dispatcher's sight. */
  lemma {:induction false} CancelListed(w: World, c: Sha, n: nat) returns (es: seq<Event>)
    requires n <= |w.runs| && w.pc.Rest?
    ensures AllLeaveTrace(w, es) && DiffersUnder(w, After(w, es), c) && Unshielded(After(w, es), c, n)
    decreases n
  {
    if n == 0 {
      es := [];
    } else {
      var before := CancelListed(w, c, n - 1);
      var v, i := After(w, before), n - 1;
      if v.runs[i].listedUnder == Some(c) && RunSaysStarted(ViewOf(v.runs[i])) {
        var two := CancelOne(v, c, i);
        AfterConcat(w, before, two);
        es := before + two;
      } else {
        es := before;
      }
    }
  }

  lemma UnshieldedIff(w: World, c: Sha)
    ensures !Started(ListedRuns(w.runs, c), OwnOf(w, c)) <==>
            !StatusSaysStarted(OwnOf(w, c)) && Unshielded(w, c, |w.runs|)
  {
    forall run | run in w.runs && run.listedUnder == Some(c) && Unshielded(w, c, |w.runs|)
      ensures !RunSaysStarted(ViewOf(run))
    {
      var j :| 0 <= j < |w.runs| && w.runs[j] == run;
    }
  }

  const SWEEP: seq<Event> := [Reads, Reads, Judges(true, ""), Reads, Dispatches(Created)]

  /** With no sign of its run, a commit is dispatched again by the next sweep that finds it ready. */
  lemma SweepDispatchesAgain(w: World, c: Sha)
    requires w.pc == ReadStatus(0, c) && 0 in w.pulls && w.pulls[0] == Pull(c, false)
    requires !StatusSaysStarted(OwnOf(w, c)) && Unshielded(w, c, |w.runs|)
    ensures AllLeaveTrace(w, SWEEP)
    ensures After(w, SWEEP).runs == w.runs + [Run(c, None, Active)]
  {
    ReachesRecheck(w, c);
    FiveSteps(w, SWEEP);
    hide Step, After, AllLeaveTrace;
    DispatchesFork(w, c);
  }

  lemma ReachesRecheck(w: World, c: Sha)
    requires w.pc == ReadStatus(0, c)
    requires !StatusSaysStarted(OwnOf(w, c)) && Unshielded(w, c, |w.runs|)
    ensures Step(Step(Step(w, Reads), Reads), Judges(true, "")) == w.(pc := Recheck(0, c))
  {
    UnshieldedIff(w, c);
    hide Started, StatusSaysStarted, ListedRuns, WaitingReport, Unshielded;
    var own, runs := OwnOf(w, c), ListedRuns(w.runs, c);
    var w1 := Step(w, Reads);
    assert w1 == w.(pc := ReadRuns(0, c, own));
    var w2 := Step(w1, Reads);
    assert w2 == w.(pc := Judge(0, c, own, runs));
  }

  lemma DispatchesFork(w: World, c: Sha)
    requires 0 in w.pulls && w.pulls[0] == Pull(c, false)
    ensures var ready := w.(pc := Recheck(0, c));
            && LeavesTrace(Step(ready, Reads), Dispatches(Created))
            && Step(Step(ready, Reads), Dispatches(Created)).runs == w.runs + [Run(c, None, Active)]
  {
  }

  lemma FiveSteps(w: World, es: seq<Event>)
    requires |es| == 5
    ensures var w1 := Step(w, es[0]);
            var w2 := Step(w1, es[1]);
            var w3 := Step(w2, es[2]);
            var w4 := Step(w3, es[3]);
            && After(w, es) == Step(w4, es[4])
            && (AllLeaveTrace(w, es) <==>
                  LeavesTrace(w, es[0]) && LeavesTrace(w1, es[1]) && LeavesTrace(w2, es[2]) && LeavesTrace(w3, es[3])
                  && LeavesTrace(w4, es[4]))
  {
    var w1 := Step(w, es[0]);
    var w2 := Step(w1, es[1]);
    var w3 := Step(w2, es[2]);
    var w4 := Step(w3, es[3]);
    assert es[1..][0] == es[1] && es[1..][1..] == es[2..] && es[2..][0] == es[2] && es[2..][1..] == es[3..];
    assert es[3..][0] == es[3] && es[3..][1..] == es[4..] && es[4..][0] == es[4] && es[4..][1..] == [];
    assert After(w, es) == After(w1, es[1..]) == After(w2, es[2..]) == After(w3, es[3..]) == After(w4, es[4..]);
    assert AllLeaveTrace(w4, es[4..]) <==> LeavesTrace(w4, es[4]);
    assert AllLeaveTrace(w3, es[3..]) <==> LeavesTrace(w3, es[3]) && AllLeaveTrace(w4, es[4..]);
    assert AllLeaveTrace(w2, es[2..]) <==> LeavesTrace(w2, es[2]) && AllLeaveTrace(w3, es[3..]);
    assert AllLeaveTrace(w1, es[1..]) <==> LeavesTrace(w1, es[1]) && AllLeaveTrace(w2, es[2..]);
  }

  /** An unseen live run can be doubled, even if every later step leaves a trace. */
  lemma UnseenRunIsDoubled(w: World, i: nat) returns (es: seq<Event>)
    requires w.pc.Rest? && i < |w.runs| && Live(w.runs[i]) && !Witnessed(w, i)
    ensures AllLeaveTrace(w, es) && !AtMostOne(After(w, es))
  {
    var c := w.runs[i].target;
    var clear := CancelListed(w, c, |w.runs|);
    var v := After(w, clear);
    var start := [Push(0, Pull(c, false)), Consider(0, c)];
    var u := v.(pulls := v.pulls[0 := Pull(c, false)], pc := ReadStatus(0, c));
    var v1 := Step(v, start[0]);
    assert start[1..] == [start[1]] && [start[1]][1..] == [];
    assert After(v, start) == After(v1, [start[1]]) == After(Step(v1, start[1]), []) == u;
    assert AllLeaveTrace(u, []) && AllLeaveTrace(v1, [start[1]]) && AllLeaveTrace(v, start);
    assert forall j: nat | j < |u.runs| :: u.runs[j] == v.runs[j];
    SweepDispatchesAgain(u, c);
    AfterConcat(v, start, SWEEP);
    AfterConcat(w, clear, start + SWEEP);
    es := clear + (start + SWEEP);
    var end := After(w, es);
    assert end.runs == u.runs + [Run(c, None, Active)];
    assert end.runs[i] == w.runs[i] && end.runs[|w.runs|] == Run(c, None, Active);
    assert LiveFor(end, i, c) && LiveFor(end, |w.runs|, c);
  }

  /**
   * Between pull requests, a world is safe from double dispatch for ever, as long as later steps
   * leave a trace, exactly when every live run can be seen by a later sweep.
   */
  lemma SafeForeverIffWitnessed(w: World)
    requires w.pc.Rest? && AtMostOne(w)
    ensures AllWitnessed(w) <==> forall es :: AllLeaveTrace(w, es) ==> AtMostOne(After(w, es))
  {
    if AllWitnessed(w) {
      forall es | AllLeaveTrace(w, es) ensures AtMostOne(After(w, es)) {
        NeverTwice(w, es);
      }
    } else {
      var i: nat :| i < |w.runs| && Live(w.runs[i]) && !Witnessed(w, i);
      var es := UnseenRunIsDoubled(w, i);
    }
  }

  // ------------------------------------------------------------------ when a dispatch leaves a trace

  /**
   * A same-repository run started while the branch tip is still the judged commit leaves a trace
   * even if every answer and status is lost; for any other run the "Running" status has to land.
   */
  lemma TraceOfDispatch(w: World, landed: bool)
    requires w.pc.Dispatch? && w.pc.number in w.pulls
    ensures var c, v := w.pc.head, Step(w, Dispatches(Created));
            && LeavesTrace(w, Dispatches(Created)) && v.pc == PostRunning(c, |w.runs|)
            && (LeavesTrace(v, Posts(landed)) <==>
                  landed || (w.pulls[w.pc.number].sameRepo && w.pulls[w.pc.number].head == c))
  {
  }

  /** A fork's lost "Running" status makes the lanes start twice: the run is listed under no head commit. */
  lemma ForkLostStatusStartsTwice(w: World) returns (es: seq<Event>)
    requires w.pc.PostRunning? && w.pc.run < |w.runs| && w.runs[w.pc.run] == Run(w.pc.head, None, Active)
    requires !StatusSaysStarted(OwnOf(w, w.pc.head))
    ensures !AtMostOne(After(Step(w, Posts(false)), es))
  {
    var v := Step(w, Posts(false));
    assert !Witnessed(v, w.pc.run);
    es := UnseenRunIsDoubled(v, w.pc.run);
  }

  /** A commit is dispatched again once all its listed runs and its status say "cancelled", and only then. */
  lemma RetriedIffNothingStarted(w: World, why: string)
    requires w.pc.ReadStatus?
    ensures var c := w.pc.head;
            After(w, [Reads, Reads, Judges(true, why)]).pc == Recheck(w.pc.number, c) <==>
            !StatusSaysStarted(OwnOf(w, c)) && Unshielded(w, c, |w.runs|)
  {
    var c, es := w.pc.head, [Reads, Reads, Judges(true, why)];
    var w1 := Step(w, es[0]);
    var w2 := Step(w1, es[1]);
    assert es[1..] == [es[1], es[2]] && es[1..][1..] == [es[2]] && es[1..][1..][1..] == [];
    assert After(w, es) == After(w1, es[1..]) == After(w2, [es[2]]) == Step(w2, es[2]);
    UnshieldedIff(w, c);
  }

  // ------------------------------------------------------------------ a report that comes before "Running"

  predicate SweepOrPush(e: Event) {
    e.Push? || e.Consider? || e.Fails? || e.Reads? || e.Judges? || e.Posts? || e.Dispatches?
  }

  /** Commit `c` reads "Running", and the sweep is not about to change that. */
  ghost predicate Stranded(w: World, c: Sha, s: CommitStatus) {
    && OwnOf(w, c) == Some(s) && RUNNING <= s.description && s.state == "pending"
    && match w.pc
       case ReadRuns(_, d, own) => d == c ==> own == Some(s)
       case Judge(_, d, own, _) => d == c ==> own == Some(s)
       case Report(d, _) => d != c
       case Recheck(_, d) => d != c
       case Dispatch(_, d) => d != c
       case PostRunning(d, _) => d != c
       case _ => true
  }

  lemma {:induction false} StrandedStays(w: World, c: Sha, s: CommitStatus, es: seq<Event>)
    requires Stranded(w, c, s) && forall e <- es :: SweepOrPush(e)
    ensures Stranded(After(w, es), c, s)
    decreases |es|
  {
    if es != [] {
      assert es[0] in es;
      StrandedStays(Step(w, es[0]), c, s, es[1..]);
    }
  }

  /**
   * If the run finishes and its gate reports before the sweep posts "Running", the late post
   * overwrites the result, passed or failed, and no later sweep corrects it: the commit stays pending.
   */
  lemma LatePostStrands(w: World, passed: bool, es: seq<Event>)
    requires w.pc.PostRunning? && w.pc.run < |w.runs|
            && w.runs[w.pc.run] == Run(w.pc.head, w.runs[w.pc.run].listedUnder, Active)
    requires forall e <- es :: SweepOrPush(e)
    ensures var c := w.pc.head;
            var reported := Step(Step(w, GateReports(w.pc.run, passed)), RunFinishes(w.pc.run, Verdict(passed)));
            && OwnOf(reported, c).Some? && OwnOf(reported, c).value.state == Verdict(passed)
            && var end := After(Step(reported, Posts(true)), es);
               OwnOf(end, c).Some? && OwnOf(end, c).value.state == "pending"
  {
    var c, i := w.pc.head, w.pc.run;
    var w1 := Step(w, GateReports(i, passed));
    var w2 := Step(w1, RunFinishes(i, Verdict(passed)));
    var s := CommitStatus(STATUS_CONTEXT, "pending", RUNNING + " — dispatched by heavy-lanes-trigger");
    var w3 := Step(w2, Posts(true));
    assert w3.statuses == w2.statuses[c := s];
    StrandedStays(w3, c, s, es);
  }

  function Verdict(passed: bool): string {
    if passed then "success" else "failure"
  }

  predicate ResultState(state: string) {
    state in {"success", "failure"}
  }

  /** The commit's status is a result. */
  predicate HasResult(w: World, c: Sha) {
    OwnOf(w, c).Some? && ResultState(OwnOf(w, c).value.state)
  }

  /** The sweep is not about to post anything but a result on the commit. */
  predicate NothingElsePending(w: World, c: Sha) {
    match w.pc
    case PostRunning(d, _) => d != c
    case Report(d, s) => d == c ==> ResultState(s.state)
    case _ => true
  }

  ghost predicate AllSweepOrPush(es: seq<Event>) {
    forall e <- es :: SweepOrPush(e)
  }

  lemma ResultStep(w: World, c: Sha, i: nat, e: Event)
    requires Inv(w) && LiveFor(w, i, c) && HasResult(w, c) && NothingElsePending(w, c) && SweepOrPush(e)
    ensures var v := Step(w, e); LiveFor(v, i, c) && HasResult(v, c) && NothingElsePending(v, c)
  {
    match w.pc
    case Judge(_, d, own, runs) => assert d == c ==> Started(runs, own);
    case Dispatch(_, d) => assert d != c;
    case _ =>
  }

  lemma {:induction false} ResultStays(w: World, c: Sha, i: nat, es: seq<Event>)
    requires Inv(w) && LiveFor(w, i, c) && HasResult(w, c) && NothingElsePending(w, c)
    requires AllSweepOrPush(es) && AllLeaveTrace(w, es)
    ensures HasResult(After(w, es), c)
    decreases |es|, 1
  {
    if es != [] {
      assert SweepOrPush(es[0]);
      StepKeeps(w, es[0]);
      ResultStep(w, c, i, es[0]);
      hide *;
      ResultStaysRest(w, c, i, es);
    }
  }

  lemma {:induction false} ResultStaysRest(w: World, c: Sha, i: nat, es: seq<Event>)
    requires es != [] && AllSweepOrPush(es) && AllLeaveTrace(w, es)
    requires var v := Step(w, es[0]); Inv(v) && LiveFor(v, i, c) && HasResult(v, c) && NothingElsePending(v, c)
    ensures HasResult(After(w, es), c)
    decreases |es|, 0
  {
    hide Inv, Step, LeavesTrace, HasResult, NothingElsePending;
    ResultStays(Step(w, es[0]), c, i, es[1..]);
  }

  /**
   * A reported result survives every later sweep and push exactly when the sweep is not just then
   * about to post something else on the commit, that is between its dispatch and its "Running" post.
   */
  lemma ResultStaysIff(w: World, c: Sha, i: nat)
    requires Inv(w) && LiveFor(w, i, c) && HasResult(w, c)
    ensures NothingElsePending(w, c) <==>
            forall es :: AllSweepOrPush(es) && AllLeaveTrace(w, es) ==> HasResult(After(w, es), c)
  {
    if NothingElsePending(w, c) {
      forall es | AllSweepOrPush(es) && AllLeaveTrace(w, es) ensures HasResult(After(w, es), c) {
        ResultStays(w, c, i, es);
      }
    } else {
      var es := [Posts(true)];
      assert es[1..] == [] && After(w, es) == Step(w, Posts(true));
      assert AllSweepOrPush(es) && AllLeaveTrace(w, es);
    }
  }

  // ------------------------------------------------------------------ what one sweep does

  /** What GitHub lists for a run under commit `c`: completed, with its conclusion, only once it has ended. */
  ghost function Listing(c: Sha): Run -> Option<LaneRun> {
    (r: Run) =>
      if r.listedUnder != Some(c) then None
      else if r.phase.Cancelled? then Some(LaneRun("completed", Some("cancelled")))
      else if r.phase.Finished? then Some(LaneRun("completed", Some(r.phase.conclusion)))
      else Some(LaneRun("in_progress", None))
  }

  lemma {:induction false} ListedIsFound(runs: seq<Run>, c: Sha)
    ensures ListedRuns(runs, c) == Found(runs, Listing(c))
    decreases |runs|
  {
    if runs != [] {
      ListedIsFound(runs[1..], c);
      FoundFirst(runs[0], runs[1..], Listing(c));
      HeadAndTail(runs);
    }
  }

  /** The two reads bring the commit's own status and the runs listed under it, whatever they are by then. */
  lemma ReadsBring(w: World, v: World)
    requires w.pc.ReadStatus? && v.pc == ReadRuns(w.pc.number, w.pc.head, OwnOf(w, w.pc.head))
    ensures Step(w, Reads) == w.(pc := v.pc)
    ensures Step(v, Reads) == v.(pc := Judge(w.pc.number, w.pc.head, v.pc.own, Found(v.runs, Listing(w.pc.head))))
  {
    ListedIsFound(v.runs, v.pc.head);
  }

  /** The conclusion of a finished run, but for a cancelled one or one without any. */
  ghost function Ended(): LaneRun -> Option<string> {
    (r: LaneRun) =>
      if r.status == "completed" && r.conclusion.Some? && r.conclusion.value != "cancelled" && r.conclusion.value != ""
      then r.conclusion else None
  }

  lemma {:induction false} FirstConclusionIsFound(runs: seq<LaneRun>)
    ensures FirstConclusion(runs) ==
            if Found(runs, Ended()) == [] then None else Some(Found(runs, Ended())[0])
    decreases |runs|
  {
    if runs != [] {
      FirstConclusionIsFound(runs[1..]);
      FoundFirst(runs[0], runs[1..], Ended());
      HeadAndTail(runs);
    }
  }

  /** `d` is what is shown of `text`: all of it, or its first 140 characters. */
  ghost predicate Shows(d: string, text: string) {
    d <= text && |d| == if |text| < 140 then |text| else 140
  }

  /** The conclusion with a capital first letter: small letters are code points 97 to 122, 32 above the capitals. */
  ghost predicate CapitalOf(t: string, s: string) {
    && |t| == |s|
    && (forall i | 0 < i < |s| :: t[i] == s[i])
    && (s != "" ==> t[0] as int == s[0] as int - if 97 <= s[0] as int <= 122 then 32 else 0)
  }

  /**
   * The status that a sweep posts on a commit whose lanes it does not start: a finished run's conclusion if
   * they have started and no status says so, otherwise why they wait, unless the status shows that already.
   */
  ghost predicate Reportable(p: CommitStatus, own: Option<CommitStatus>, runs: seq<LaneRun>, why: string) {
    p.context == "heavy-lanes" &&
    if SignOfStart(runs, own) then
      own.None? && Found(runs, Ended()) != [] && Backfills(p, Found(runs, Ended())[0])
    else
      && p.state == "pending" && Shows(p.description, "Waiting: " + why)
      && (own.Some? ==> own.value.description != p.description)
  }

  /** The status copies the conclusion. */
  ghost predicate Backfills(p: CommitStatus, conclusion: string) {
    && p.state == (if conclusion == "success" then "success" else "failure")
    && exists t :: CapitalOf(t, conclusion) && Shows(p.description, t + " (backfilled from the run)")
  }

  lemma CapitalizedIs(s: string)
    ensures CapitalOf(Capitalized(s), s)
  {
  }

  lemma TruncatedShows(text: string, d: string)
    ensures Shows(d, text) <==> d == Truncated(text)
  {
  }

  lemma CapitalUnique(t: string, u: string, s: string)
    requires CapitalOf(t, s) && CapitalOf(u, s)
    ensures t == u
  {
  }

  /** The report is the reportable status, and there is none exactly when nothing is reportable. */
  lemma ReportIs(own: Option<CommitStatus>, runs: seq<LaneRun>, why: string, p: CommitStatus)
    ensures WaitingReport(own, runs, why) == Some(p) <==> Reportable(p, own, runs, why)
  {
    SignIff(runs, own);
    FirstConclusionIsFound(runs);
    if SignOfStart(runs, own) {
      if FirstConclusion(runs).Some? {
        BackfillIs(FirstConclusion(runs).value, p);
      }
    } else {
      TruncatedShows(WAITING + why, p.description);
    }
  }

  lemma BackfillIs(done: string, p: CommitStatus)
    ensures Backfills(p, done) <==>
            p.state == (if done == "success" then "success" else "failure")
            && p.description == Truncated(Capitalized(done) + " (backfilled from the run)")
  {
    CapitalizedIs(done);
    TruncatedShows(Capitalized(done) + " (backfilled from the run)", p.description);
    forall t | CapitalOf(t, done) ensures t == Capitalized(done) {
      CapitalUnique(t, Capitalized(done), done);
    }
    hide CapitalOf, Capitalized, Shows;
  }

  /**
   * Judging a commit: a ready one that shows no sign of a start goes on to the recheck; on any other the
   * reportable status is posted if there is one, and nothing else changes.
   */
  lemma JudgeReports(w: World, ready: bool, why: string, landed: bool)
    requires w.pc.Judge?
    ensures var c, own, runs, v := w.pc.head, w.pc.own, w.pc.runs, Step(w, Judges(ready, why));
            var u := Step(v, Posts(landed));
            if ready && !SignOfStart(runs, own) then v == w.(pc := Recheck(w.pc.number, c))
            else
              && u == w.(pc := Rest, statuses := u.statuses)
              && (!landed ==> u.statuses == w.statuses)
              && (landed ==> forall p :: Reportable(p, own, runs, why) ==> u.statuses == w.statuses[c := p])
              && ((forall p :: !Reportable(p, own, runs, why)) ==> u.statuses == w.statuses)
  {
    var own, runs := w.pc.own, w.pc.runs;
    SignIff(runs, own);
    forall p: CommitStatus ensures WaitingReport(own, runs, why) == Some(p) <==> Reportable(p, own, runs, why) {
      ReportIs(own, runs, why, p);
    }
    hide WaitingReport, Reportable, SignOfStart, Started;
  }

  /** A finished run without a status of its own: the post that lands says "success" exactly when the run succeeded. */
  lemma BackfillCopies(w: World, ready: bool, why: string)
    requires w.pc.Judge? && w.pc.own.None? && Found(w.pc.runs, Ended()) != []
    ensures var u := Step(Step(w, Judges(ready, why)), Posts(true));
            && OwnOf(u, w.pc.head).Some?
            && OwnOf(u, w.pc.head).value.state ==
               if Found(w.pc.runs, Ended())[0] == "success" then "success" else "failure"
  {
    FirstConclusionIsFound(w.pc.runs);
    SomeStarted(w.pc.runs);
  }

  lemma SomeStarted(runs: seq<LaneRun>)
    requires Found(runs, Ended()) != []
    ensures Started(runs, None)
  {
    var k := FoundWhere(runs, Ended(), 0);
    assert runs[k] in runs && RunSaysStarted(runs[k]);
  }

  /** A commit without any sign of a start that is not ready: the post that lands says why it waits. */
  lemma WaitingIsShown(w: World, why: string)
    requires w.pc.Judge? && !SignOfStart(w.pc.runs, w.pc.own)
    requires w.pc.own == OwnOf(w, w.pc.head)
    ensures var u := Step(Step(w, Judges(false, why)), Posts(true));
            && OwnOf(u, w.pc.head).Some? && Shows(OwnOf(u, w.pc.head).value.description, "Waiting: " + why)
            && (u.statuses != w.statuses ==> OwnOf(u, w.pc.head).value.state == "pending")
  {
    SignIff(w.pc.runs, w.pc.own);
    TruncatedShows(WAITING + why, Truncated(WAITING + why));
  }

  /** The recheck goes on only if the judged commit is still the head of its pull request. */
  lemma RecheckComparesHeads(w: World)
    requires w.pc.Recheck?
    ensures Step(w, Reads) == w.(pc := if w.pc.number in w.pulls && w.pulls[w.pc.number].head == w.pc.head
                                       then Dispatch(w.pc.number, w.pc.head) else Rest)
  {
  }

  /**
   * A dispatch starts one run for the judged commit, listed under the branch's tip unless it is a fork's;
   * the commit reads "Running" exactly if the answer arrives and the post lands. A pull request that is
   * gone or a refused dispatch leaves everything as it was.
   */
  lemma DispatchStarts(w: World, outcome: DispatchOutcome, landed: bool)
    requires w.pc.Dispatch?
    ensures var n, c := w.pc.number, w.pc.head;
            var u := Step(Step(w, Dispatches(outcome)), Posts(landed));
            if n !in w.pulls || outcome.Rejected? then u == w.(pc := Rest)
            else
              && u.runs == w.runs + [Run(c, if w.pulls[n].sameRepo then Some(w.pulls[n].head) else None, Active)]
              && u.statuses == (if outcome.Created? && landed then w.statuses[c := RunningStatus()] else w.statuses)
              && u.pulls == w.pulls && u.pc.Rest?
  {
  }

  ghost function RunningStatus(): CommitStatus {
    CommitStatus("heavy-lanes", "pending", "Running" + " — dispatched by heavy-lanes-trigger")
  }
}
