/** When the heavy lanes may start on a pull request's head commit. */
module Readiness {
  import opened Basics

  const STATUS_CONTEXT := "heavy-lanes"
  const RUNNING := "Running"
  const WAITING := "Waiting: "
  const STATUS_DESCRIPTION_MAX: nat := 140

  datatype CheckRun = CheckRun(name: string, status: string, conclusion: Option<string>)
  datatype CommitStatus = CommitStatus(context: string, state: string, description: string)
  datatype LaneRun = LaneRun(status: string, conclusion: Option<string>)

  datatype PullRequest = PullRequest(
    draft: bool, behindBy: int, checks: seq<CheckRun>, statuses: seq<CommitStatus>,
    unresolvedThreads: int, laneRuns: seq<LaneRun>)

  datatype Reason =
    | Draft
    | AlreadyStarted
    | Behind
    | NotReported(check: string)
    | NotCompleted(check: string)
    | NotGreen(check: string)
    | BadStatus(context: string)
    | UnresolvedThreads

  predicate OwnCheck(name: string) {
    name in {"lanes-select", "heavy-lanes", "lane", "heavy-lanes-trigger"} || "lane (" <= name
  }

  predicate Green(c: CheckRun) {
    c.conclusion in {Some("success"), Some("skipped"), Some("neutral")}
  }

  /** `own_status`: the first status of this context. */
  function OwnStatus(statuses: seq<CommitStatus>): (own: Option<CommitStatus>)
    ensures own.None? ==> forall s <- statuses :: s.context != "heavy-lanes"
    ensures own.Some? ==> exists k | 0 <= k < |statuses| ::
              statuses[k] == own.value && own.value.context == "heavy-lanes"
              && forall j | 0 <= j < k :: statuses[j].context != "heavy-lanes"
  {
    if statuses == [] then None
    else if statuses[0].context == STATUS_CONTEXT then Some(statuses[0])
    else
      var own := OwnStatus(statuses[1..]);
      assert own.Some? ==> exists k | 0 < k < |statuses| ::
          statuses[k] == own.value && forall j | 0 <= j < k :: statuses[j].context != "heavy-lanes" by {
        if own.Some? {
          var k :| 0 <= k < |statuses[1..]| && statuses[1..][k] == own.value
            && forall j | 0 <= j < k :: statuses[1..][j].context != "heavy-lanes";
          forall j | 0 <= j < k + 1 ensures statuses[j].context != "heavy-lanes" {
            assert j > 0 ==> statuses[j] == statuses[1..][j - 1];
          }
          assert statuses[k + 1] == own.value;
        }
      }
      own
  }

  predicate StatusSaysStarted(s: Option<CommitStatus>) {
    s.Some? && (s.value.state in {"success", "failure"} || RUNNING <= s.value.description)
  }

  /** Any run but a cancelled one. */
  predicate RunSaysStarted(r: LaneRun) {
    r.status != "completed" || r.conclusion != Some("cancelled")
  }

  /** `lanes_started` */
  predicate Started(runs: seq<LaneRun>, own: Option<CommitStatus>) {
    (exists r <- runs :: RunSaysStarted(r)) || StatusSaysStarted(own)
  }

  /** A listed run other than a cancelled one, or a status of success, failure or "Running". */
  ghost predicate SignOfStart(runs: seq<LaneRun>, own: Option<CommitStatus>) {
    || (exists r <- runs :: !(r.status == "completed" && r.conclusion == Some("cancelled")))
    || (own.Some? && (own.value.state == "success" || own.value.state == "failure"
                      || "Running" <= own.value.description))
  }

  lemma SignIff(runs: seq<LaneRun>, own: Option<CommitStatus>)
    ensures Started(runs, own) <==> SignOfStart(runs, own)
  {
  }

  /** A check that the lanes themselves post. */
  ghost predicate FromLanes(name: string) {
    || name == "lanes-select" || name == "heavy-lanes" || name == "lane" || name == "heavy-lanes-trigger"
    || (|name| >= 6 && name[..6] == "lane (")
  }

  /** A conclusion that lets the lanes start. */
  ghost predicate Passes(conclusion: Option<string>) {
    conclusion == Some("success") || conclusion == Some("skipped") || conclusion == Some("neutral")
  }

  /**
   * Not a draft, not started, up to date, every other check green and the required ones present, every
   * thread resolved.
   */
  ghost predicate Ready(pr: PullRequest, required: seq<string>) {
    && !pr.draft && !SignOfStart(pr.laneRuns, OwnStatus(pr.statuses)) && pr.behindBy <= 0
    && FactsReady(pr, required)
    && pr.unresolvedThreads == 0
  }

  function Others(checks: seq<CheckRun>): (r: seq<CheckRun>)
    ensures forall c :: c in r <==> c in checks && !FromLanes(c.name)
  {
    if checks == [] then [] else (if OwnCheck(checks[0].name) then [] else [checks[0]]) + Others(checks[1..])
  }

  method RequiredReasons(others: seq<CheckRun>, required: seq<string>) returns (reasons: seq<Reason>)
    ensures forall r :: r in reasons <==>
              r.NotReported? && r.check in required && forall c <- others :: c.name != r.check
  {
    reasons := [];
    for i := 0 to |required|
      invariant forall r :: r in reasons <==>
                  r.NotReported? && r.check in required[..i] && forall c <- others :: c.name != r.check
    {
      if forall c <- others :: c.name != required[i] {
        reasons := reasons + [NotReported(required[i])];
      }
    }
  }

  function CheckReason(c: CheckRun): Option<Reason> {
    if c.status != "completed" then Some(NotCompleted(c.name)) else if !Green(c) then Some(NotGreen(c.name)) else None
  }

  method CheckReasons(others: seq<CheckRun>) returns (reasons: seq<Reason>)
    ensures forall r :: r in reasons <==> exists c <- others :: CheckReason(c) == Some(r)
  {
    reasons := [];
    for i := 0 to |others|
      invariant forall r :: r in reasons <==> exists c <- others[..i] :: CheckReason(c) == Some(r)
    {
      if CheckReason(others[i]).Some? {
        reasons := reasons + [CheckReason(others[i]).value];
      }
      assert others[..i + 1] == others[..i] + [others[i]];
    }
    assert others[..|others|] == others;
  }

  function StatusReason(s: CommitStatus): Option<Reason> {
    if s.context != STATUS_CONTEXT && s.state != "success" then Some(BadStatus(s.context)) else None
  }

  method StatusReasons(statuses: seq<CommitStatus>) returns (reasons: seq<Reason>)
    ensures forall r :: r in reasons <==> exists s <- statuses :: StatusReason(s) == Some(r)
  {
    reasons := [];
    for i := 0 to |statuses|
      invariant forall r :: r in reasons <==> exists s <- statuses[..i] :: StatusReason(s) == Some(r)
    {
      if StatusReason(statuses[i]).Some? {
        reasons := reasons + [StatusReason(statuses[i]).value];
      }
      assert statuses[..i + 1] == statuses[..i] + [statuses[i]];
    }
    assert statuses[..|statuses|] == statuses;
  }

  /** A reason about the pull request's checks or statuses that applies. */
  ghost predicate FactApplies(pr: PullRequest, required: seq<string>, r: Reason) {
    match r
    case NotReported(check) => check in required && forall c <- pr.checks :: !FromLanes(c.name) ==> c.name != check
    case NotCompleted(check) =>
      exists c <- pr.checks :: !FromLanes(c.name) && c.name == check && c.status != "completed"
    case NotGreen(check) =>
      exists c <- pr.checks ::
        !FromLanes(c.name) && c.name == check && c.status == "completed" && !Passes(c.conclusion)
    case BadStatus(context) =>
      context != "heavy-lanes" && exists s <- pr.statuses :: s.context == context && s.state != "success"
    case _ => false
  }

  /** A reason not to start that applies. */
  ghost predicate Applies(pr: PullRequest, required: seq<string>, r: Reason) {
    match r
    case Draft => pr.draft
    case AlreadyStarted => SignOfStart(pr.laneRuns, OwnStatus(pr.statuses))
    case Behind => pr.behindBy > 0
    case UnresolvedThreads => pr.unresolvedThreads != 0
    case _ => FactApplies(pr, required, r)
  }

  /** `readiness`: exactly the reasons that apply, none exactly when the pull request is ready. */
  method Evaluate(pr: PullRequest, required: seq<string>) returns (reasons: seq<Reason>)
    ensures forall r :: r in reasons <==> Applies(pr, required, r)
    ensures reasons == [] <==> Ready(pr, required)
  {
    hide FactApplies, FactsReady, Started, SignOfStart;
    SignIff(pr.laneRuns, OwnStatus(pr.statuses));
    reasons := OwnReasons(pr);
    var facts := FactReasons(pr, required);
    reasons := reasons + facts;
    if pr.unresolvedThreads != 0 {
      reasons := reasons + [UnresolvedThreads];
    }
  }

  method OwnReasons(pr: PullRequest) returns (reasons: seq<Reason>)
    ensures forall r :: r in reasons <==>
              || (r == Draft && pr.draft)
              || (r == AlreadyStarted && Started(pr.laneRuns, OwnStatus(pr.statuses)))
              || (r == Behind && pr.behindBy > 0)
    ensures reasons == [] <==> !pr.draft && !Started(pr.laneRuns, OwnStatus(pr.statuses)) && pr.behindBy <= 0
  {
    reasons := [];
    if pr.draft {
      reasons := reasons + [Draft];
    }
    if Started(pr.laneRuns, OwnStatus(pr.statuses)) {
      reasons := reasons + [AlreadyStarted];
    }
    if pr.behindBy > 0 {
      reasons := reasons + [Behind];
    }
  }

  /** What the other checks and statuses must say. */
  ghost predicate FactsReady(pr: PullRequest, required: seq<string>) {
    && (forall name <- required :: exists c <- pr.checks :: !FromLanes(c.name) && c.name == name)
    && (forall c <- pr.checks :: !FromLanes(c.name) ==> c.status == "completed" && Passes(c.conclusion))
    && (forall s <- pr.statuses :: s.context != "heavy-lanes" ==> s.state == "success")
  }

  method FactReasons(pr: PullRequest, required: seq<string>) returns (reasons: seq<Reason>)
    ensures reasons == [] <==> FactsReady(pr, required)
    ensures forall r :: r in reasons <==> FactApplies(pr, required, r)
    ensures forall r <- reasons :: r.NotReported? || r.NotCompleted? || r.NotGreen? || r.BadStatus?
  {
    var others := Others(pr.checks);
    var missing := RequiredReasons(others, required);
    var red := CheckReasons(others);
    var bad := StatusReasons(pr.statuses);
    FactsGreen(pr, required, others, missing, red, bad);
    FactsApply(pr, required, others, missing, red, bad);
    reasons := missing + red + bad;
  }

  lemma GreenIff()
    ensures forall c: CheckRun :: Green(c) <==> Passes(c.conclusion)
  {
  }

  lemma RedApplies(pr: PullRequest, required: seq<string>, r: Reason)
    requires r.NotCompleted? || r.NotGreen?
    ensures (exists c <- Others(pr.checks) :: CheckReason(c) == Some(r)) <==> FactApplies(pr, required, r)
  {
    GreenIff();
    hide Green, Passes, FromLanes, OwnCheck;
    if r.NotCompleted? {
      if c :| c in pr.checks && !FromLanes(c.name) && c.name == r.check && c.status != "completed" {
        assert c in Others(pr.checks) && CheckReason(c) == Some(r);
      }
    } else {
      if c :| c in pr.checks && !FromLanes(c.name) && c.name == r.check && c.status == "completed"
              && !Passes(c.conclusion) {
        assert c in Others(pr.checks) && CheckReason(c) == Some(r);
      }
    }
  }

  lemma BadApplies(pr: PullRequest, required: seq<string>, context: string)
    ensures (exists s <- pr.statuses :: StatusReason(s) == Some(BadStatus(context))) <==>
            FactApplies(pr, required, BadStatus(context))
  {
    if s :| s in pr.statuses && s.context == context != STATUS_CONTEXT && s.state != "success" {
      assert StatusReason(s) == Some(BadStatus(context));
    }
  }

  /** The three lists together hold exactly the facts that apply. */
  lemma FactsApply(pr: PullRequest, required: seq<string>, others: seq<CheckRun>,
                   missing: seq<Reason>, red: seq<Reason>, bad: seq<Reason>)
    requires others == Others(pr.checks)
    requires forall r :: r in missing <==>
            r.NotReported? && r.check in required && forall c <- others :: c.name != r.check
    requires forall r :: r in red <==> exists c <- others :: CheckReason(c) == Some(r)
    requires forall r :: r in bad <==> exists s <- pr.statuses :: StatusReason(s) == Some(r)
    ensures forall r :: r in missing || r in red || r in bad <==> FactApplies(pr, required, r)
    ensures forall r | r in missing || r in red || r in bad ::
            r.NotReported? || r.NotCompleted? || r.NotGreen?
            || r.BadStatus?
  {
    forall r ensures r in missing || r in red || r in bad <==> FactApplies(pr, required, r) {
      if r.NotCompleted? || r.NotGreen? {
        RedApplies(pr, required, r);
      } else if r.BadStatus? {
        BadApplies(pr, required, r.context);
      }
    }
  }

  lemma FactsGreen(pr: PullRequest, required: seq<string>, others: seq<CheckRun>,
                   missing: seq<Reason>, red: seq<Reason>, bad: seq<Reason>)
    requires others == Others(pr.checks)
    requires forall r :: r in missing <==>
            r.NotReported? && r.check in required && forall c <- others :: c.name != r.check
    requires forall r :: r in red <==> exists c <- others :: CheckReason(c) == Some(r)
    requires forall r :: r in bad <==> exists s <- pr.statuses :: StatusReason(s) == Some(r)
    ensures missing == [] <==>
            forall name <- required :: exists c <- pr.checks :: !FromLanes(c.name) && c.name == name
    ensures red == [] <==>
            forall c <- pr.checks :: !FromLanes(c.name) ==> c.status == "completed" && Passes(c.conclusion)
    ensures bad == [] <==> forall s <- pr.statuses :: s.context != "heavy-lanes" ==> s.state == "success"
  {
    if missing != [] {
      assert missing[0] in missing;
    }
    forall name | name in required && missing == []
      ensures exists c <- pr.checks :: !FromLanes(c.name) && c.name == name
    {
      assert NotReported(name) !in missing;
    }
    if red != [] {
      assert red[0] in red;
    }
    forall c | c in pr.checks && !FromLanes(c.name) && red == []
      ensures c.status == "completed" && Passes(c.conclusion)
    {
      assert c in others;
      assert NotCompleted(c.name) !in red && NotGreen(c.name) !in red;
    }
    if bad != [] {
      assert bad[0] in bad;
    }
    forall s | s in pr.statuses && s.context != "heavy-lanes" && bad == [] ensures s.state == "success" {
      assert BadStatus(s.context) !in bad;
    }
  }
}
