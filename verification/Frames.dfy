/** Stepping an Isaac scene: physics, rendered frames and catch-up. */
module Frames {
  import opened Basics
  import TimeBase

  const MAX_CATCHUP_RENDERS: nat := 8

  /**
   * A camera behind the render pipeline. Frames are named by the physics step they show: the last
   * one delivered, and those still in flight, oldest first.
   */
  datatype Camera = Camera(delivered: Option<nat>, inFlight: seq<nat>, timed: bool)

  /** One render at physics step `k`: a frame of `k` enters the pipeline, the oldest is delivered. */
  function Rendered(c: Camera, k: nat): (r: Camera)
    ensures r.delivered.Some? && |r.inFlight| == |c.inFlight| && r.timed == c.timed
  {
    var q := c.inFlight + [k];
    Camera(Some(q[0]), q[1..], c.timed)
  }

  /** `n` renders at the same physics step. */
  function RenderedTimes(c: Camera, k: nat, n: nat): (r: Camera)
    ensures n > 0 ==> r.delivered.Some?
    ensures |r.inFlight| == |c.inFlight| && r.timed == c.timed
  {
    if n == 0 then c else Rendered(RenderedTimes(c, k, n - 1), k)
  }

  function RenderAll(cameras: seq<Camera>, k: nat, n: nat): (r: seq<Camera>)
    ensures |r| == |cameras|
  {
    seq(|cameras|, i requires 0 <= i < |cameras| => RenderedTimes(cameras[i], k, n))
  }

  /** Rendering without stepping drains the pipeline one frame a render. */
  lemma {:induction false} Drains(c: Camera, k: nat, n: nat)
    requires n > 0
    ensures RenderedTimes(c, k, n).delivered == Some(if n - 1 < |c.inFlight| then c.inFlight[n - 1] else k)
    ensures forall i | 0 <= i < |c.inFlight| ::
              RenderedTimes(c, k, n).inFlight[i] == if n + i < |c.inFlight| then c.inFlight[n + i] else k
    decreases n
  {
    if n > 1 {
      Drains(c, k, n - 1);
    }
  }

  // ------------------------------------------------------------------ time

  /** `k` physics steps of `dt` seconds, in nanoseconds. */
  function ExactNs(k: nat, dt: real): real {
    k as real * dt * 1000000000.0
  }

  /** `int(round(t * 1e9))` */
  function TimeNs(k: nat, dt: real): int {
    RoundHalfEven(ExactNs(k, dt))
  }

  /** `int(physics_dt * 0.5e9)` */
  function ToleranceNs(dt: real): int {
    (dt * 500000000.0).Floor
  }

  /** The times cameras report: within `slack` nanoseconds of the step they show, well under half a step. */
  ghost predicate Accurate(stamp: nat -> int, dt: real, slack: nat) {
    && (forall k: nat :: -(slack as int) <= stamp(k) - TimeNs(k, dt) <= slack)
    && slack as real + 1.0 < dt * 500000000.0
  }

  /** `min(times) >= now - tol`, where cameras without a time do not count. */
  predicate AllCurrent(cameras: seq<Camera>, stamp: nat -> int, now: int, tol: int) {
    forall c <- cameras :: c.timed && c.delivered.Some? ==> stamp(c.delivered.value) >= now - tol
  }

  lemma OneStepApart(j: nat, k: nat, dt: real)
    requires j < k && dt > 0.0
    ensures TimeNs(k, dt) as real - TimeNs(j, dt) as real >= dt * 1000000000.0 - 1.0
  {
    ExactApart(j, k, dt);
    hide ExactNs;
    Separated(TimeNs(j, dt) as real, TimeNs(k, dt) as real, ExactNs(j, dt), ExactNs(k, dt), dt * 1000000000.0);
  }

  lemma Separated(a: real, b: real, x: real, y: real, ns: real)
    requires Abs(a - x) <= 0.5 && Abs(b - y) <= 0.5 && y >= x + ns
    ensures b - a >= ns - 1.0
  {
  }

  lemma ExactApart(j: nat, k: nat, dt: real)
    requires j < k && dt > 0.0
    ensures ExactNs(k, dt) >= ExactNs(j, dt) + dt * 1000000000.0
  {
    var steps := (k - j - 1) as real;
    NonNegativeProduct(steps, dt);
    assert steps * dt == k as real * dt - j as real * dt - dt;
  }

  /** Half a physics step tells the frames of step `m` and later from every earlier one. */
  lemma CurrentIffSince(stamp: nat -> int, dt: real, slack: nat, j: nat, m: nat)
    requires Accurate(stamp, dt, slack) && dt > 0.0
    ensures stamp(j) >= TimeNs(m, dt) - ToleranceNs(dt) <==> j >= m
  {
    if j < m {
      OneStepApart(j, m, dt);
    } else if j > m {
      OneStepApart(m, j, dt);
    }
  }

  // ------------------------------------------------------------------ catch-up

  /** After `s` further renders at physics step `k` every timed frame is current. */
  predicate CurrentAfter(cameras: seq<Camera>, k: nat, stamp: nat -> int, now: int, tol: int, s: nat) {
    AllCurrent(RenderAll(cameras, k, s), stamp, now, tol)
  }

  /** How many renders the catch-up loop spends from `s` on: it stops at the first current state, or at the cap. */
  function CatchUpRenders(cameras: seq<Camera>, k: nat, stamp: nat -> int, now: int, tol: int, s: nat := 0): (r: nat)
    requires s <= MAX_CATCHUP_RENDERS
    ensures s <= r <= MAX_CATCHUP_RENDERS
    ensures r < MAX_CATCHUP_RENDERS ==> CurrentAfter(cameras, k, stamp, now, tol, r)
    ensures forall i | s <= i < r :: !CurrentAfter(cameras, k, stamp, now, tol, i)
    decreases MAX_CATCHUP_RENDERS - s
  {
    if s == MAX_CATCHUP_RENDERS || CurrentAfter(cameras, k, stamp, now, tol, s) then s
    else CatchUpRenders(cameras, k, stamp, now, tol, s + 1)
  }

  lemma CatchUpUnfolds(cameras: seq<Camera>, k: nat, stamp: nat -> int, now: int, tol: int, s: nat)
    requires s <= MAX_CATCHUP_RENDERS
    ensures CatchUpRenders(cameras, k, stamp, now, tol, s) ==
            if s == MAX_CATCHUP_RENDERS || CurrentAfter(cameras, k, stamp, now, tol, s) then s
            else CatchUpRenders(cameras, k, stamp, now, tol, s + 1)
  {
  }

  lemma RenderOnceMore(cameras: seq<Camera>, k: nat, s: nat)
    ensures RenderAll(RenderAll(cameras, k, s), k, 1) == RenderAll(cameras, k, s + 1)
    ensures RenderAll(cameras, k, 0) == cameras
  {
    forall i | 0 <= i < |cameras|
      ensures RenderAll(RenderAll(cameras, k, s), k, 1)[i] == RenderAll(cameras, k, s + 1)[i]
    {
      var c := RenderedTimes(cameras[i], k, s);
      assert RenderedTimes(c, k, 1) == Rendered(RenderedTimes(c, k, 0), k);
    }
  }

  /** The frames come out in the order they went in, and none shows the future. */
  predicate InSequence(cameras: seq<Camera>, k: nat) {
    forall c <- cameras :: FramesInSequence(c, k)
  }

  predicate FramesInSequence(c: Camera, k: nat) {
    && (c.delivered.Some? ==> c.delivered.value <= if c.inFlight == [] then k else c.inFlight[0])
    && (forall i | 0 <= i < |c.inFlight| :: c.inFlight[i] <= k)
    && forall i, j | 0 <= i < j < |c.inFlight| :: c.inFlight[i] <= c.inFlight[j]
  }

  lemma FrameRenderInSequence(c: Camera, k: nat, n: nat)
    requires FramesInSequence(c, k)
    ensures FramesInSequence(RenderedTimes(c, k, n), k)
  {
    if n > 0 {
      Drains(c, k, n);
    }
  }

  lemma RenderInSequence(cameras: seq<Camera>, k: nat, n: nat)
    requires InSequence(cameras, k)
    ensures InSequence(RenderAll(cameras, k, n), k)
  {
    forall c | c in RenderAll(cameras, k, n) ensures FramesInSequence(c, k) {
      var i :| 0 <= i < |cameras| && c == RenderedTimes(cameras[i], k, n);
      assert cameras[i] in cameras;
      FrameRenderInSequence(cameras[i], k, n);
    }
  }

  /** No timed pipeline is deeper than `n` renders. */
  predicate AtMost(cameras: seq<Camera>, n: nat) {
    forall c <- cameras :: c.timed ==> |c.inFlight| <= n
  }

  /** Every timed camera shows step `k`. */
  predicate AllShow(cameras: seq<Camera>, k: nat) {
    forall c <- cameras :: c.timed ==> c.delivered == Some(k)
  }

  /** The newest frame of every timed camera is that of step `k`. */
  predicate NewestShow(cameras: seq<Camera>, k: nat) {
    forall c <- cameras :: c.timed ==>
      c.delivered.Some? && if c.inFlight == [] then c.delivered == Some(k) else c.inFlight[|c.inFlight| - 1] == k
  }

  /** Once a frame of this step has entered a pipeline at most `n` deep, `n` more renders deliver it. */
  lemma DrainedIsCurrent(cameras: seq<Camera>, stamp: nat -> int, dt: real, slack: nat, k: nat, n: nat)
    requires Accurate(stamp, dt, slack) && dt > 0.0
    requires NewestShow(cameras, k) && AtMost(cameras, n)
    ensures CurrentAfter(cameras, k, stamp, TimeNs(k, dt), ToleranceNs(dt), n)
  {
    forall c | c in RenderAll(cameras, k, n) && c.timed && c.delivered.Some?
      ensures stamp(c.delivered.value) >= TimeNs(k, dt) - ToleranceNs(dt)
    {
      var i :| 0 <= i < |cameras| && c == RenderedTimes(cameras[i], k, n);
      assert cameras[i] in cameras;
      if n > 0 {
        Drains(cameras[i], k, n);
      }
      assert c.delivered == Some(k);
      CurrentIffSince(stamp, dt, slack, k, k);
    }
  }

  /** Frames that are current, and not from the future, are this step's. */
  lemma CurrentIsNow(cameras: seq<Camera>, stamp: nat -> int, dt: real, slack: nat, k: nat)
    requires Accurate(stamp, dt, slack) && dt > 0.0 && InSequence(cameras, k) && NewestShow(cameras, k)
    requires AllCurrent(cameras, stamp, TimeNs(k, dt), ToleranceNs(dt))
    ensures AllShow(cameras, k)
  {
    forall c | c in cameras && c.timed ensures c.delivered == Some(k) {
      assert FramesInSequence(c, k) && c.delivered.Some?;
      CurrentIffSince(stamp, dt, slack, c.delivered.value, k);
    }
  }

  /** The frames shown when catch-up ends are this step's, for every timed camera at most eight renders behind. */
  lemma CatchUpReaches(cameras: seq<Camera>, stamp: nat -> int, dt: real, slack: nat, k: nat)
    requires Accurate(stamp, dt, slack) && dt > 0.0 && InSequence(cameras, k)
    requires NewestShow(cameras, k) && AtMost(cameras, MAX_CATCHUP_RENDERS)
    ensures var n := CatchUpRenders(cameras, k, stamp, TimeNs(k, dt), ToleranceNs(dt));
            AllShow(RenderAll(cameras, k, n), k)
  {
    hide Accurate, InSequence, NewestShow, AtMost, AllShow, TimeNs, ToleranceNs, RenderAll, AllCurrent, CatchUpRenders;
    var n := CatchUpRenders(cameras, k, stamp, TimeNs(k, dt), ToleranceNs(dt));
    DrainedIsCurrent(cameras, stamp, dt, slack, k, MAX_CATCHUP_RENDERS);
    RenderInSequence(cameras, k, n);
    RenderKeepsNewest(cameras, k, n);
    CurrentIsNow(RenderAll(cameras, k, n), stamp, dt, slack, k);
  }

  // ------------------------------------------------------------------ exactly when

  /** The camera has been rendered once at step `k`, and its other frames are older. */
  predicate JustRendered(c: Camera, k: nat) {
    && c.delivered.Some? && FramesInSequence(c, k)
    && if c.inFlight == [] then c.delivered == Some(k) else c.inFlight[|c.inFlight| - 1] == k && Previous(c) < k
  }

  predicate AllJustRendered(cameras: seq<Camera>, k: nat) {
    forall c <- cameras :: c.timed ==> JustRendered(c, k)
  }

  /** The frame delivered just before the newest one. */
  function Previous(c: Camera): nat
    requires c.delivered.Some? && c.inFlight != []
  {
    if |c.inFlight| == 1 then c.delivered.value else c.inFlight[|c.inFlight| - 2]
  }

  /** The frame shown after `n` more renders at step `k`. */
  function Frame(c: Camera, k: nat, n: nat): nat
    requires c.delivered.Some?
  {
    if n == 0 then c.delivered.value else if n - 1 < |c.inFlight| then c.inFlight[n - 1] else k
  }

  /** Every timed camera has delivered a frame, and none shows the future. */
  predicate Delivering(cameras: seq<Camera>, k: nat) {
    forall c <- cameras :: c.timed ==> c.delivered.Some? && FramesInSequence(c, k)
  }

  /** After `n` more renders at step `k` every timed frame is of step `m` or later. */
  predicate AllSince(cameras: seq<Camera>, k: nat, m: nat, n: nat)
    requires Delivering(cameras, k)
  {
    forall c <- cameras :: c.timed ==> Frame(c, k, n) >= m
  }

  /** Rendering on shows later and later frames, up to those of the present. */
  lemma FrameGrows(c: Camera, k: nat, i: nat, n: nat)
    requires c.delivered.Some? && FramesInSequence(c, k) && i <= n
    ensures Frame(c, k, i) <= Frame(c, k, n) <= k
  {
  }

  lemma AllSinceGrows(cameras: seq<Camera>, k: nat, m: nat, i: nat, n: nat)
    requires Delivering(cameras, k) && i <= n && AllSince(cameras, k, m, i)
    ensures AllSince(cameras, k, m, n)
  {
    forall c | c in cameras && c.timed ensures Frame(c, k, n) >= m {
      FrameGrows(c, k, i, n);
    }
  }

  lemma FrameIsDelivered(c: Camera, k: nat, n: nat)
    requires c.delivered.Some?
    ensures RenderedTimes(c, k, n).delivered == Some(Frame(c, k, n))
  {
    if n > 0 {
      Drains(c, k, n);
    }
  }

  /** What the frames of a just rendered camera say about its depth. */
  lemma FrameIs(c: Camera, k: nat, n: nat)
    requires JustRendered(c, k)
    ensures Frame(c, k, n) == k <==> |c.inFlight| <= n
    ensures Frame(c, k, n) <= k
    ensures n < |c.inFlight| ==> Frame(c, k, n) <= Previous(c)
    ensures n + 1 == |c.inFlight| ==> Frame(c, k, n) == Previous(c)
  {
  }

  /**
   * After `n` renders the frames are current for a clock reading step `m` exactly when each is of step
   * `m` or later.
   */
  lemma CurrentIffFrames(cameras: seq<Camera>, stamp: nat -> int, dt: real, slack: nat, k: nat, m: nat, n: nat)
    requires Accurate(stamp, dt, slack) && dt > 0.0 && Delivering(cameras, k)
    ensures CurrentAfter(cameras, k, stamp, TimeNs(m, dt), ToleranceNs(dt), n) <==> AllSince(cameras, k, m, n)
  {
    var end := RenderAll(cameras, k, n);
    forall i | 0 <= i < |cameras| && cameras[i].timed
      ensures end[i] in end && end[i].timed && end[i].delivered == Some(Frame(cameras[i], k, n))
      ensures stamp(Frame(cameras[i], k, n)) >= TimeNs(m, dt) - ToleranceNs(dt) <==> Frame(cameras[i], k, n) >= m
    {
      assert cameras[i] in cameras;
      FrameIsDelivered(cameras[i], k, n);
      CurrentIffSince(stamp, dt, slack, Frame(cameras[i], k, n), m);
    }
    hide TimeNs, ToleranceNs, RenderedTimes, Frame, FramesInSequence, Accurate;
  }

  /** After `n` renders every timed camera shows the present step exactly when each frame is of it. */
  lemma ShowsIffFrames(cameras: seq<Camera>, k: nat, n: nat)
    requires Delivering(cameras, k)
    ensures AllShow(RenderAll(cameras, k, n), k) <==> AllSince(cameras, k, k, n)
  {
    var end := RenderAll(cameras, k, n);
    forall i | 0 <= i < |cameras| && cameras[i].timed
      ensures end[i] in end && end[i].timed && (end[i].delivered == Some(k) <==> Frame(cameras[i], k, n) >= k)
    {
      assert cameras[i] in cameras;
      FrameIsDelivered(cameras[i], k, n);
      FrameGrows(cameras[i], k, n, n);
    }
    hide RenderedTimes, Frame, FramesInSequence;
  }

  /**
   * Eight renders are enough for frames of step `k`, and no earlier render already brings every frame to
   * step `m` but not to the present.
   */
  predicate CatchesUp(cameras: seq<Camera>, k: nat, m: nat)
    requires Delivering(cameras, k)
  {
    && AllSince(cameras, k, k, MAX_CATCHUP_RENDERS)
    && forall s | 0 <= s < MAX_CATCHUP_RENDERS && AllSince(cameras, k, m, s) :: AllSince(cameras, k, k, s)
  }

  /**
   * Catch-up of any scene, timed by a clock that reads step `m`. All eight renders are spent, so that the
   * warning is raised, exactly when the frames after seven are not all of step `m` or later; and exactly
   * when they can the frames shown are those of the present step.
   */
  lemma CatchUpIff(cameras: seq<Camera>, stamp: nat -> int, dt: real, slack: nat, k: nat, m: nat)
    requires Accurate(stamp, dt, slack) && dt > 0.0 && Delivering(cameras, k) && m <= k
    ensures var n := CatchUpRenders(cameras, k, stamp, TimeNs(m, dt), ToleranceNs(dt));
            && (n == MAX_CATCHUP_RENDERS <==> !AllSince(cameras, k, m, MAX_CATCHUP_RENDERS - 1))
            && (AllShow(RenderAll(cameras, k, n), k) <==> CatchesUp(cameras, k, m))
  {
    var now, tol := TimeNs(m, dt), ToleranceNs(dt);
    var n := CatchUpRenders(cameras, k, stamp, now, tol);
    forall s: nat ensures CurrentAfter(cameras, k, stamp, now, tol, s) <==> AllSince(cameras, k, m, s) {
      CurrentIffFrames(cameras, stamp, dt, slack, k, m, s);
    }
    hide TimeNs, ToleranceNs, CurrentAfter, AllSince, AllShow, Delivering, Accurate, RenderAll;
    ShowsIffFrames(cameras, k, n);
    forall i: nat, j: nat, at: nat | i <= j && AllSince(cameras, k, at, i) ensures AllSince(cameras, k, at, j) {
      AllSinceGrows(cameras, k, at, i, j);
    }
  }

  /**
   * Timed by the world's clock, on any scene: all eight renders are spent, so that the warning is raised,
   * exactly when some frame is older than the present after seven; the frames then still trail exactly
   * when one is after eight. So the warning is false exactly when the last frame arrives with the eighth.
   */
  lemma WarningIff(cameras: seq<Camera>, stamp: nat -> int, dt: real, slack: nat, k: nat)
    requires Accurate(stamp, dt, slack) && dt > 0.0 && Delivering(cameras, k)
    ensures var n := CatchUpRenders(cameras, k, stamp, TimeNs(k, dt), ToleranceNs(dt));
            && (n == MAX_CATCHUP_RENDERS <==> !AllSince(cameras, k, k, MAX_CATCHUP_RENDERS - 1))
            && (AllShow(RenderAll(cameras, k, n), k) <==> AllSince(cameras, k, k, MAX_CATCHUP_RENDERS))
  {
    CatchUpIff(cameras, stamp, dt, slack, k, k);
  }

  /** In a scene just rendered at this step, `n` more renders suffice exactly when no pipeline is deeper than `n`. */
  lemma NowIffDrained(cameras: seq<Camera>, k: nat, n: nat)
    requires AllJustRendered(cameras, k)
    ensures Delivering(cameras, k)
    ensures AllSince(cameras, k, k, n) <==> AtMost(cameras, n)
  {
    forall c | c in cameras && c.timed ensures Frame(c, k, n) >= k <==> |c.inFlight| <= n {
      FrameIs(c, k, n);
    }
  }

  lemma ShowsIffDrained(cameras: seq<Camera>, k: nat, n: nat)
    requires AllJustRendered(cameras, k)
    ensures AllShow(RenderAll(cameras, k, n), k) <==> AtMost(cameras, n)
  {
    NowIffDrained(cameras, k, n);
    ShowsIffFrames(cameras, k, n);
  }

  /**
   * So right after a physics step the warning is raised exactly when some timed pipeline is at least
   * eight deep, and false exactly when the deepest one is eight deep.
   */
  lemma WarningByDepth(cameras: seq<Camera>, stamp: nat -> int, dt: real, slack: nat, k: nat)
    requires Accurate(stamp, dt, slack) && dt > 0.0 && AllJustRendered(cameras, k)
    ensures var n := CatchUpRenders(cameras, k, stamp, TimeNs(k, dt), ToleranceNs(dt));
            && (n == MAX_CATCHUP_RENDERS <==> !AtMost(cameras, MAX_CATCHUP_RENDERS - 1))
            && (AllShow(RenderAll(cameras, k, n), k) <==> AtMost(cameras, MAX_CATCHUP_RENDERS))
  {
    NowIffDrained(cameras, k, MAX_CATCHUP_RENDERS - 1);
    NowIffDrained(cameras, k, MAX_CATCHUP_RENDERS);
    WarningIff(cameras, stamp, dt, slack, k);
  }

  /**
   * Some pipeline as deep as any holds only frames older than step `m` before its newest one, or none
   * is deep at all.
   */
  predicate Waits(cameras: seq<Camera>, m: nat)
    requires forall c <- cameras :: c.timed ==> c.delivered.Some?
  {
    AtMost(cameras, 0) ||
    exists c <- cameras :: c.timed && c.inFlight != [] && AtMost(cameras, |c.inFlight|) && Previous(c) < m
  }

  lemma {:induction false} Deepest(cameras: seq<Camera>) returns (d: Camera)
    requires !AtMost(cameras, 0)
    ensures d in cameras && d.timed && d.inFlight != [] && AtMost(cameras, |d.inFlight|)
    decreases |cameras|
  {
    var rest, last := cameras[..|cameras| - 1], cameras[|cameras| - 1];
    assert cameras == rest + [last];
    if AtMost(rest, 0) {
      d := last;
    } else {
      d := Deepest(rest);
      if last.timed && |last.inFlight| > |d.inFlight| {
        d := last;
      }
    }
  }

  /** While the deepest pipeline still holds frames of step `m` or later before its newest, catch-up stops early. */
  lemma ShowsOnlyIfWaits(cameras: seq<Camera>, stamp: nat -> int, dt: real, slack: nat, k: nat, m: nat)
    requires Accurate(stamp, dt, slack) && dt > 0.0 && AllJustRendered(cameras, k) && m <= k
    requires AtMost(cameras, CatchUpRenders(cameras, k, stamp, TimeNs(m, dt), ToleranceNs(dt)))
    ensures Waits(cameras, m)
  {
    if !AtMost(cameras, 0) {
      var d := Deepest(cameras);
      var s := |d.inFlight| - 1;
      CurrentIffFrames(cameras, stamp, dt, slack, k, m, s);
      var c :| c in cameras && c.timed && Frame(c, k, s) < m;
      FrameIs(c, k, s);
    }
  }

  lemma WaitsThenShows(cameras: seq<Camera>, stamp: nat -> int, dt: real, slack: nat, k: nat, m: nat)
    requires Accurate(stamp, dt, slack) && dt > 0.0 && AllJustRendered(cameras, k) && m <= k
    requires AtMost(cameras, MAX_CATCHUP_RENDERS) && Waits(cameras, m)
    ensures AtMost(cameras, CatchUpRenders(cameras, k, stamp, TimeNs(m, dt), ToleranceNs(dt)))
  {
    var n := CatchUpRenders(cameras, k, stamp, TimeNs(m, dt), ToleranceNs(dt));
    if !AtMost(cameras, 0) {
      var c :| c in cameras && c.timed && c.inFlight != [] && AtMost(cameras, |c.inFlight|) && Previous(c) < m;
      FrameIs(c, k, n);
      CurrentIffFrames(cameras, stamp, dt, slack, k, m, n);
      assert |c.inFlight| <= n;
    }
  }

  /**
   * Timed by a clock that reads step `m`, catch-up shows the present step exactly when no pipeline is
   * deeper than eight and one of the deepest holds, before its newest frame, only frames older than `m`.
   */
  lemma ShowsIff(cameras: seq<Camera>, stamp: nat -> int, dt: real, slack: nat, k: nat, m: nat)
    requires Accurate(stamp, dt, slack) && dt > 0.0 && AllJustRendered(cameras, k) && m <= k
    ensures var n := CatchUpRenders(cameras, k, stamp, TimeNs(m, dt), ToleranceNs(dt));
            AllShow(RenderAll(cameras, k, n), k) <==> AtMost(cameras, MAX_CATCHUP_RENDERS) && Waits(cameras, m)
  {
    var n := CatchUpRenders(cameras, k, stamp, TimeNs(m, dt), ToleranceNs(dt));
    ShowsIffDrained(cameras, k, n);
    if AtMost(cameras, n) {
      ShowsOnlyIfWaits(cameras, stamp, dt, slack, k, m);
    }
    if AtMost(cameras, MAX_CATCHUP_RENDERS) && Waits(cameras, m) {
      WaitsThenShows(cameras, stamp, dt, slack, k, m);
    }
  }

  /** For a clock that reads the present step the second condition always holds. */
  lemma WaitsForNow(cameras: seq<Camera>, k: nat)
    requires AllJustRendered(cameras, k)
    ensures Waits(cameras, k)
  {
    if !AtMost(cameras, 0) {
      var d := Deepest(cameras);
    }
  }

  // ------------------------------------------------------------------ the scene

  datatype FrameMode = RenderFrames | FreshFrames | NoFrames

  /** What a call came back with: the step it observed, its renders, and whether the frames are of that step. */
  datatype Observation = Observation(step: nat, renders: nat, showsNow: bool)

  class Scene {
    const dt: real
    const hasClock: bool
    const stamp: nat -> int
    var substeps: Option<int>
    var stepIdx: nat
    var lastRenders: nat
    var warned: bool
    // The world: physics steps taken since the reset, and its cameras.
    var physicsSteps: nat
    var cameras: seq<Camera>
    // The observations of all calls of `step` and `refresh_frames`, in order.
    ghost var log: seq<Observation>

    constructor (dt: real, hasClock: bool, stamp: nat -> int, cameras: seq<Camera>)
      ensures this.dt == dt && this.hasClock == hasClock && this.stamp == stamp && this.cameras == cameras
      ensures substeps == None && stepIdx == 0 && physicsSteps == 0 && lastRenders == 0 && !warned && log == []
    {
      this.dt, this.hasClock, this.stamp, this.cameras := dt, hasClock, stamp, cameras;
      substeps, stepIdx, lastRenders, warned, physicsSteps := None, 0, 0, false, 0;
      log := [];
    }

    /** `_substeps`, once the time base is resolved. */
    function Substeps(): (n: nat)
      requires substeps.Some?
      reads this
      ensures n >= 1 && n >= substeps.value && (n == 1 || n == substeps.value)
    {
      if substeps.value < 1 then 1 else substeps.value
    }

    /**
     * `resolve_time_base` at the world's dt: a count pinned by the scene class wins, otherwise it is
     * derived; `None` is the `ValueError`, which leaves the scene unresolved.
     */
    method ResolveTimeBase(pinned: Option<int>, rate: real) returns (count: Option<int>)
      modifies this`substeps
      ensures pinned.Some? ==> count == pinned
      ensures pinned.None? ==> count == TimeBase.DeriveSubsteps(dt, rate)
      ensures substeps == if count.Some? then count else old(substeps)
    {
      count := if pinned.Some? then pinned else TimeBase.DeriveSubsteps(dt, rate);
      if count.Some? {
        substeps := count;
      }
    }

    /** `sim_time_ns`: the world's clock, or else the step count times the tick. */
    function SimTimeNs(): Option<int>
      reads this
    {
      if hasClock then Some(TimeNs(physicsSteps, dt))
      else if substeps.Some? then Some(TimeNs(stepIdx * Substeps(), dt))
      else None
    }

    /** `world.render()`, after `_before_render`: no physics. */
    method RenderOnce()
      modifies this`cameras
      ensures cameras == RenderAll(old(cameras), physicsSteps, 1)
    {
      cameras := RenderAll(cameras, physicsSteps, 1);
    }

    /** `world.step(render)`: one physics step, then a render when asked for. */
    method PhysicsStep(render: bool)
      modifies this`physicsSteps, this`cameras
      ensures physicsSteps == old(physicsSteps) + 1
      ensures cameras == if render then RenderAll(old(cameras), physicsSteps, 1) else old(cameras)
    {
      physicsSteps := physicsSteps + 1;
      if render {
        RenderOnce();
      }
    }

    /** How many catch-up renders are due from here. */
    function Due(): (n: nat)
      reads this
      ensures n <= MAX_CATCHUP_RENDERS
    {
      if SimTimeNs().None? then 0
      else CatchUpRenders(cameras, physicsSteps, stamp, SimTimeNs().value, ToleranceNs(dt))
    }

    /** `_catch_up_frames` */
    method CatchUpFrames()
      modifies this`cameras, this`lastRenders, this`warned
      ensures lastRenders == old(lastRenders) + old(Due())
      ensures cameras == RenderAll(old(cameras), physicsSteps, old(Due()))
      ensures warned <==> old(warned) || old(Due()) == MAX_CATCHUP_RENDERS
      ensures !hasClock && substeps.None? ==>
                cameras == old(cameras) && lastRenders == old(lastRenders) && warned == old(warned)
    {
      hide CatchUpRenders, RenderAll, TimeNs, ToleranceNs;
      RenderOnceMore(cameras, physicsSteps, 0);
      if SimTimeNs().None? {
        return;
      }
      CatchUpTo(SimTimeNs().value, ToleranceNs(dt));
    }

    method CatchUpTo(now: int, tol: int)
      modifies this`cameras, this`lastRenders, this`warned
      ensures var n := CatchUpRenders(old(cameras), physicsSteps, stamp, now, tol);
              && lastRenders == old(lastRenders) + n
              && cameras == RenderAll(old(cameras), physicsSteps, n)
              && (warned <==> old(warned) || n == MAX_CATCHUP_RENDERS)
    {
      hide CatchUpRenders, RenderAll, AllCurrent;
      ghost var start := cameras;
      RenderOnceMore(start, physicsSteps, 0);
      var i := 0;
      while i < MAX_CATCHUP_RENDERS
        invariant 0 <= i <= MAX_CATCHUP_RENDERS
        invariant lastRenders == old(lastRenders) + i
        invariant cameras == RenderAll(start, physicsSteps, i)
        invariant CatchUpRenders(start, physicsSteps, stamp, now, tol) ==
                  CatchUpRenders(start, physicsSteps, stamp, now, tol, i)
        invariant warned == old(warned)
      {
        CatchUpUnfolds(start, physicsSteps, stamp, now, tol, i);
        if AllCurrent(cameras, stamp, now, tol) {
          return;
        }
        RenderOnceMore(start, physicsSteps, i);
        RenderOnce();
        lastRenders := lastRenders + 1;
        i := i + 1;
      }
      CatchUpUnfolds(start, physicsSteps, stamp, now, tol, i);
      warned := true;
    }

    /** Every frame is from the past or the present. */
    ghost predicate Calm()
      reads this
    {
      InSequence(cameras, physicsSteps)
    }

    /** The conditions under which a fresh step can promise this step's frames. */
    ghost predicate CanCatchUp(slack: nat)
      reads this
    {
      && hasClock && dt > 0.0 && Accurate(stamp, dt, slack)
      && AtMost(cameras, MAX_CATCHUP_RENDERS)
    }

    /** The cameras report accurate times. */
    ghost predicate Precise(slack: nat)
      reads this
    {
      dt > 0.0 && Accurate(stamp, dt, slack)
    }

    ghost predicate ShowsNow()
      reads this
    {
      AllShow(cameras, physicsSteps)
    }

    /** The physics step that the simulated time stands for: without the world's clock, the steps counted. */
    ghost function TimedStep(): nat
      requires hasClock || substeps.Some?
      reads this
    {
      if hasClock then physicsSteps else stepIdx * Substeps()
    }

    /** The observation of this moment. */
    ghost function Seen(): Observation
      reads this
    {
      Observation(physicsSteps, lastRenders, ShowsNow())
    }

    /** The substeps of lines 190-197: all but the last without a render, the last with one when wanted. */
    method Advance(render: bool)
      requires substeps.Some?
      modifies this`physicsSteps, this`cameras
      ensures physicsSteps == old(physicsSteps) + Substeps()
      ensures cameras == if render then RenderAll(old(cameras), physicsSteps, 1) else old(cameras)
    {
      var n, i := Substeps(), 0;
      while i < n - 1
        invariant 0 <= i <= n - 1
        invariant physicsSteps == old(physicsSteps) + i && cameras == old(cameras)
      {
        PhysicsStep(false);
        i := i + 1;
      }
      PhysicsStep(render);
    }

    /**
     * `step`: refused before the time base is resolved. Physics advances by exactly the substeps in
     * every mode, and at most nine renders are spent. A fresh step shows the state it stepped to exactly
     * when no pipeline is deeper than eight and, without the world's clock, one of the deepest holds
     * only frames older than the step the count stood for.
     */
    method Step(mode: FrameMode, ghost slack: nat) returns (ok: bool)
      requires Calm()
      modifies this`physicsSteps, this`cameras, this`lastRenders, this`warned, this`stepIdx, this`log
      ensures ok <==> substeps.Some?
      ensures !ok ==> physicsSteps == old(physicsSteps) && cameras == old(cameras) && stepIdx == old(stepIdx)
      ensures log == if ok then old(log) + [Seen()] else old(log)
      ensures ok ==> physicsSteps == old(physicsSteps) + Substeps() && stepIdx == old(stepIdx) + 1
      ensures Calm() && SameDepths(cameras, old(cameras))
      ensures ok && mode.FreshFrames? ==> 1 <= lastRenders <= 1 + MAX_CATCHUP_RENDERS
      ensures ok && mode.NoFrames? ==> lastRenders == 0 && cameras == old(cameras)
      ensures ok && mode.RenderFrames? ==> lastRenders == 1 && cameras == RenderAll(old(cameras), physicsSteps, 1)
      ensures ok && !mode.NoFrames? ==> NewestShow(cameras, physicsSteps)
      ensures ok && mode.FreshFrames? && Precise(slack) && hasClock ==>
                && (ShowsNow() <==> AtMost(cameras, MAX_CATCHUP_RENDERS))
                && (warned <==> old(warned) || !AtMost(cameras, MAX_CATCHUP_RENDERS - 1))
      ensures ok && mode.FreshFrames? && Precise(slack) && !hasClock && old(stepIdx) * Substeps() <= physicsSteps ==>
                var rendered := RenderAll(old(cameras), physicsSteps, 1);
                (ShowsNow() <==> AtMost(cameras, MAX_CATCHUP_RENDERS) && Waits(rendered, old(stepIdx) * Substeps()))
    {
      hide RenderAll, InSequence, Accurate, AtMost, AllShow, NewestShow, Waits, CatchUpRenders;
      if substeps.None? {
        return false;
      }
      var render := !mode.NoFrames?;
      Advance(render);
      lastRenders := if render then 1 else 0;
      RenderKeepsPast(old(cameras), old(physicsSteps), physicsSteps);
      RenderedIsLast(old(cameras), physicsSteps);
      RenderKeepsDepths(old(cameras), physicsSteps, 1);
      if mode.FreshFrames? {
        FinishFresh(old(cameras), old(physicsSteps), slack);
      }
      stepIdx := stepIdx + 1;
      log := log + [Seen()];
      return true;
    }

    /** The catch-up of a fresh step, just after its one render. */
    method FinishFresh(ghost before: seq<Camera>, ghost steps: nat, ghost slack: nat)
      requires substeps.Some? && InSequence(before, steps) && steps < physicsSteps
      requires cameras == RenderAll(before, physicsSteps, 1) && Calm() && lastRenders == 1
      modifies this`cameras, this`lastRenders, this`warned
      ensures Calm() && SameDepths(cameras, before) && NewestShow(cameras, physicsSteps)
      ensures lastRenders == 1 + old(Due())
      ensures Precise(slack) && TimedStep() <= physicsSteps ==>
                (ShowsNow() <==>
                    AtMost(cameras, MAX_CATCHUP_RENDERS)
                    && Waits(RenderAll(before, physicsSteps, 1), TimedStep()))
      ensures Precise(slack) && hasClock ==>
                && (ShowsNow() <==> AtMost(cameras, MAX_CATCHUP_RENDERS))
                && (warned <==> old(warned) || !AtMost(cameras, MAX_CATCHUP_RENDERS - 1))
    {
      hide RenderAll, CatchUpRenders, InSequence, Accurate, TimeNs, ToleranceNs, AtMost, AllShow, JustRendered,
          NewestShow;
      ghost var k, start, m := physicsSteps, cameras, TimedStep();
      RenderedIsJust(before, steps, k);
      RenderedIsLast(before, k);
      RenderKeepsDepths(before, k, 1);
      WaitsForNow(start, k);
      if Precise(slack) && m <= k {
        ShowsIff(start, stamp, dt, slack, k, m);
        WarningByDepth(start, stamp, dt, slack, k);
      }
      FinishCatchUp();
      SameBounds(start, cameras, MAX_CATCHUP_RENDERS);
      SameBounds(start, cameras, MAX_CATCHUP_RENDERS - 1);
    }

    /**
     * `refresh_frames`: renders only, so simulated time does not move. When it warns, and when its frames
     * end at the present, is decided by the frames due after its first render.
     */
    method RefreshFrames(ghost slack: nat)
      requires Calm()
      modifies this`cameras, this`lastRenders, this`warned, this`log
      ensures Calm() && 1 <= lastRenders <= 1 + MAX_CATCHUP_RENDERS
      ensures SameDepths(cameras, old(cameras)) && NewestShow(cameras, physicsSteps)
      ensures log == old(log) + [Seen()]
      ensures old(CanCatchUp(slack)) ==> ShowsNow()
      ensures Delivering(RenderAll(old(cameras), physicsSteps, 1), physicsSteps)
      ensures Precise(slack) && (hasClock || substeps.Some?) && TimedStep() <= physicsSteps ==>
                var rendered, k, m := RenderAll(old(cameras), physicsSteps, 1), physicsSteps, TimedStep();
                && (warned <==> old(warned) || !AllSince(rendered, k, m, MAX_CATCHUP_RENDERS - 1))
                && (ShowsNow() <==> CatchesUp(rendered, k, m))
    {
      hide RenderAll, AtMost, AllShow, AllSince, Accurate, CatchUpRenders, FramesInSequence, TimeNs, ToleranceNs;
      RenderKeepsDepths(cameras, physicsSteps, 1);
      SameBounds(RenderAll(cameras, physicsSteps, 1), cameras, MAX_CATCHUP_RENDERS);
      RenderOnce();
      lastRenders := 1;
      RenderKeepsPast(old(cameras), physicsSteps, physicsSteps);
      RenderedIsLast(old(cameras), physicsSteps);
      if CanCatchUp(slack) {
        CatchUpReaches(cameras, stamp, dt, slack, physicsSteps);
      }
      if Precise(slack) && (hasClock || substeps.Some?) && TimedStep() <= physicsSteps {
        CatchUpIff(cameras, stamp, dt, slack, physicsSteps, TimedStep());
      }
      FinishCatchUp();
      log := log + [Seen()];
    }

    /** Catch-up after a render, whatever it is timed by. */
    method FinishCatchUp()
      requires Calm() && NewestShow(cameras, physicsSteps)
      modifies this`cameras, this`lastRenders, this`warned
      ensures Calm() && NewestShow(cameras, physicsSteps) && SameDepths(cameras, old(cameras))
      ensures lastRenders == old(lastRenders) + old(Due())
              && cameras == RenderAll(old(cameras), physicsSteps, old(Due()))
      ensures warned <==> old(warned) || old(Due()) == MAX_CATCHUP_RENDERS
    {
      hide RenderAll, CatchUpRenders, InSequence, NewestShow, Due;
      RenderInSequence(cameras, physicsSteps, Due());
      RenderKeepsNewest(cameras, physicsSteps, Due());
      RenderKeepsDepths(cameras, physicsSteps, Due());
      CatchUpFrames();
    }

    /** `n` physics steps, each rendered or none. */
    method StepMany(n: nat, render: bool)
      requires Calm()
      modifies this`physicsSteps, this`cameras
      ensures physicsSteps == old(physicsSteps) + n && Calm() && SameDepths(cameras, old(cameras))
      ensures cameras == if render then Stepped(old(cameras), old(physicsSteps), n) else old(cameras)
    {
      hide InSequence, RenderAll;
      var i := 0;
      while i < n
        invariant 0 <= i <= n && physicsSteps == old(physicsSteps) + i && Calm() && SameDepths(cameras, old(cameras))
        invariant cameras == if render then Stepped(old(cameras), old(physicsSteps), i) else old(cameras)
      {
        CalmNext(render);
        PhysicsStep(render);
        i := i + 1;
      }
    }

    lemma CalmNext(render: bool)
      requires Calm()
      ensures var next := if render then RenderAll(cameras, physicsSteps + 1, 1) else cameras;
              InSequence(next, physicsSteps + 1) && SameDepths(next, cameras)
    {
      RenderKeepsPast(cameras, physicsSteps, physicsSteps + 1);
    }

    /** `reset`: `warmup` rendered steps, `settle` steps of the subclass hook, one more rendered step, catch-up. */
    method Reset(warmup: nat, settle: nat, ghost slack: nat)
      modifies this`physicsSteps, this`cameras, this`lastRenders, this`warned, this`stepIdx
      ensures stepIdx == 0 && physicsSteps == warmup + settle + 1 && Calm()
      ensures SameDepths(cameras, old(cameras)) && NewestShow(cameras, physicsSteps)
      ensures exists n: nat :: CaughtUp(old(cameras), warmup, physicsSteps, n) && lastRenders == old(lastRenders) + n
      ensures old(CanCatchUp(slack)) ==> ShowsNow()
    {
      hide InSequence, NewestShow, RenderAll, Stepped, Accurate, AtMost, AllShow, CatchUpRenders, TimeNs, ToleranceNs;
      physicsSteps, stepIdx := 0, 0;
      cameras := Flushed(cameras);
      StepMany(warmup, true);
      StepMany(settle, false);
      ghost var before := cameras;
      CalmNext(true);
      PhysicsStep(true);
      RenderedIsLast(before, physicsSteps);
      SameBounds(old(cameras), cameras, MAX_CATCHUP_RENDERS);
      if old(CanCatchUp(slack)) {
        CatchUpReaches(cameras, stamp, dt, slack, physicsSteps);
      }
      ghost var due := Due();
      FinishCatchUp();
      assert CaughtUp(old(cameras), warmup, physicsSteps, due);
    }

    /**
     * The cameras saw the reset, each warm-up step, the last step, and `n` catch-up renders, at most
     * eight; of the settling steps they saw nothing.
     */
    ghost predicate CaughtUp(before: seq<Camera>, warmup: nat, steps: nat, n: nat)
      reads this
    {
      && n <= MAX_CATCHUP_RENDERS
      && cameras == RenderAll(RenderAll(Stepped(Flushed(before), 0, warmup), steps, 1), steps, n)
    }
  }

  /** The cameras after `n` rendered physics steps from step `k` on. */
  function Stepped(cameras: seq<Camera>, k: nat, n: nat): seq<Camera> {
    if n == 0 then cameras else RenderAll(Stepped(cameras, k, n - 1), k + n, 1)
  }

  /** The cameras of a world that has just been reset: nothing delivered, only frames of its start in flight. */
  function Flushed(cameras: seq<Camera>): (r: seq<Camera>)
    ensures SameDepths(r, cameras) && InSequence(r, 0)
  {
    seq(|cameras|, i requires 0 <= i < |cameras| => Camera(None, seq(|cameras[i].inFlight|, j => 0), cameras[i].timed))
  }

  ghost predicate SameDepths(a: seq<Camera>, b: seq<Camera>) {
    |a| == |b| && forall i | 0 <= i < |a| :: |a[i].inFlight| == |b[i].inFlight| && a[i].timed == b[i].timed
  }

  lemma SameBounds(a: seq<Camera>, b: seq<Camera>, n: nat)
    requires SameDepths(a, b)
    ensures AtMost(a, n) <==> AtMost(b, n)
  {
    forall i | 0 <= i < |a| ensures a[i] in a && b[i] in b {}
  }

  lemma RenderKeepsDepths(cameras: seq<Camera>, k: nat, n: nat)
    ensures SameDepths(RenderAll(cameras, k, n), cameras)
  {
  }

  lemma RenderKeepsNewest(cameras: seq<Camera>, k: nat, n: nat)
    requires NewestShow(cameras, k)
    ensures NewestShow(RenderAll(cameras, k, n), k)
  {
    forall c | c in RenderAll(cameras, k, n) && c.timed
      ensures c.delivered.Some? && if c.inFlight == [] then c.delivered == Some(k)
              else c.inFlight[|c.inFlight| - 1] == k
    {
      var i :| 0 <= i < |cameras| && c == RenderedTimes(cameras[i], k, n);
      assert cameras[i] in cameras;
      if n > 0 {
        Drains(cameras[i], k, n);
      }
    }
  }

  /** A render at a later step than all frames leaves that step's frame the newest, and only older ones before it. */
  lemma RenderedIsJust(cameras: seq<Camera>, j: nat, k: nat)
    requires InSequence(cameras, j) && j < k
    ensures AllJustRendered(RenderAll(cameras, k, 1), k)
  {
    forall c | c in RenderAll(cameras, k, 1) && c.timed ensures JustRendered(c, k) {
      var i :| 0 <= i < |cameras| && c == RenderedTimes(cameras[i], k, 1);
      assert cameras[i] in cameras;
      RenderedOnceIsJust(cameras[i], j, k);
    }
  }

  lemma RenderedOnceIsJust(c: Camera, j: nat, k: nat)
    requires FramesInSequence(c, j) && j < k
    ensures JustRendered(RenderedTimes(c, k, 1), k)
  {
    assert FramesInSequence(c, k);
    FrameRenderInSequence(c, k, 1);
    Drains(c, k, 1);
  }

  /** A render at a later step keeps every frame in the past. */
  lemma RenderKeepsPast(cameras: seq<Camera>, j: nat, k: nat)
    requires InSequence(cameras, j) && j <= k
    ensures InSequence(cameras, k) && InSequence(RenderAll(cameras, k, 1), k)
  {
    RenderInSequence(cameras, k, 1);
  }

  /** Right after a render the newest frame of every pipeline is this step's. */
  lemma RenderedIsLast(cameras: seq<Camera>, k: nat)
    ensures NewestShow(RenderAll(cameras, k, 1), k)
  {
    forall c | c in RenderAll(cameras, k, 1)
      ensures c.delivered.Some? && if c.inFlight == [] then c.delivered == Some(k)
              else c.inFlight[|c.inFlight| - 1] == k
    {
      var i :| 0 <= i < |cameras| && c == RenderedTimes(cameras[i], k, 1);
      Drains(cameras[i], k, 1);
    }
  }

  // ------------------------------------------------------------------ whole runs

  datatype Op = StepOp(mode: FrameMode) | RefreshOp

  function StepsIn(ops: seq<Op>): nat {
    if ops == [] then 0 else StepsIn(ops[..|ops| - 1]) + (if ops[|ops| - 1].StepOp? then 1 else 0)
  }

  lemma StepsNext(ops: seq<Op>, i: nat, n: nat)
    requires i < |ops|
    ensures StepsIn(ops[..i + 1]) == StepsIn(ops[..i]) + if ops[i].StepOp? then 1 else 0
    ensures StepsIn(ops[..i + 1]) * n == StepsIn(ops[..i]) * n + if ops[i].StepOp? then n else 0
  {
    assert ops[..i + 1][..i] == ops[..i];
    assert (StepsIn(ops[..i]) + 1) * n == StepsIn(ops[..i]) * n + n;
  }

  /** A call that promises frames of the present. */
  predicate WantsNow(op: Op) {
    op.RefreshOp? || op.mode.FreshFrames?
  }

  /** The renders a call may spend: none or one in the plain modes, one and up to eight more otherwise. */
  predicate RendersOf(op: Op, n: nat) {
    if WantsNow(op) then 1 <= n <= 1 + MAX_CATCHUP_RENDERS else n == if op.mode.NoFrames? then 0 else 1
  }

  /** One call of a run. */
  method RunOp(scene: Scene, op: Op, ghost slack: nat)
    requires scene.substeps.Some? && scene.Calm()
    modifies scene`physicsSteps, scene`cameras, scene`lastRenders, scene`warned, scene`stepIdx, scene`log
    ensures scene.physicsSteps == old(scene.physicsSteps) + if op.StepOp? then scene.Substeps() else 0
    ensures scene.stepIdx == old(scene.stepIdx) + if op.StepOp? then 1 else 0
    ensures scene.Calm() && scene.log == old(scene.log) + [scene.Seen()]
    ensures RendersOf(op, scene.lastRenders)
    ensures old(scene.CanCatchUp(slack)) ==> scene.CanCatchUp(slack) && (WantsNow(op) ==> scene.ShowsNow())
  {
    hide AllShow, InSequence, NewestShow, Accurate, RenderAll, Waits, AtMost, CatchesUp, AllSince, Delivering;
    ghost var before := scene.cameras;
    if op.StepOp? {
      var _ := scene.Step(op.mode, slack);
    } else {
      scene.RefreshFrames(slack);
    }
    SameBounds(scene.cameras, before, MAX_CATCHUP_RENDERS);
  }

  /** What the calls observed from physics step `start` on; `all` is whether the pipelines are shallow enough. */
  ghost predicate ObservedRight(seen: seq<Observation>, ops: seq<Op>, start: nat, substeps: nat, all: bool) {
    && |seen| == |ops|
    && forall i | 0 <= i < |ops| ::
         && seen[i].step == start + StepsIn(ops[..i + 1]) * substeps
         && RendersOf(ops[i], seen[i].renders)
         && (all && WantsNow(ops[i]) ==> seen[i].showsNow)
  }

  /**
   * Over any sequence of calls, simulated time is the number of `step` calls times the substeps, whatever
   * was rendered, in the end and in every observation made on the way; every call spends the renders of
   * its mode; and if no pipeline is deeper than eight, every fresh step and every refresh observes the
   * frames of its own moment.
   */
  method RunOps(scene: Scene, ops: seq<Op>, ghost slack: nat)
    requires scene.substeps.Some? && scene.Calm()
    modifies scene`physicsSteps, scene`cameras, scene`lastRenders, scene`warned, scene`stepIdx, scene`log
    ensures scene.physicsSteps == old(scene.physicsSteps) + StepsIn(ops) * scene.Substeps()
    ensures scene.stepIdx == old(scene.stepIdx) + StepsIn(ops) && scene.Calm()
    ensures old(scene.log) <= scene.log
    ensures ObservedRight(scene.log[|old(scene.log)|..], ops, old(scene.physicsSteps), scene.Substeps(),
                          old(scene.CanCatchUp(slack)))
  {
    assert ops[..0] == [] && StepsIn([]) == 0;
    hide Scene.CanCatchUp, Scene.Calm, Scene.ShowsNow, StepsIn, RendersOf;
    ghost var can, start, seen := scene.CanCatchUp(slack), scene.log, [];
    var i := 0;
    while i < |ops|
      invariant 0 <= i <= |ops| && scene.log == start + seen
      invariant scene.substeps == old(scene.substeps) && scene.Calm() && (can ==> scene.CanCatchUp(slack))
      invariant scene.physicsSteps == old(scene.physicsSteps) + StepsIn(ops[..i]) * scene.Substeps()
      invariant scene.stepIdx == old(scene.stepIdx) + StepsIn(ops[..i])
      invariant ObservedRight(seen, ops[..i], old(scene.physicsSteps), scene.Substeps(), can)
    {
      StepsNext(ops, i, scene.Substeps());
      RunOp(scene, ops[i], slack);
      ObservedNext(seen, scene.Seen(), ops, i, old(scene.physicsSteps), scene.Substeps(), can);
      seen := seen + [scene.Seen()];
      i := i + 1;
    }
    assert ops[..i] == ops;
    assert scene.log[|start|..] == seen;
  }

  lemma ObservedNext(seen: seq<Observation>, o: Observation, ops: seq<Op>, i: nat, start: nat, substeps: nat, all: bool)
    requires i < |ops| && ObservedRight(seen, ops[..i], start, substeps, all)
    requires o.step == start + StepsIn(ops[..i + 1]) * substeps && RendersOf(ops[i], o.renders)
    requires all && WantsNow(ops[i]) ==> o.showsNow
    ensures ObservedRight(seen + [o], ops[..i + 1], start, substeps, all)
  {
    hide StepsIn, RendersOf, WantsNow;
    forall j | 0 <= j < |seen|
      ensures seen[j].step == start + StepsIn(ops[..i + 1][..j + 1]) * substeps
    {
      assert ops[..i][..j + 1] == ops[..i + 1][..j + 1];
    }
    assert ops[..i + 1][..i + 1] == ops[..i + 1];
  }

  /**
   * A scene built at the dt chosen for its control rate, with no count pinned by its class, always
   * resolves, and then every run of it has simulated exactly one control period a `step`.
   */
  method RunAtRate(scene: Scene, rate: real, ops: seq<Op>) returns (ok: bool)
    requires rate > 0.0 && TimeBase.PhysicsDtFor(rate) == Some(scene.dt)
    requires scene.physicsSteps == 0 && scene.Calm()
    modifies scene`physicsSteps, scene`cameras, scene`lastRenders, scene`warned, scene`stepIdx, scene`log,
      scene`substeps
    ensures ok && scene.physicsSteps as real * scene.dt == StepsIn(ops) as real / rate
  {
    hide TimeBase.DeriveSubsteps, TimeBase.PhysicsDtFor, ObservedRight, StepsIn;
    TimeBase.DeriveRecoversMultiple(rate);
    TimeBase.ExactTicks(rate, StepsIn(ops));
    var count := scene.ResolveTimeBase(None, rate);
    ok := count.Some?;
    RunOps(scene, ops, 0);
  }

  // ------------------------------------------------------------------ without the world's clock

  /** After a rendered step the frame before the newest is that of the step before, so no deep pipeline waits for it. */
  lemma RenderedEachStep(before: seq<Camera>, j: nat, k: nat, m: nat)
    requires NewestShow(before, j) && InSequence(before, j) && m <= j < k
    ensures AllJustRendered(RenderAll(before, k, 1), k)
    ensures Waits(RenderAll(before, k, 1), m) <==> AtMost(before, 0)
  {
    RenderedIsJust(before, j, k);
    RenderKeepsDepths(before, k, 1);
    SameBounds(RenderAll(before, k, 1), before, 0);
    forall c | c in RenderAll(before, k, 1) && c.timed && c.inFlight != [] ensures Previous(c) >= m {
      var i :| 0 <= i < |before| && c == RenderedTimes(before[i], k, 1);
      assert before[i] in before;
      Drains(before[i], k, 1);
    }
  }

  /**
   * A reset and a fresh step: timed by the world's clock the step shows its own state exactly when no
   * pipeline is deeper than eight; timed by the step count, which is a tick behind, only when none is
   * deep at all.
   */
  method FreshAfterReset(scene: Scene, warmup: nat, settle: nat, ghost slack: nat)
    requires scene.substeps.Some? && scene.Precise(slack)
    modifies scene`physicsSteps, scene`cameras, scene`lastRenders, scene`warned, scene`stepIdx, scene`log
    ensures scene.physicsSteps == warmup + settle + 1 + scene.Substeps() && scene.stepIdx == 1
    ensures SameDepths(scene.cameras, old(scene.cameras))
    ensures scene.ShowsNow() <==> AtMost(scene.cameras, if scene.hasClock then MAX_CATCHUP_RENDERS else 0)
  {
    hide AllShow, InSequence, NewestShow, Accurate, RenderAll, Waits, AllJustRendered, AtMost;
    scene.Reset(warmup, settle, slack);
    ghost var before, steps := scene.cameras, scene.physicsSteps;
    var _ := scene.Step(FreshFrames, slack);
    RenderedEachStep(before, steps, scene.physicsSteps, 0);
    SameBounds(scene.cameras, before, 0);
    ShallowIsBounded(scene.cameras);
  }

  lemma ShallowIsBounded(cameras: seq<Camera>)
    ensures AtMost(cameras, 0) ==> AtMost(cameras, MAX_CATCHUP_RENDERS)
  {
  }

  /** A concrete scene without a clock, its camera one render deep, whose first fresh step shows an older state. */
  method TrailingScene() returns (scene: Scene)
    ensures fresh(scene) && scene.stepIdx == 1 && !scene.ShowsNow()
  {
    var dt := 1.0 / 60.0;
    scene := new Scene(dt, false, (i: nat) => TimeNs(i, dt), [Camera(None, [0], true)]);
    var _ := scene.ResolveTimeBase(Some(1), 60.0);
    assert scene.Precise(0);
    assert !AtMost(scene.cameras, 0) by {
      assert scene.cameras[0] in scene.cameras;
    }
    ghost var before := scene.cameras;
    FreshAfterReset(scene, 4, 0, 0);
    SameBounds(scene.cameras, before, 0);
  }
}
