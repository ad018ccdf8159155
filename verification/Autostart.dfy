/**
 * Driving a lifecycle node from outside: lost and late replies, empty reads, other activators.
 *
 * Time is in nanoseconds. Every wait takes at least one of them, and may overrun its timeout by
 * at most the lag of the environment.
 */
module Autostart {
  import opened Basics

  datatype State = Unconfigured | Inactive | Active | Other

  datatype Transition = Configure | Activate

  const SECOND: nat := 1_000_000_000
  const POLL_SLICE: nat := 2 * SECOND
  const READ_TIMEOUT: nat := 5 * SECOND
  const GRACE: nat := 5 * SECOND
  const SPIN_ONCE: nat := SECOND / 5

  /** The states that mean a transition landed. */
  predicate InGoal(t: Transition, s: State) {
    s.Active? || (t.Configure? && s.Inactive?)
  }

  function Rank(s: State): nat {
    match s case Unconfigured => 0 case Inactive => 1 case Active => 2 case Other => 0
  }

  // ------------------------------------------------------------------ the environment

  /** A stretch of the node's life; one that never falls back only climbs from unconfigured to active. */
  predicate Climbs(path: seq<State>) {
    && (forall s <- path :: !s.Other?)
    && forall i, j | 0 <= i < j < |path| :: Rank(path[i]) <= Rank(path[j])
  }

  /** Some state of the transition's goal was visited from position `mark` on. */
  predicate Visited(life: seq<State>, mark: nat, t: Transition) {
    exists i: nat | mark <= i < |life| :: InGoal(t, life[i])
  }

  /** A state that was read was the node's at some moment from position `mark` on. */
  predicate ReadAfter(life: seq<State>, mark: nat, s: Option<State>) {
    s.Some? ==> exists i: nat | mark <= i < |life| :: life[i] == s.value
  }

  lemma VisitedLater(life: seq<State>, more: seq<State>, mark: nat, t: Transition)
    ensures Visited(life, mark, t) ==> Visited(life + more, mark, t)
  {
    if i: nat :| mark <= i < |life| && InGoal(t, life[i]) {
      assert (life + more)[i] == life[i];
    }
  }

  lemma VisitedEarlierMark(life: seq<State>, mark: nat, earlier: nat, t: Transition)
    requires earlier <= mark && Visited(life, mark, t)
    ensures Visited(life, earlier, t)
  {
  }

  class Environment {
    /** The client's monotonic clock. */
    var now: int
    const lag: nat
    /** Nobody deactivates the node while we run. */
    const climbing: bool
    /** Every state the node has been in, the last one being the present. */
    var life: seq<State>
    var requests: seq<Transition>
    /** What the requests before the pending one were answered, and how many reads preceded each request. */
    var answers: seq<Option<bool>>
    var starts: seq<nat>
    /** Where the node's life was when the pending request was sent. */
    var mark: nat
    /** The answer to the pending request, once it has arrived. */
    var response: Option<bool>
    /** What every state read returned, oldest first. */
    var readings: seq<Option<State>>

    constructor (now: int, lag: nat, climbing: bool, start: State)
      requires climbing ==> !start.Other?
      ensures this.now == now && this.lag == lag && this.climbing == climbing && life == [start]
      ensures requests == [] && answers == [] && starts == [] && readings == [] && Sound()
    {
      this.now, this.lag, this.climbing := now, lag, climbing;
      life, requests, mark, response, readings := [start], [], 0, None, [];
      answers, starts := [], [];
    }

    /** What each request has been answered so far. */
    ghost function Answers(): seq<Option<bool>>
      reads this
    {
      if requests == [] then [] else answers + [response]
    }

    ghost predicate Sound()
      reads this
    {
      && life != [] && mark < |life|
      && (climbing ==> Climbs(life))
      && |starts| == |requests| && |answers| == (if requests == [] then 0 else |requests| - 1)
      && (response == Some(true) ==> requests != [] && Visited(life, mark, requests[|requests| - 1]))
    }

    /** The node and whoever else drives it do as they like for a while. */
    method Live()
      requires Sound()
      modifies this`life
      ensures Sound() && old(life) <= life
    {
      var anything: seq<State> := *;
      var path := if !climbing || Climbs(life + anything) then anything else [];
      if response == Some(true) {
        VisitedLater(life, path, mark, requests[|requests| - 1]);
      }
      life := life + path;
    }

    /** `call_async`: the request is on its way, its answer pending. */
    method Request(t: Transition)
      requires Sound()
      modifies this`requests, this`mark, this`response, this`answers, this`starts
      ensures answers == old(Answers())
      ensures starts == old(starts) + [|readings|]
      ensures Sound() && requests == old(requests) + [t] && mark == |life| - 1 && response == None
    {
      answers := if requests == [] then [] else answers + [response];
      requests, mark, response, starts := requests + [t], |life| - 1, None, starts + [|readings|];
    }

    method Wait(least: nat, most: nat)
      requires 1 <= least <= most
      modifies this`now
      ensures old(now) + least <= now <= old(now) + most
    {
      var took: nat := *;
      now := now + if least <= took <= most then took else least;
    }

    /**
     * `spin_until_future_complete` on the pending request. Without an answer it lasts its timeout;
     * an answer may be lost for ever. A successful answer means the node took the transition.
     */
    method Spin(timeout: nat) returns (done: bool)
      requires Sound() && lag >= 1 && requests != [] && response == None
      modifies this`now, this`life, this`response
      ensures Sound() && old(life) <= life
      ensures done <==> response.Some?
      ensures old(now) < now <= old(now) + timeout + lag
      ensures !done ==> now >= old(now) + timeout
    {
      Live();
      var answered: bool, success: bool := *, *;
      if answered {
        Wait(1, timeout + lag);
        if success && Visited(life, mark, requests[|requests| - 1]) {
          response := Some(true);
        } else {
          response := Some(false);
        }
        return true;
      }
      Wait(timeout + 1, timeout + lag);
      return false;
    }

    /** `_read_state`: the state at some moment of the call, or nothing when the answer is lost or empty. */
    method ReadState() returns (s: Option<State>)
      requires Sound() && lag >= 1
      modifies this`now, this`life, this`readings
      ensures Sound() && old(life) <= life && readings == old(readings) + [s]
      ensures old(now) < now <= old(now) + READ_TIMEOUT + lag
      ensures ReadAfter(life, |old(life)| - 1, s)
    {
      Live();
      var answered: bool := *;
      s := if answered then Some(life[|life| - 1]) else None;
      Live();
      Wait(1, READ_TIMEOUT + lag);
      readings := readings + [s];
    }

    /** `spin_once` between two reads of the grace period. */
    method SpinOnce()
      requires Sound() && lag >= 1
      modifies this`now, this`life
      ensures Sound() && old(life) <= life
      ensures old(now) < now <= old(now) + SPIN_ONCE + lag
    {
      Live();
      Wait(1, SPIN_ONCE + lag);
    }
  }

  // ------------------------------------------------------------------ the client

  function Positive(x: int): nat {
    if x < 0 then 0 else x
  }

  /** The longest `_drive_transition` can take, beyond its budget. */
  function Overrun(lag: nat): nat {
    2 * READ_TIMEOUT + GRACE + SPIN_ONCE + 5 * lag
  }

  function MaxInt(a: int, b: int): int {
    if a <= b then b else a
  }

  predicate GoalRead(t: Transition, s: Option<State>) {
    s.Some? && InGoal(t, s.value)
  }

  /** Some read from number `from` on returned a state of the transition's goal. */
  predicate GoalSeen(readings: seq<Option<State>>, from: nat, t: Transition) {
    exists k: nat | from <= k < |readings| :: GoalRead(t, readings[k])
  }

  lemma SeenIsVisited(life: seq<State>, from: nat, mark: nat, t: Transition, s: Option<State>)
    requires mark <= from && GoalRead(t, s) && ReadAfter(life, from, s)
    ensures Visited(life, mark, t)
  {
  }

  lemma OneMoreRead(readings: seq<Option<State>>, s: Option<State>, from: nat, t: Transition)
    requires from <= |readings|
    ensures GoalSeen(readings + [s], from, t) <==> GoalSeen(readings, from, t) || GoalRead(t, s)
  {
    if k: nat :| from <= k < |readings| && GoalRead(t, readings[k]) {
      assert (readings + [s])[k] == readings[k];
    }
    assert (readings + [s])[|readings|] == s;
  }

  /** A state that shows that the transition landed: for CONFIGURE inactive or active, for ACTIVATE only active. */
  ghost predicate Shows(t: Transition, s: State) {
    if t == Configure then s == Inactive || s == Active else s == Active
  }

  lemma ShowsIff(t: Transition)
    ensures forall s :: InGoal(t, s) <==> Shows(t, s)
  {
  }

  /** Such a state was read, from read number `from` on. */
  ghost predicate Saw(readings: seq<Option<State>>, from: nat, t: Transition) {
    exists k: nat | from <= k < |readings| :: readings[k].Some? && Shows(t, readings[k].value)
  }

  /** The node was in such a state, from position `mark` of its life on. */
  ghost predicate Was(life: seq<State>, mark: nat, t: Transition) {
    exists i: nat | mark <= i < |life| :: Shows(t, life[i])
  }

  lemma SawIff(readings: seq<Option<State>>, from: nat, t: Transition)
    ensures GoalSeen(readings, from, t) <==> Saw(readings, from, t)
  {
    ShowsIff(t);
  }

  lemma WasIff(life: seq<State>, mark: nat, t: Transition)
    ensures Visited(life, mark, t) <==> Was(life, mark, t)
  {
    ShowsIff(t);
  }

  /** The longest a client waits between two state reads. */
  function BetweenReads(lag: nat): nat {
    POLL_SLICE + READ_TIMEOUT + 2 * lag
  }

  /** One read inside `_drive_transition`: whether it shows the goal, and that it then was visited. */
  method ReadGoal(env: Environment, t: Transition, ghost from: nat) returns (landed: bool)
    requires env.Sound() && env.lag >= 1 && from <= |env.readings|
    requires !GoalSeen(env.readings, from, t)
    modifies env`now, env`life, env`readings
    ensures env.Sound() && old(env.life) <= env.life && old(env.readings) < env.readings
    ensures landed == GoalSeen(env.readings, from, t) == GoalRead(t, env.readings[|env.readings| - 1])
    ensures landed ==> Visited(env.life, env.mark, t)
    ensures old(env.now) < env.now <= old(env.now) + READ_TIMEOUT + env.lag
  {
    ghost var before, readings := env.life, env.readings;
    var s := env.ReadState();
    OneMoreRead(readings, s, from, t);
    landed := s.Some? && InGoal(t, s.value);
    if landed {
      SeenIsVisited(env.life, |before| - 1, env.mark, t, s);
    }
  }

  /** The longest time in which only `n` state reads are made. */
  function Spans(n: int, lag: nat): int {
    n * BetweenReads(lag)
  }

  lemma SpansGrow(n: int, lag: nat)
    ensures Spans(n + 1, lag) == Spans(n, lag) + BetweenReads(lag)
  {
  }

  lemma SpansMonotone(m: int, n: int, lag: nat)
    requires m <= n
    ensures Spans(m, lag) <= Spans(n, lag)
  {
    assert (n - m) * BetweenReads(lag) >= 0;
  }

  lemma SpansAdd(m: int, n: int, lag: nat)
    ensures Spans(m, lag) + Spans(n, lag) == Spans(m + n, lag)
  {
  }

  /** The polling part of `_drive_transition`: wait for the answer in slices, reading the state between them. */
  method Poll(env: Environment, t: Transition, deadline: int, ghost from: nat) returns (landed: bool)
    requires env.Sound() && env.lag >= 1 && env.requests != [] && env.requests[|env.requests| - 1] == t
            && env.response == None
    requires from == |env.readings|
    modifies env`now, env`life, env`response, env`readings
    ensures env.Sound() && old(env.life) <= env.life && old(env.readings) <= env.readings
    ensures landed == GoalSeen(env.readings, from, t)
    ensures landed ==> Visited(env.life, env.mark, t)
    ensures old(env.now) < env.now && (!landed ==> env.response.Some? || env.now >= deadline)
    ensures env.now <= MaxInt(old(env.now), deadline) + READ_TIMEOUT + 3 * env.lag
    ensures env.now - old(env.now) <= Spans(|env.readings| - |old(env.readings)| + 1, env.lag)
  {
    while true
      invariant env.now - old(env.now) <= Spans(|env.readings| - |old(env.readings)|, env.lag)
      invariant env.Sound() && old(env.life) <= env.life && env.response == None
      invariant old(env.readings) <= env.readings && !GoalSeen(env.readings, from, t)
      invariant env.now == old(env.now) || old(env.now) < env.now <= deadline + READ_TIMEOUT + 2 * env.lag
      decreases deadline - env.now
    {
      SpansGrow(|env.readings| - |old(env.readings)|, env.lag);
      var remaining := deadline - env.now;
      var done := env.Spin(Positive(if remaining < POLL_SLICE then remaining else POLL_SLICE));
      if done || remaining <= POLL_SLICE {
        return false;
      }
      ghost var before := |env.readings|;
      var seen := ReadGoal(env, t, from);
      SpansMonotone(before + 1 - |old(env.readings)|, |env.readings| - |old(env.readings)|, env.lag);
      SpansMonotone(|env.readings| - |old(env.readings)|, |env.readings| - |old(env.readings)| + 1, env.lag);
      if seen {
        return true;
      }
    }
  }

  /** The grace part: after the answer, or without one, the state still decides. */
  method Grace(env: Environment, t: Transition, response: Option<bool>, ghost from: nat) returns (ok: bool)
    requires env.Sound() && env.lag >= 1 && env.requests != [] && env.requests[|env.requests| - 1] == t
    requires response == env.response && from <= |env.readings| && !GoalSeen(env.readings, from, t)
    modifies env`now, env`life, env`readings
    ensures env.Sound() && old(env.life) <= env.life && old(env.readings) < env.readings
    ensures ok ==> Visited(env.life, env.mark, t)
    ensures ok <==> response == Some(true) || GoalSeen(env.readings, from, t)
    ensures !ok ==> env.now >= old(env.now) + GRACE && !GoalRead(t, env.readings[|env.readings| - 1])
    ensures old(env.now) < env.now <= old(env.now) + GRACE + SPIN_ONCE + READ_TIMEOUT + 2 * env.lag
    ensures env.now - old(env.now) <= Spans(|env.readings| - |old(env.readings)|, env.lag)
  {
    var deadline := env.now + GRACE;
    while true
      invariant env.Sound() && old(env.life) <= env.life
      invariant env.now - old(env.now) <= Spans(|env.readings| - |old(env.readings)|, env.lag)
      invariant old(env.readings) <= env.readings && !GoalSeen(env.readings, from, t)
      invariant old(env.now) <= env.now <= deadline + SPIN_ONCE + env.lag
      decreases deadline - env.now
    {
      SpansGrow(|env.readings| - |old(env.readings)|, env.lag);
      ghost var before := |env.readings|;
      var seen := ReadGoal(env, t, from);
      SpansMonotone(before + 1 - |old(env.readings)|, |env.readings| - |old(env.readings)|, env.lag);
      if seen || response == Some(true) {
        return true;
      }
      if env.now >= deadline {
        return false;
      }
      env.SpinOnce();
    }
  }

  /**
   * `_drive_transition`: it ends within its budget and a fixed overrun, and returns normally exactly
   * when success was answered or a goal state was read during the call; the node then was in a goal
   * state at some moment since the request. It gives up only after the whole grace period, and without
   * an answer only after the whole budget, having read the state again and again.
   */
  method DriveTransition(env: Environment, t: Transition, timeout: int) returns (ok: bool)
    requires env.Sound() && env.lag >= 1
    modifies env
    ensures env.Sound() && old(env.life) <= env.life && old(env.readings) <= env.readings
    ensures env.requests == old(env.requests) + [t] && env.starts == old(env.starts) + [|old(env.readings)|]
    ensures env.answers == old(env.Answers())
    ensures ok ==> Visited(env.life, |old(env.life)| - 1, t)
    ensures ok <==> env.response == Some(true) || GoalSeen(env.readings, |old(env.readings)|, t)
    ensures ok <==> env.response == Some(true) || Saw(env.readings, |old(env.readings)|, t)
    ensures ok ==> Was(env.life, |old(env.life)| - 1, t)
    ensures env.now - old(env.now) <= Spans(|env.readings| - |old(env.readings)| + 1, env.lag)
    ensures !ok ==> |env.readings| > |old(env.readings)| && !GoalRead(t, env.readings[|env.readings| - 1])
    ensures !ok ==> env.now >= old(env.now) + GRACE + if env.response.None? then Positive(timeout) else 0
    ensures old(env.now) < env.now <= old(env.now) + Positive(timeout) + Overrun(env.lag)
  {
    ghost var from := |env.readings|;
    env.Request(t);
    ok := Poll(env, t, env.now + timeout, from);
    if !ok {
      SpansAdd(|env.readings| - from + 1, 0, env.lag);
      ghost var polled := |env.readings|;
      ok := Grace(env, t, env.response, from);
      SpansAdd(polled - from + 1, |env.readings| - polled, env.lag);
    }
    SawIff(env.readings, from, t);
    WasIff(env.life, |old(env.life)| - 1, t);
  }

  // ------------------------------------------------------------------ main

  datatype Target = ToInactive | ToActive

  function TransitionsTo(target: Target): seq<Transition> {
    if target.ToInactive? then [Configure] else [Configure, Activate]
  }

  function TargetTransition(target: Target): Transition {
    if target.ToInactive? then Configure else Activate
  }

  /** What must have been requested once the first `i` transitions are dealt with, given the first read. */
  function Requested(first: Option<State>, i: nat): seq<Transition> {
    (if i >= 1 && first != Some(Inactive) then [Configure] else []) + (if i >= 2 then [Activate] else [])
  }

  /** What a run requests, by its first and last state read. */
  predicate RequestsFit(requests: seq<Transition>, target: Target, first: Option<State>, last: Option<State>,
                        ok: bool) {
    exists i: nat | i <= |TransitionsTo(target)| ::
      && requests == Requested(first, i) && (i == 0 <==> first == Some(Active))
      && (ok && i < |TransitionsTo(target)| ==> last == Some(Active))
  }

  lemma FitsAt(requests: seq<Transition>, target: Target, first: Option<State>, last: Option<State>, ok: bool, i: nat)
    requires i <= |TransitionsTo(target)| && requests == Requested(first, i) && (i == 0 <==> first == Some(Active))
    requires ok && i < |TransitionsTo(target)| ==> last == Some(Active)
    ensures RequestsFit(requests, target, first, last, ok)
  {
  }

  /**
   * Which requests are sent: CONFIGURE unless the first read is inactive or active, ACTIVATE only for an
   * active target and never before it; nothing is left out before exit 0 unless the last read is active.
   */
  ghost predicate FewRequests(requests: seq<Transition>, target: Target, first: Option<State>, last: Option<State>,
                              ok: bool) {
    && requests in {[], [Configure], [Activate], [Configure, Activate]}
    && (Configure in requests <==> first != Some(Inactive) && first != Some(Active))
    && (Activate in requests ==> target == ToActive && first != Some(Active))
    && (ok && target == ToActive && Activate !in requests ==> last == Some(Active))
  }

  lemma FitIsFew(requests: seq<Transition>, target: Target, first: Option<State>, last: Option<State>, ok: bool)
    requires RequestsFit(requests, target, first, last, ok)
    ensures FewRequests(requests, target, first, last, ok)
  {
    var i: nat :| i <= |TransitionsTo(target)|
      && requests == Requested(first, i) && (i == 0 <==> first == Some(Active))
      && (ok && i < |TransitionsTo(target)| ==> last == Some(Active));
    var configured := if i >= 1 && first != Some(Inactive) then [Configure] else [];
    assert requests == if i >= 2 then configured + [Activate] else configured;
    assert [] + [Activate] == [Activate] && [Configure] + [Activate] == [Configure, Activate];
  }

  lemma RequestedNext(target: Target, first: Option<State>, i: nat)
    requires i < |TransitionsTo(target)|
    ensures Requested(first, i + 1) ==
            if i == 0 && first == Some(Inactive) then Requested(first, i)
            else Requested(first, i) + [TransitionsTo(target)[i]]
  {
  }

  lemma ReadAfterEarlier(life: seq<State>, from: nat, mark: nat, s: Option<State>)
    requires mark <= from && ReadAfter(life, from, s)
    ensures ReadAfter(life, mark, s)
  {
  }

  lemma PrefixVisited(life: seq<State>, later: seq<State>, mark: nat, t: Transition)
    requires life <= later && Visited(life, mark, t)
    ensures Visited(later, mark, t)
  {
    var i: nat :| mark <= i < |life| && InGoal(t, life[i]);
    assert later[i] == life[i];
  }

  /** A node nobody takes back is still where it was seen, or further. */
  lemma StaysInGoal(life: seq<State>, mark: nat, t: Transition)
    requires Climbs(life) && Visited(life, mark, t)
    ensures InGoal(t, life[|life| - 1])
  {
    var i: nat :| mark <= i < |life| && InGoal(t, life[i]);
    assert i == |life| - 1 || Rank(life[i]) <= Rank(life[|life| - 1]);
    assert !life[|life| - 1].Other?;
  }

  /** The longest one turn of the loop can take. */
  function Turn(timeout: int, lag: nat): nat {
    Positive(timeout) + Overrun(lag) + READ_TIMEOUT + lag
  }

  /** Between request `i` and the next one, or the end: success was answered, or a goal state read. */
  ghost predicate Certified(requests: seq<Transition>, starts: seq<nat>, answers: seq<Option<bool>>,
                            readings: seq<Option<State>>, i: nat)
    requires i < |requests| == |starts| == |answers|
  {
    var end := if i + 1 < |starts| then starts[i + 1] else |readings|;
    answers[i] == Some(true) || (end <= |readings| && GoalSeen(readings[..end], starts[i], requests[i]))
  }

  /** Later requests and reads do not change what certified an earlier request. */
  lemma CertifiedStays(requests: seq<Transition>, starts: seq<nat>, answers: seq<Option<bool>>,
                       readings: seq<Option<State>>, i: nat, t: Transition, answer: Option<bool>,
                       later: seq<Option<State>>)
    requires i < |requests| == |starts| == |answers| && readings <= later
    requires i + 1 < |starts| ==> starts[i + 1] <= |readings|
    ensures Certified(requests, starts, answers, readings, i) <==>
            Certified(requests + [t], starts + [|readings|], answers + [answer], later, i)
  {
    var end := if i + 1 < |starts| then starts[i + 1] else |readings|;
    assert readings[..end] == later[..end];
  }

  /** Of all requests so far, exactly the first `n` are certified. */
  ghost predicate CertifiedTo(requests: seq<Transition>, starts: seq<nat>, answers: seq<Option<bool>>,
                              readings: seq<Option<State>>, n: nat) {
    && n <= |requests| == |starts| == |answers|
    && (forall i | 0 <= i < |starts| :: starts[i] <= |readings|)
    && forall i: nat | i < |requests| :: Certified(requests, starts, answers, readings, i) <==> i < n
  }

  lemma NothingRequested(env: Environment)
    requires env.Sound() && env.requests == []
    ensures CertifiedTo(env.requests, env.starts, env.Answers(), env.readings, 0)
  {
  }

  lemma SoundLife(env: Environment)
    requires env.Sound()
    ensures env.life != [] && (env.climbing ==> Climbs(env.life))
  {
  }

  lemma CertifiedNext(requests: seq<Transition>, starts: seq<nat>, answers: seq<Option<bool>>,
                      readings: seq<Option<State>>, t: Transition, answer: Option<bool>, later: seq<Option<State>>)
    requires CertifiedTo(requests, starts, answers, readings, |requests|) && readings <= later
    ensures var ok := answer == Some(true) || GoalSeen(later, |readings|, t);
            CertifiedTo(requests + [t], starts + [|readings|], answers + [answer], later,
                        |requests| + if ok then 1 else 0)
  {
    forall i: nat | i < |requests|
      ensures Certified(requests + [t], starts + [|readings|], answers + [answer], later, i)
    {
      CertifiedStays(requests, starts, answers, readings, i, t, answer, later);
    }
    assert later[..|later|] == later;
  }

  /** One turn of the loop that is not skipped: request the transition, then read the state again. */
  method Advance(env: Environment, t: Transition, timeout: int, ghost mark: nat) returns (ok: bool, next: Option<State>)
    requires env.Sound() && env.lag >= 1 && mark < |env.life|
    requires CertifiedTo(env.requests, env.starts, env.Answers(), env.readings, |env.requests|)
    modifies env
    ensures CertifiedTo(env.requests, env.starts, env.Answers(), env.readings,
                        |old(env.requests)| + if ok then 1 else 0)
    ensures env.Sound() && old(env.life) <= env.life && old(env.readings) < env.readings
    ensures env.requests == old(env.requests) + [t]
    ensures ok ==>
            Visited(env.life, mark, t) && ReadAfter(env.life, mark, next)
            && env.readings[|env.readings| - 1] == next
    ensures old(env.now) <= env.now <= old(env.now) + Turn(timeout, env.lag)
  {
    hide CertifiedTo, Visited, ReadAfter, Climbs, GoalSeen;
    ghost var start, seen0, requests, starts, answers := env.life, env.readings, env.requests, env.starts,
        env.Answers();
    next := None;
    ok := DriveTransition(env, t, timeout);
    if ok {
      ghost var driven := env.life;
      VisitedEarlierMark(driven, |start| - 1, mark, t);
      ghost var seen := env.readings;
      next := env.ReadState();
      OneMoreRead(seen, next, |seen0|, t);
      PrefixVisited(driven, env.life, mark, t);
      ReadAfterEarlier(env.life, |driven| - 1, mark, next);
    }
    CertifiedNext(requests, starts, answers, seen0, t, env.response, env.readings);
  }

  /**
   * `main` once the services are found: `true` is exit code 0, `false` the uncaught error. It ends in
   * bounded time. CONFIGURE is requested exactly when the first read is neither inactive nor active,
   * ACTIVATE after it or after reading inactive, each at most once. Every request is certified before
   * the next one is sent, and before exit 0; on exit 1 the last one never was. Exit 0 means that the
   * node reached the target or beyond during the run, and if nobody takes it back it is still there.
   */
  method AutoStart(env: Environment, target: Target, timeout: int) returns (ok: bool)
    requires env.Sound() && env.lag >= 1 && env.requests == []
    modifies env
    ensures env.Sound() && old(env.life) <= env.life && old(env.readings) < env.readings
    ensures FewRequests(env.requests, target, env.readings[|old(env.readings)|],
                        env.readings[|env.readings| - 1], ok)
    ensures ok ==> Was(env.life, |old(env.life)| - 1, if target.ToActive? then Activate else Configure)
    ensures RequestsFit(env.requests, target, env.readings[|old(env.readings)|], env.readings[|env.readings| - 1], ok)
    ensures ok || env.requests != []
    ensures CertifiedTo(env.requests, env.starts, env.Answers(), env.readings, |env.requests| - if ok then 0 else 1)
    ensures ok ==> Visited(env.life, |old(env.life)| - 1, TargetTransition(target))
    ensures ok && env.climbing ==> InGoal(TargetTransition(target), env.life[|env.life| - 1])
    ensures env.now <= old(env.now) + READ_TIMEOUT + env.lag + 2 * Turn(timeout, env.lag)
  {
    hide FewRequests, Was;
    hide Turn, Visited, ReadAfter, CertifiedTo, Requested, Going, RequestsFit, Environment.Sound, Environment.Answers;
    SoundLife(env);
    ghost var mark, turn := |env.life| - 1, Turn(timeout, env.lag);
    var current := env.ReadState();
    NothingRequested(env);
    ghost var first, readings := current, env.readings;
    StartsGoing(env, target, current, mark);
    var i := 0;
    while i < |TransitionsTo(target)|
      invariant 0 <= i <= |TransitionsTo(target)| && Going(env, target, i, first, current, mark)
      invariant old(env.life) <= env.life && readings <= env.readings
      invariant env.now <= old(env.now) + READ_TIMEOUT + env.lag
                           + if i == 0 then 0 else if i == 1 then turn else 2 * turn
    {
      if current == Some(Active) {
        break;
      }
      ok, current := HandleTransition(env, target, i, current, timeout, first, mark);
      i := i + 1;
      if !ok {
        FitIsFew(env.requests, target, first, env.readings[|env.readings| - 1], false);
        return false;
      }
    }
    EndsWell(env, target, i, first, current, mark);
    FitIsFew(env.requests, target, first, env.readings[|env.readings| - 1], true);
    WasIff(env.life, mark, TargetTransition(target));
    ok := true;
  }

  /** The state of the loop before its `i`-th transition. */
  ghost predicate Going(env: Environment, target: Target, i: nat, first: Option<State>, current: Option<State>,
                        mark: nat)
    reads env
  {
    && i <= |TransitionsTo(target)| && env.Sound() && mark < |env.life|
    && env.requests == Requested(first, i) && env.readings != [] && env.readings[|env.readings| - 1] == current
    && CertifiedTo(env.requests, env.starts, env.Answers(), env.readings, |env.requests|)
    && ReadAfter(env.life, mark, current)
    && (i == 0 || (first == Some(Inactive) && i == 1) ==> current == first)
    && (i > 0 ==> first != Some(Active) && Visited(env.life, mark, TransitionsTo(target)[i - 1]))
  }

  lemma StartsGoing(env: Environment, target: Target, first: Option<State>, mark: nat)
    requires env.Sound() && env.requests == [] && env.readings != [] && env.readings[|env.readings| - 1] == first
    requires CertifiedTo(env.requests, env.starts, env.Answers(), env.readings, 0)
    requires mark < |env.life| && ReadAfter(env.life, mark, first)
    ensures Going(env, target, 0, first, first, mark)
  {
    hide CertifiedTo, Environment.Sound, Environment.Answers;
  }

  /** The loop has run out of transitions, or the node is active. */
  lemma EndsWell(env: Environment, target: Target, i: nat, first: Option<State>, current: Option<State>, mark: nat)
    requires Going(env, target, i, first, current, mark)
    requires i == |TransitionsTo(target)| || current == Some(Active)
    ensures RequestsFit(env.requests, target, first, env.readings[|env.readings| - 1], true)
    ensures CertifiedTo(env.requests, env.starts, env.Answers(), env.readings, |env.requests|)
    ensures env.Sound() && Visited(env.life, mark, TargetTransition(target))
    ensures env.climbing ==> InGoal(TargetTransition(target), env.life[|env.life| - 1])
  {
    hide CertifiedTo, Environment.Answers, RequestsFit;
    FitsAt(env.requests, target, first, current, true, i);
    if current == Some(Active) {
      SeenIsVisited(env.life, mark, mark, TargetTransition(target), current);
    }
    if env.climbing {
      StaysInGoal(env.life, mark, TargetTransition(target));
    }
  }

  /** One turn of the loop while the node is not active: the transition is skipped or requested. */
  method HandleTransition(env: Environment, target: Target, i: nat, current: Option<State>, timeout: int,
                          ghost first: Option<State>, ghost mark: nat)
    returns (ok: bool, next: Option<State>)
    requires env.lag >= 1 && i < |TransitionsTo(target)| && current != Some(Active)
            && Going(env, target, i, first, current, mark)
    modifies env
    ensures old(env.life) <= env.life && old(env.readings) <= env.readings && env.readings != []
    ensures ok ==> Going(env, target, i + 1, first, next, mark)
    ensures !ok ==> && env.Sound() && env.requests != []
                    && RequestsFit(env.requests, target, first, env.readings[|env.readings| - 1], false)
                    && CertifiedTo(env.requests, env.starts, env.Answers(), env.readings, |env.requests| - 1)
    ensures old(env.now) <= env.now <= old(env.now) + Turn(timeout, env.lag)
  {
    hide CertifiedTo, Environment.Sound, Environment.Answers, ReadAfter, Visited, RequestsFit, Turn;
    RequestedNext(target, first, i);
    var t := TransitionsTo(target)[i];
    if current == Some(Inactive) && t == Configure {
      SeenIsVisited(env.life, mark, mark, Configure, current);
      return true, current;
    }
    ok, next := Advance(env, t, timeout, mark);
    if !ok {
      FitsAt(env.requests, target, first, env.readings[|env.readings| - 1], false, i + 1);
    }
  }
}
