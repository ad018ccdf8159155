/** `_serve`: one client connection, from its hello to its end. */
module Serve {
  import opened Basics
  import opened Relay
  import opened RelaySafety
  import opened Handshake
  import opened History
  import opened BridgeObject
  import F = Framing
  import P = ProcessStack

  const STATE_PERIOD := 0.02

  /** A decoded record. */
  datatype Message = HelloRecord(hello: Hello) | Action(packet: Packet) | EStop | Unsupported | NotJson

  /** What happens around one record: the callbacks and clock readings of its call, and the clock after it. */
  datatype Line = Line(calls: Schedule, now: real)

  /**
   * What happens at the end of a turn: its clock reading, the callbacks before the relay state is read,
   * the report's call.
   */
  datatype Lease = Lease(now: real, before: seq<Callback>, calls: Schedule)

  /** One turn of the loop; no chunk when the socket is not readable. */
  datatype Round = Round(chunk: Option<seq<F.Byte>>, atLine: nat -> Line, atLease: Lease)

  /**
   * How a turn passed its end: no contract yet, or the lease held when the history was `mark` sections long,
   * and a report was due or not.
   */
  datatype TurnEnd = BeforeHello | LeasePassed(mark: nat, now: real, reports: bool)

  datatype Ending = ShutDown | Disconnected | Stopped | Failed

  // ------------------------------------------------------------------ what a session promises

  /**
   * A relay in motion has accepted an action, and if it is ACTIVE the last one it accepted returned
   * no longer than the lease ago; `accepted` holds the clock readings after the accepted actions.
   */
  ghost predicate LeaseHeld(r: Relay, now: real, accepted: seq<real>) {
    && r.accepted <= |accepted| && (InMotion(r) ==> r.accepted > 0)
    && (r.state.Active? ==> r.config.Some? && now - accepted[r.accepted - 1] <= r.config.value.lease <= MAX_LEASE)
  }

  ghost predicate TurnOk(t: TurnEnd, h: seq<Done>, accepted: seq<real>) {
    t.LeasePassed? ==>
      && t.mark <= |h| && LeaseHeld(WorldAfter(h[..t.mark]).relay, t.now, accepted)
      && (t.reports ==> t.mark < |h| && ReportBegins(WorldAfter(h[..t.mark]).relay, h[t.mark].event))
  }

  /** A call of `state` under the relay's contract. */
  ghost predicate ReportBegins(r: Relay, e: Event) {
    r.config.Some? && e == Begin(Call(None, r.config.value, false))
  }

  /** When the last report was due, or zero. */
  function LastReport(turns: seq<TurnEnd>): real {
    if turns == [] then 0.0
    else
      var last := turns[|turns| - 1];
      if last.LeasePassed? && last.reports then last.now else LastReport(turns[..|turns| - 1])
  }

  /** A report is due 20 ms after the last one. */
  ghost predicate ReportsDue(turns: seq<TurnEnd>) {
    forall i | 0 <= i < |turns| && turns[i].LeasePassed? ::
      turns[i].reports <==> turns[i].now >= LastReport(turns[..i]) + 0.02
  }

  lemma NextReport(turns: seq<TurnEnd>, t: TurnEnd)
    ensures LastReport(turns + [t]) == if t.LeasePassed? && t.reports then t.now else LastReport(turns)
  {
    assert (turns + [t])[..|turns|] == turns;
  }

  lemma ReportsNext(turns: seq<TurnEnd>, t: TurnEnd)
    requires ReportsDue(turns) && (t.LeasePassed? ==> (t.reports <==> t.now >= LastReport(turns) + 0.02))
    ensures ReportsDue(turns + [t])
  {
    var longer := turns + [t];
    assert longer[..|turns|] == turns;
    forall i | 0 <= i < |turns| ensures longer[..i] == turns[..i] {}
    forall i | 0 <= i < |longer| && longer[i].LeasePassed?
      ensures longer[i].reports <==> longer[i].now >= LastReport(longer[..i]) + 0.02
    {
      assert i < |turns| ==> longer[..i] == turns[..i] && longer[i] == turns[i];
    }
  }

  ghost predicate TurnsOk(turns: seq<TurnEnd>, h: seq<Done>, accepted: seq<real>) {
    forall t <- turns :: TurnOk(t, h, accepted)
  }

  lemma TurnsStayOk(turns: seq<TurnEnd>, h: seq<Done>, k: seq<Done>, a: seq<real>, b: seq<real>)
    requires TurnsOk(turns, h, a) && h <= k && a <= b
    ensures TurnsOk(turns, k, b)
  {
    forall t | t in turns && t.LeasePassed? ensures TurnOk(t, k, b) {
      assert k[..t.mark] == h[..t.mark];
      assert t.mark < |h| ==> k[t.mark] == h[t.mark];
    }
  }

  function Last(accepted: seq<real>): Option<real> {
    if accepted == [] then None else Some(accepted[|accepted| - 1])
  }

  /** A record that opens a session: a hello whose contract is accepted. */
  predicate Opens(m: Message) {
    m.HelloRecord? && HelloConfig(m.hello).Some?
  }

  /** The lease of an active relay has run out. */
  predicate LeaseExpired(r: Relay, c: Config, lastCommand: Option<real>, now: real) {
    lastCommand.Some? && r.state.Active? && now - lastCommand.value > c.lease
  }

  // ------------------------------------------------------------------ the stream

  /** All the bytes the rounds deliver. */
  function Stream(rounds: seq<Round>): seq<F.Byte> {
    if rounds == [] then []
    else
      var last := rounds[|rounds| - 1];
      Stream(rounds[..|rounds| - 1]) + if last.chunk.Some? then last.chunk.value else []
  }

  lemma StreamNext(rounds: seq<Round>, i: nat)
    requires i < |rounds|
    ensures Stream(rounds[..i + 1]) ==
            if rounds[i].chunk.Some? then Stream(rounds[..i]) + rounds[i].chunk.value else Stream(rounds[..i])
  {
    assert rounds[..i + 1][..i] == rounds[..i];
  }

  /** The first `n` rounds bring no complete record. */
  ghost predicate NoRecordYet(rounds: seq<Round>, n: nat)
    requires n <= |rounds|
  {
    var taken := F.TakeRecords(Stream(rounds[..n]));
    taken.Some? && taken.value.records == []
  }

  /** Each turn has its end: before the first record there is no contract, from then on its lease check passed. */
  ghost predicate TurnsComplete(turns: seq<TurnEnd>, rounds: seq<Round>) {
    && |turns| <= |rounds|
    && forall i | 0 <= i < |turns| ::
         && rounds[i].chunk != Some([])
         && (turns[i].BeforeHello? <==> NoRecordYet(rounds, i + 1))
         && (turns[i].LeasePassed? ==> turns[i].now == rounds[i].atLease.now)
  }

  lemma TurnsBounded(turns: seq<TurnEnd>, rounds: seq<Round>)
    requires TurnsComplete(turns, rounds)
    ensures |turns| <= |rounds|
  {
  }

  lemma OneMoreTurn(turns: seq<TurnEnd>, rounds: seq<Round>, t: TurnEnd)
    requires TurnsComplete(turns, rounds) && |turns| < |rounds| && rounds[|turns|].chunk != Some([])
    requires t.BeforeHello? <==> NoRecordYet(rounds, |turns| + 1)
    requires t.LeasePassed? ==> t.now == rounds[|turns|].atLease.now
    ensures TurnsComplete(turns + [t], rounds)
  {
    hide NoRecordYet;
  }

  /** The records are the first ones of what some of the rounds bring. */
  ghost predicate TakenFrom(records: seq<seq<F.Byte>>, rounds: seq<Round>) {
    exists n: nat | n <= |rounds| :: TakenAt(records, rounds, n)
  }

  ghost predicate TakenAt(records: seq<seq<F.Byte>>, rounds: seq<Round>, n: nat)
    requires n <= |rounds|
  {
    var taken := F.TakeRecords(Stream(rounds[..n]));
    taken.Some? && records <= taken.value.records
  }

  lemma NothingTaken(rounds: seq<Round>)
    ensures TakenFrom([], rounds)
  {
    assert Stream(rounds[..0]) == [];
    assert TakenAt([], rounds, 0);
  }

  lemma FirstOnesTaken(records: seq<seq<F.Byte>>, rounds: seq<Round>, n: nat)
    requires n <= |rounds| && TakenAt(records, rounds, n)
    ensures TakenFrom(records, rounds)
  {
  }

  lemma AllTaken(records: seq<seq<F.Byte>>, rest: seq<F.Byte>, rounds: seq<Round>, n: nat)
    requires n <= |rounds| && F.TakeRecords(Stream(rounds[..n])) == Some(F.Taken(records, rest))
    ensures TakenFrom(records, rounds)
  {
    assert TakenAt(records, rounds, n);
  }

  /** The actions among the records after the hello. */
  ghost function Actions(records: seq<seq<F.Byte>>, parse: seq<F.Byte> -> Message): seq<Packet> {
    if records == [] then [] else Found(records[1..], ActionIn(parse))
  }

  ghost function ActionIn(parse: seq<F.Byte> -> Message): seq<F.Byte> -> Option<Packet> {
    record => match parse(record) case Action(packet) => Some(packet) case _ => None
  }

  function ActionOf(m: Message): seq<Packet> {
    if m.Action? then [m.packet] else []
  }

  lemma ActionsNext(records: seq<seq<F.Byte>>, r: seq<F.Byte>, parse: seq<F.Byte> -> Message)
    ensures Actions(records + [r], parse) == Actions(records, parse) + if records == [] then [] else ActionOf(parse(r))
  {
    if records != [] {
      assert (records + [r])[1..] == records[1..] + [r];
      FoundNext(records[1..], r, ActionIn(parse));
    } else {
      assert ([] + [r])[1..] == [];
    }
  }

  /** Records that let a session go on: an acceptable hello, then actions. */
  ghost predicate GoesOn(records: seq<seq<F.Byte>>, parse: seq<F.Byte> -> Message) {
    && (records != [] ==> Opens(parse(records[0])))
    && forall k | 0 < k < |records| :: parse(records[k]).Action?
  }

  lemma GoesOnNext(records: seq<seq<F.Byte>>, r: seq<F.Byte>, parse: seq<F.Byte> -> Message)
    requires GoesOn(records, parse) && if records == [] then Opens(parse(r)) else parse(r).Action?
    ensures GoesOn(records + [r], parse)
  {
    hide Opens;
  }

  // ------------------------------------------------------------------ the session

  class Session {
    const bridge: Bridge
    const stack: P.Stack
    var processes: map<P.Pid, P.Process>
    var buffer: seq<F.Byte>
    var config: Option<Config>
    var lastCommand: Option<real>
    var firstJointCommand: bool
    var lastStateSend: real
    /** Every byte received and every record taken up so far, the one that ended the session included. */
    ghost var received: seq<F.Byte>
    ghost var handled: seq<seq<F.Byte>>
    /** The clock readings after the accepted actions, and the ends of the turns so far. */
    ghost var accepted: seq<real>
    ghost var turns: seq<TurnEnd>

    constructor (bridge: Bridge, stack: P.Stack, processes: map<P.Pid, P.Process>)
      requires bridge.Valid() && bridge.pc.Idle? && CallsWithinCeilings(bridge.history)
      requires bridge.state.Locked? && bridge.config.None? && bridge.accepted == 0
      ensures this.bridge == bridge && this.stack == stack && this.processes == processes
      ensures Valid() && InStep() && received == [] && turns == []
    {
      this.bridge, this.stack, this.processes := bridge, stack, processes;
      buffer, config, lastCommand, firstJointCommand, lastStateSend := [], None, None, true, 0.0;
      received, handled, accepted, turns := [], [], [], [];
    }

    /** The records handled and the bytes kept are those of the whole stream so far. */
    ghost predicate InStep()
      reads this
    {
      F.TakeRecords(received) == Some(F.Taken(handled, buffer)) && (config.None? <==> handled == [])
    }

    /** What holds even of a session that has failed. */
    ghost predicate Recorded()
      reads this, bridge
    {
      && bridge.Valid() && bridge.pc.Idle? && CallsWithinCeilings(bridge.history)
      && TurnsOk(turns, bridge.history, accepted) && ReportsDue(turns)
    }

    ghost predicate Valid()
      reads this, bridge
    {
      Held() && lastStateSend == LastReport(turns)
    }

    ghost predicate Held()
      reads this, bridge
    {
      && Recorded()
      && config == bridge.config && (config.Some? ==> WithinCeilings(config.value))
      && bridge.accepted == |accepted| && lastCommand == Last(accepted)
      && (InMotion(bridge.View()) ==> accepted != []) && (config.None? ==> accepted == [])
    }

    /** Every record so far let the session go on, and every action returned. */
    ghost predicate Going(parse: seq<F.Byte> -> Message)
      reads this
    {
      GoesOn(handled, parse) && |accepted| == if handled == [] then 0 else |handled| - 1
    }

    /** The records before the last one let the session go on. */
    ghost predicate WentOn(parse: seq<F.Byte> -> Message)
      reads this
    {
      handled != [] && GoesOn(handled[..|handled| - 1], parse)
    }

    /** The last record asks to stop, after a hello. */
    ghost predicate StopAsked(parse: seq<F.Byte> -> Message)
      reads this
    {
      WentOn(parse) && |handled| > 1 && parse(handled[|handled| - 1]).EStop?
    }

    /**
     * The last record had to be refused: no acceptable hello, a message that is not supported after it, an
     * action whose call raised, or an e-stop that left a child alive.
     */
    ghost predicate RecordRefused(parse: seq<F.Byte> -> Message)
      reads this, bridge, stack
    {
      WentOn(parse) &&
      var m := parse(handled[|handled| - 1]);
      if |handled| == 1 then !Opens(m)
      else if m.Action? then bridge.history != [] && bridge.LastOut().Raised?
      else m.EStop? ==> stack.children != []
    }

    /** The bytes received with the present round hold a record over the cap. */
    ghost predicate StreamRefused(rounds: seq<Round>, parse: seq<F.Byte> -> Message)
      reads this
    {
      && Going(parse) && |turns| < |rounds| && rounds[|turns|].chunk.Some?
      && F.TakeRecords(Stream(rounds[..|turns| + 1])).None?
    }

    /** The relay is ACTIVE, and its last accepted action is older than the lease. */
    ghost predicate LeaseRanOut(now: real)
      reads this, bridge
    {
      config.Some? && LeaseExpired(bridge.View(), config.value, Last(accepted), now)
    }

    /** The report due at the end of the last turn raised. */
    ghost predicate ReportRaised()
      reads this, bridge
    {
      config.Some? && turns != [] && bridge.history != [] &&
      var t, h := turns[|turns| - 1], bridge.history;
      && t.LeasePassed? && t.reports && t.mark <= |h| && OneCall(h[..t.mark], h, Call(None, config.value, false))
      && bridge.LastOut().Raised?
    }

    /** Why the session ended. */
    ghost predicate EndedBy(ending: Ending, rounds: seq<Round>, parse: seq<F.Byte> -> Message)
      reads this, bridge, stack
    {
      match ending
      case ShutDown => |turns| == |rounds| && Going(parse)
      case Disconnected => |turns| < |rounds| && rounds[|turns|].chunk == Some([]) && Going(parse)
      case Stopped => |turns| < |rounds| && StopAsked(parse)
      case Failed =>
        || StreamRefused(rounds, parse)
        || (|turns| < |rounds| && RecordRefused(parse))
        || (Going(parse) && |turns| < |rounds| && LeaseRanOut(rounds[|turns|].atLease.now))
        || (Going(parse) && ReportRaised())
    }

    /** Since `before`, exactly the actions among the records taken up were applied, in order. */
    ghost predicate AllApplied(before: seq<Packet>, parse: seq<F.Byte> -> Message)
      reads this, bridge
    {
      Applied(bridge.history) == before + Actions(handled, parse)
    }

    /** One record: hello, action or e-stop. The answer says whether the session goes on. */
    method Handle(m: Message, at: Line) returns (ending: Option<Ending>)
      requires Valid() && stack.Knows(processes)
      modifies this`config, this`lastCommand, this`firstJointCommand, this`accepted, this`processes, bridge, stack
      ensures Recorded() && old(bridge.history) <= bridge.history && old(accepted) <= accepted
      ensures ending.None? ==>
              Valid() && config.Some? && stack.children == old(stack.children)
              && processes == old(processes)
              && |accepted| == |old(accepted)| + if old(config).Some? then 1 else 0
      ensures Applied(bridge.history) == Applied(old(bridge.history)) + if old(config).Some? then ActionOf(m) else []
      ensures old(config).None? ==>
                && (ending == if Opens(m) then None else Some(Failed))
                && (ending.None? ==>
                    config == HelloConfig(m.hello)
                    && Configures(old(bridge.history), bridge.history, config.value))
      ensures old(config).Some? && m.Action? ==>
                && config == old(config) && bridge.history != []
                && OneCall(old(bridge.history), bridge.history,
                    Call(Some(m.packet), config.value, old(firstJointCommand)))
                && (bridge.LastOut().Returned? || bridge.LastOut().Raised?)
                && (ending == if bridge.LastOut().Returned? then None else Some(Failed))
                && (ending.None? ==>
                    accepted == old(accepted) + [at.now]
                    && firstJointCommand == bridge.LastOut().first)
      ensures old(config).Some? && !m.Action? ==>
                && bridge.history == old(bridge.history)
                && ending == if m.EStop? && stack.children == [] then Some(Stopped) else Some(Failed)
      ensures ending == Some(Stopped) ==> AllGone(old(stack.children))
      ensures ending.Some? ==> ending in {Some(Stopped), Some(Failed)}
    {
      hide OneCall, Faithful, WorldAfter, WithinCeilings, TurnsOk, CallsWithinCeilings;
      if config.None? {
        ending := HandleHello(m, at);
        return;
      }
      match m
      case Action(packet) => ending := HandleAction(packet, at);
      case EStop => ending := HandleEStop(at.now);
      case _ => ending := Some(Failed);
    }

    /** No child of the list is alive, and the stack is empty. */
    ghost predicate AllGone(children: seq<P.Pid>)
      reads this, stack
    {
      stack.children == [] && forall p <- children :: p in processes && processes[p].exited
    }

    method HandleHello(m: Message, at: Line) returns (ending: Option<Ending>)
      requires Valid() && config.None?
      modifies this`config, bridge
      ensures Recorded() && old(bridge.history) <= bridge.history
      ensures ending == if Opens(m) then None else Some(Failed)
      ensures ending.None? ==> Valid() && config.Some? && config == HelloConfig(m.hello)
      ensures ending.None? ==> Configures(old(bridge.history), bridge.history, config.value)
      ensures Applied(bridge.history) == Applied(old(bridge.history))
    {
      hide Faithful, WorldAfter, WithinCeilings, Step;
      if !m.HelloRecord? {
        return Some(Failed);
      }
      var c := HelloConfig(m.hello);
      if c.None? {
        return Some(Failed);
      }
      ghost var from := bridge.history;
      bridge.Gap(at.calls.before(0), from);
      config := c;
      ghost var before := bridge.history;
      bridge.Configure(c.value);
      SectionsKeepCeilings(from, before);
      OneMoreKeepsCeilings(before, Done(Event.Configure(c.value), Silent));
      ConfiguresBy(from, before, c.value);
      ConfigureAppliesNothing(from, bridge.history, c.value);
      TurnsStayOk(turns, from, bridge.history, accepted, accepted);
      return None;
    }

    method HandleAction(packet: Packet, at: Line) returns (ending: Option<Ending>)
      requires Valid() && config.Some?
      modifies this`lastCommand, this`firstJointCommand, this`accepted, bridge
      ensures Recorded() && old(bridge.history) <= bridge.history && bridge.history != [] && old(accepted) <= accepted
      ensures OneCall(old(bridge.history), bridge.history, Call(Some(packet), config.value, old(firstJointCommand)))
      ensures Applied(bridge.history) == Applied(old(bridge.history)) + [packet]
      ensures bridge.LastOut().Returned? || bridge.LastOut().Raised?
      ensures ending == if bridge.LastOut().Returned? then None else Some(Failed)
      ensures ending.None? ==>
              Valid() && accepted == old(accepted) + [at.now]
              && firstJointCommand == bridge.LastOut().first
    {
      hide Faithful, WorldAfter, WithinCeilings, OneCall, CallsWithinCeilings;
      var call := Call(Some(packet), config.value, firstJointCommand);
      ghost var before := bridge.history;
      var r := bridge.Apply(call, at.calls);
      CallKeepsCeilings(before, bridge.history, call);
      OneCallApplies(before, bridge.history, call);
      TurnsStayOk(turns, before, bridge.history, accepted, accepted);
      if r.Err? {
        return Some(Failed);
      }
      firstJointCommand, lastCommand := r.value, Some(at.now);
      TurnsStayOk(turns, bridge.history, bridge.history, accepted, accepted + [at.now]);
      accepted := accepted + [at.now];
      return None;
    }

    method HandleEStop(now: real) returns (ending: Option<Ending>)
      requires Recorded() && stack.Knows(processes)
      modifies this`processes, stack
      ensures Recorded() && stack.children in {[], old(stack.children)}
      ensures ending == if stack.children == [] then Some(Stopped) else Some(Failed)
      ensures ending == Some(Stopped) ==> AllGone(old(stack.children))
    {
      var ok, after, _, _, _ := stack.Stop(processes, now);
      processes := after;
      return if ok then Some(Stopped) else Some(Failed);
    }

    /** The end of a turn: the lease is checked after the stream is drained, then state may be reported. */
    method CheckLease(at: Lease) returns (ending: Option<Ending>, ghost mark: nat)
      requires Valid()
      modifies this`lastStateSend, this`turns, bridge
      ensures Recorded() && (ending.None? ==> Valid()) && Applied(bridge.history) == Applied(old(bridge.history))
      ensures mark <= |bridge.history| && Sections(old(bridge.history), bridge.history[..mark])
      ensures turns == old(turns) + (if config.None? then [BeforeHello]
                                     else if LeaseExpired(WorldAfter(bridge.history[..mark]).relay, config.value,
                                                          lastCommand, at.now) then []
                                     else [LeasePassed(mark, at.now, at.now >= LastReport(old(turns)) + 0.02)])
      ensures var r := WorldAfter(bridge.history[..mark]).relay;
              var due := config.Some? && !LeaseExpired(r, config.value, lastCommand, at.now)
                         && at.now - LastReport(old(turns)) >= STATE_PERIOD;
              && (if due then OneCall(bridge.history[..mark], bridge.history, Call(None, config.value, false))
                  else mark == |bridge.history|)
              && ending == if config.Some? && (LeaseExpired(r, config.value, lastCommand, at.now)
                  || (due && bridge.LastOut().Raised?))
                           then Some(Failed) else None
    {
      hide Faithful, Sections, OneCall, Step, WorldAfter, WithinCeilings, CallsWithinCeilings, TurnsOk, LeaseHeld,
          ReportsDue;
      ghost var before := turns;
      PassCallbacks(at.before);
      ghost var gap := bridge.history;
      mark := |gap|;
      assert gap[..mark] == gap;
      if config.None? {
        PassBeforeHello(before, gap, accepted);
        ReportsNext(before, BeforeHello);
        NextReport(before, BeforeHello);
        turns := turns + [BeforeHello];
        return None, mark;
      }
      if lastCommand.Some? && bridge.state.Active? && at.now - lastCommand.value > config.value.lease {
        return Some(Failed), mark;
      }
      LeasePasses(bridge.View(), config.value, lastCommand, at.now, accepted);
      ending := None;
      ghost var due := at.now >= LastReport(before) + 0.02;
      assert WorldAfter(gap).relay.config == config;
      if at.now - lastStateSend >= STATE_PERIOD {
        ending := Report(at);
      }
      assert bridge.history[..mark] == gap;
      PassLease(before, gap, bridge.history, accepted, at.now, due);
      ReportsNext(before, LeasePassed(mark, at.now, due));
      NextReport(before, LeasePassed(mark, at.now, due));
      turns := turns + [LeasePassed(mark, at.now, due)];
    }

    method PassCallbacks(before: seq<Callback>)
      requires Valid()
      modifies bridge
      ensures Valid() && Sections(old(bridge.history), bridge.history)
      ensures Applied(bridge.history) == Applied(old(bridge.history))
    {
      hide Faithful, WorldAfter, WithinCeilings;
      ghost var from := bridge.history;
      bridge.Gap(before, from);
      SectionsApplyNothing(from, bridge.history);
      TurnsStayOk(turns, from, bridge.history, accepted, accepted);
    }

    method Report(at: Lease) returns (ending: Option<Ending>)
      requires Valid() && config.Some?
      modifies this`lastStateSend, bridge
      ensures Recorded() && Applied(bridge.history) == Applied(old(bridge.history))
      ensures ending.None? ==> Held()
      ensures OneCall(old(bridge.history), bridge.history, Call(None, config.value, false))
      ensures old(bridge.history) < bridge.history
      ensures bridge.history[|old(bridge.history)|].event == Begin(Call(None, config.value, false))
      ensures ending == if bridge.LastOut().Raised? then Some(Failed) else None
      ensures ending.None? ==> lastStateSend == at.now
    {
      hide Faithful, WorldAfter, WithinCeilings, CallsWithinCeilings, TurnsOk;
      ghost var before := bridge.history;
      var answer := bridge.State(config.value, at.calls);
      CallKeepsCeilings(before, bridge.history, Call(None, config.value, false));
      OneCallApplies(before, bridge.history, Call(None, config.value, false));
      TurnsStayOk(turns, before, bridge.history, accepted, accepted);
      if answer.Err? {
        return Some(Failed);
      }
      lastStateSend := at.now;
      return None;
    }

    /**
     * The `_serve` loop, with callbacks between any two sections. However the session goes: the
     * relay's history is a faithful run of the lock-section machine, all the joint targets in it are safe,
     * and targets and strokes were asked for; each completed turn has passed its lease check and reported
     * when that was due; the records handled are those of the stream; the session ends for the cause
     * given, and as stopped only when no child process is left.
     */
    method Run(rounds: seq<Round>, parse: seq<F.Byte> -> Message) returns (ending: Ending)
      requires Valid() && InStep() && received == [] && turns == [] && stack.Knows(processes)
      modifies this, bridge, stack
      ensures Faithful(bridge.history) && TargetsOk(bridge.history) && StrokesOk(bridge.history)
      ensures TurnsOk(turns, bridge.history, accepted) && TurnsComplete(turns, rounds) && ReportsDue(turns)
      ensures EndedBy(ending, rounds, parse)
      ensures ending in {ShutDown, Disconnected} ==> Valid() && InStep() && received == Stream(rounds[..|turns|])
      ensures AllApplied(old(Applied(bridge.history)), parse) && TakenFrom(handled, rounds)
      ensures ending == Stopped ==> AllGone(old(stack.children))
    {
      ghost var before := Applied(bridge.history);
      NothingTaken(rounds);
      NothingYet(parse);
      hide Applied, TurnsOk, TargetsOk, Faithful, CallsWithinCeilings, NoRecordYet, F.TakeRecords, TakenFrom, EndedBy,
          Going;
      var i := 0;
      ending := ShutDown;
      while i < |rounds| && ending.ShutDown?
        invariant 0 <= i <= |rounds| && Recorded() && TurnsComplete(turns, rounds) && |turns| <= i
        invariant if ending.ShutDown? then i == |turns| && Going(parse) else EndedBy(ending, rounds, parse)
        invariant AllApplied(before, parse) && TakenFrom(handled, rounds)
        invariant ending in {ShutDown, Disconnected} ==> Valid() && InStep() && received == Stream(rounds[..|turns|])
        invariant ending.ShutDown? ==> stack.children == old(stack.children) && stack.Knows(processes)
        invariant ending == Stopped ==> AllGone(old(stack.children))
      {
        ending := Turn(rounds, i, parse, before);
        i := i + 1;
      }
      TargetsAreOk(bridge.history);
      StrokesAreAsked(bridge.history);
      RanOut(ending, rounds, parse);
    }

    lemma NothingYet(parse: seq<F.Byte> -> Message)
      requires Valid() && InStep() && received == []
      ensures Going(parse)
    {
      F.SplitWhole([]);
      assert F.TakeRecords([]) == Some(F.Taken([], []));
    }

    lemma RanOut(ending: Ending, rounds: seq<Round>, parse: seq<F.Byte> -> Message)
      requires ending.ShutDown? ==> |turns| == |rounds| && Going(parse)
      requires !ending.ShutDown? ==> EndedBy(ending, rounds, parse)
      ensures EndedBy(ending, rounds, parse)
    {
    }

    /** One turn of the loop. */
    method Turn(rounds: seq<Round>, i: nat, parse: seq<F.Byte> -> Message, ghost before: seq<Packet>)
      returns (ending: Ending)
      requires i < |rounds| && Valid() && InStep() && received == Stream(rounds[..i]) && stack.Knows(processes)
      requires TurnsComplete(turns, rounds) && |turns| == i && AllApplied(before, parse) && Going(parse)
      modifies this, bridge, stack
      ensures Recorded() && TurnsComplete(turns, rounds) && i <= |turns| <= i + 1
      ensures (ending.ShutDown? ==> |turns| == i + 1) && (ending.Disconnected? ==> |turns| == i)
      ensures if ending.ShutDown? then Going(parse) else EndedBy(ending, rounds, parse)
      ensures ending in {ShutDown, Disconnected} ==> Valid() && InStep() && received == Stream(rounds[..|turns|])
      ensures AllApplied(before, parse) && TakenFrom(handled, rounds)
      ensures ending.ShutDown? ==> stack.children == old(stack.children) && stack.Knows(processes)
      ensures ending == Stopped ==> AllGone(old(stack.children))
    {
      hide Applied, TurnsOk, CallsWithinCeilings, Faithful, WorldAfter, OneCall, F.TakeRecords, WithinCeilings;
      hide Recorded, Going, TurnsComplete, TakenFrom;
      AllTaken(handled, buffer, rounds, i);
      if rounds[i].chunk == Some([]) {
        return Disconnected;
      }
      if rounds[i].chunk.Some? {
        var end := TakeChunk(rounds, i, parse, before);
        if end.Some? {
          return end.value;
        }
      } else {
        StreamNext(rounds, i);
      }
      ending := EndTurn(rounds, i, parse, before);
    }

    /** The chunk of turn `i`, which is not empty. */
    method TakeChunk(rounds: seq<Round>, i: nat, parse: seq<F.Byte> -> Message, ghost before: seq<Packet>)
      returns (end: Option<Ending>)
      requires i < |rounds| && rounds[i].chunk.Some? && |turns| == i
      requires Valid() && InStep() && received == Stream(rounds[..i]) && stack.Knows(processes)
      requires AllApplied(before, parse) && Going(parse)
      modifies this, bridge, stack
      ensures Recorded() && turns == old(turns) && AllApplied(before, parse) && TakenFrom(handled, rounds)
      ensures end.None? ==> Valid() && InStep() && received == Stream(rounds[..i + 1]) && Going(parse)
      ensures end.None? ==> stack.children == old(stack.children) && processes == old(processes)
      ensures end.Some? ==> end.value in {Stopped, Failed} && EndedBy(end.value, rounds, parse)
      ensures end == Some(Stopped) ==> AllGone(old(stack.children))
    {
      hide Valid, Recorded, AllApplied, AllGone, Going, StopAsked, RecordRefused, F.TakeRecords, TakenFrom, EndedBy;
      StreamNext(rounds, i);
      AllTaken(handled, buffer, rounds, i);
      end := Receive(rounds[i].chunk.value, rounds[i].atLine, parse, before);
      if F.TakeRecords(Stream(rounds[..i + 1])).Some? {
        FirstOnesTaken(handled, rounds, i + 1);
      }
      if end.Some? {
        EndedByChunk(end.value, rounds, parse);
      }
    }

    lemma EndedByChunk(ending: Ending, rounds: seq<Round>, parse: seq<F.Byte> -> Message)
      requires |turns| < |rounds| && rounds[|turns|].chunk.Some? && ending in {Stopped, Failed}
      requires ending.Stopped? ==> StopAsked(parse)
      requires ending.Failed? ==>
                 RecordRefused(parse) || (Going(parse) && F.TakeRecords(Stream(rounds[..|turns| + 1])).None?)
      ensures EndedBy(ending, rounds, parse)
    {
      hide StopAsked, RecordRefused, Going, F.TakeRecords;
    }

    /** The end of turn `i`. */
    method EndTurn(rounds: seq<Round>, i: nat, ghost parse: seq<F.Byte> -> Message, ghost before: seq<Packet>)
      returns (ending: Ending)
      requires i < |rounds| && Valid() && InStep() && received == Stream(rounds[..i + 1])
      requires TurnsComplete(turns, rounds) && |turns| == i && rounds[i].chunk != Some([])
      requires AllApplied(before, parse) && Going(parse)
      modifies this`lastStateSend, this`turns, bridge
      ensures Recorded() && TurnsComplete(turns, rounds) && i <= |turns| <= i + 1
      ensures AllApplied(before, parse)
      ensures if ending.ShutDown? then Valid() && InStep() && Going(parse) && |turns| == i + 1
              else ending.Failed? && EndedBy(ending, rounds, parse)
    {
      hide Valid, Recorded, Applied, TurnsComplete, LeaseRanOut, ReportRaised, F.TakeRecords, GoesOn, EndedBy;
      ending := RecordTurn(rounds, i);
      if ending.Failed? {
        EndedByLease(rounds, parse);
      }
    }

    /** Its lease check, on the record of the turns. */
    method RecordTurn(rounds: seq<Round>, i: nat) returns (ending: Ending)
      requires i < |rounds| && Valid() && InStep() && received == Stream(rounds[..i + 1])
      requires TurnsComplete(turns, rounds) && |turns| == i && rounds[i].chunk != Some([])
      modifies this`lastStateSend, this`turns, bridge
      ensures Recorded() && TurnsComplete(turns, rounds) && i <= |turns| <= i + 1
      ensures Applied(bridge.history) == Applied(old(bridge.history))
      ensures if ending.ShutDown? then Valid() && |turns| == i + 1
              else ending.Failed? && ((|turns| == i && LeaseRanOut(rounds[i].atLease.now)) || ReportRaised())
    {
      FirstRecordConfigures(rounds, i + 1);
      hide Valid, Recorded, InStep, Applied, TurnsComplete, NoRecordYet, LeaseRanOut, ReportRaised;
      ghost var passed := turns;
      TurnsBounded(passed, rounds);
      ghost var t;
      ending, t := PassTurn(rounds[i].atLease);
      OneMoreTurn(passed, rounds, t);
    }

    lemma EndedByLease(rounds: seq<Round>, parse: seq<F.Byte> -> Message)
      requires Going(parse)
      requires (|turns| < |rounds| && LeaseRanOut(rounds[|turns|].atLease.now)) || ReportRaised()
      ensures EndedBy(Failed, rounds, parse)
    {
      hide Going, LeaseRanOut, ReportRaised;
    }

    lemma FirstRecordConfigures(rounds: seq<Round>, n: nat)
      requires n <= |rounds| && InStep() && received == Stream(rounds[..n])
      ensures NoRecordYet(rounds, n) <==> config.None?
    {
    }

    method PassTurn(at: Lease) returns (ending: Ending, ghost t: TurnEnd)
      requires Valid()
      modifies this`lastStateSend, this`turns, bridge
      ensures Recorded() && Applied(bridge.history) == Applied(old(bridge.history))
      ensures (t.BeforeHello? <==> config.None?) && (t.LeasePassed? ==> t.now == at.now)
      ensures turns == old(turns) + [t] || (turns == old(turns) && ending.Failed? && LeaseRanOut(at.now))
      ensures if ending.ShutDown? then Valid() && turns == old(turns) + [t] else ending.Failed?
      ensures ending.Failed? ==> (LeaseRanOut(at.now) && turns == old(turns)) || ReportRaised()
    {
      hide Applied, Sections, LeaseExpired, TurnsOk, CallsWithinCeilings, Faithful, WithinCeilings, ReportsDue,
          LeaseHeld;
      var end;
      ghost var mark, now := 0, at.now;
      end, mark := CheckLease(at);
      t := if config.None? then BeforeHello else LeasePassed(mark, now, now >= LastReport(old(turns)) + 0.02);
      ending := if end.Some? then end.value else ShutDown;
      assert bridge.history[..|bridge.history|] == bridge.history;
    }

    /** One chunk: take the finished records off the stream and handle them; a refused chunk is not even parsed. */
    method Receive(chunk: seq<F.Byte>, atLine: nat -> Line, parse: seq<F.Byte> -> Message, ghost before: seq<Packet>)
      returns (ending: Option<Ending>)
      requires Valid() && InStep() && AllApplied(before, parse) && stack.Knows(processes) && Going(parse)
      modifies this, bridge, stack
      ensures Recorded() && turns == old(turns)
      ensures F.TakeRecords(old(received) + chunk).None? ==>
                ending == Some(Failed) && bridge.history == old(bridge.history) && config == old(config)
      ensures ending.None? ==>
              Valid() && InStep() && stack.children == old(stack.children)
              && processes == old(processes)
      ensures ending.None? ==> received == old(received) + chunk
      ensures AllApplied(before, parse)
      ensures match F.TakeRecords(old(received) + chunk)
              case None => handled == old(handled) && Going(parse)
              case Some(taken) => handled <= taken.records && (ending == Some(Failed) ==> RecordRefused(parse))
      ensures ending == Some(Stopped) ==> AllGone(old(stack.children)) && StopAsked(parse)
      ensures if ending.None? then Going(parse) else ending in {Some(Stopped), Some(Failed)}
    {
      hide StopAsked, RecordRefused, GoesOn;
      hide Applied, TurnsOk, CallsWithinCeilings, Faithful, WorldAfter, OneCall, F.TakeRecords, WithinCeilings;
      F.TakeAppend(received, chunk);
      var taken := F.TakeRecords(buffer + chunk);
      if taken.None? {
        return Some(Failed);
      }
      buffer, received := taken.value.rest, received + chunk;
      ending := HandleAll(taken.value.records, atLine, parse, before);
    }

    method HandleAll(records: seq<seq<F.Byte>>, atLine: nat -> Line, parse: seq<F.Byte> -> Message,
                     ghost before: seq<Packet>)
      returns (ending: Option<Ending>)
      requires Valid() && AllApplied(before, parse) && (config.None? <==> handled == []) && stack.Knows(processes)
      requires Going(parse)
      modifies this`config, this`lastCommand, this`firstJointCommand, this`accepted, this`handled, this`processes,
              bridge, stack
      ensures ending.Some? ==> Recorded()
      ensures ending.None? ==> Valid() && stack.children == old(stack.children) && processes == old(processes)
      ensures AllApplied(before, parse) && handled <= old(handled) + records
      ensures ending.None? ==> handled == old(handled) + records && (config.None? <==> handled == [])
      ensures ending == Some(Stopped) ==> AllGone(old(stack.children)) && StopAsked(parse)
      ensures ending == Some(Failed) ==> RecordRefused(parse)
      ensures if ending.None? then Going(parse) else ending in {Some(Stopped), Some(Failed)}
    {
      hide Valid, Recorded, AllApplied, AllGone, StopAsked, RecordRefused, Going;
      ending := None;
      var k := 0;
      while k < |records|
        invariant 0 <= k <= |records| && Valid()
        invariant stack.children == old(stack.children) && processes == old(processes) && ending.None?
        invariant handled == old(handled) + records[..k] && (config.None? <==> handled == [])
                  && AllApplied(before, parse) && Going(parse)
      {
        ending := HandleOne(records[k], atLine(k), parse, before);
        TakeOneMore(records, k);
        if ending.Some? {
          return;
        }
        k := k + 1;
      }
      assert records[..k] == records;
    }

    method HandleOne(record: seq<F.Byte>, at: Line, parse: seq<F.Byte> -> Message, ghost before: seq<Packet>)
      returns (ending: Option<Ending>)
      requires Valid() && AllApplied(before, parse) && (config.None? <==> handled == []) && stack.Knows(processes)
      requires Going(parse)
      modifies this`config, this`lastCommand, this`firstJointCommand, this`accepted, this`handled, this`processes,
              bridge, stack
      ensures Recorded()
      ensures ending.None? ==> Valid() && stack.children == old(stack.children) && processes == old(processes)
      ensures handled == old(handled) + [record] && AllApplied(before, parse) && (ending.None? ==> config.Some?)
      ensures ending == Some(Stopped) ==> AllGone(old(stack.children)) && StopAsked(parse)
      ensures ending == Some(Failed) ==> RecordRefused(parse)
      ensures if ending.None? then Going(parse) else ending in {Some(Stopped), Some(Failed)}
    {
      hide Applied, Actions, OneCall, Opens, Configures, TurnsOk, CallsWithinCeilings, Faithful, WorldAfter,
          WithinCeilings, GoesOn;
      ending := Handle(parse(record), at);
      ActionsNext(handled, record, parse);
      ghost var records := handled;
      handled := handled + [record];
      assert handled[..|handled| - 1] == records;
      if ending.None? {
        GoesOnNext(records, record, parse);
      }
    }
  }

  lemma TakeOneMore<T>(s: seq<T>, k: nat)
    requires k < |s|
    ensures s[..k] + [s[k]] == s[..k + 1]
  {
  }

  // ------------------------------------------------------------------ histories of a session

  /** `k` goes on from `h` with callbacks, and then the contract `c` is installed. */
  ghost predicate Configures(h: seq<Done>, k: seq<Done>, c: Config) {
    && |h| < |k| && h <= k && k[|k| - 1].event == Event.Configure(c)
    && Sections(h, k[..|k| - 1])
  }

  lemma ConfiguresBy(h: seq<Done>, before: seq<Done>, c: Config)
    requires Sections(h, before)
    ensures Configures(h, before + [Done(Event.Configure(c), Silent)], c)
  {
    assert (before + [Done(Event.Configure(c), Silent)])[..|before|] == before;
  }

  lemma ConfigureAppliesNothing(h: seq<Done>, k: seq<Done>, c: Config)
    requires Configures(h, k, c)
    ensures Applied(k) == Applied(h)
  {
    SectionsApplyNothing(h, k[..|k| - 1]);
  }

  lemma SectionsKeepCeilings(h: seq<Done>, k: seq<Done>)
    requires CallsWithinCeilings(h) && Sections(h, k)
    ensures CallsWithinCeilings(k)
  {
  }

  lemma OneMoreKeepsCeilings(h: seq<Done>, d: Done)
    requires CallsWithinCeilings(h) && (d.event.Begin? ==> WithinCeilings(d.event.call.config))
    ensures CallsWithinCeilings(h + [d])
  {
  }

  lemma CallKeepsCeilings(h: seq<Done>, k: seq<Done>, call: Call)
    requires CallsWithinCeilings(h) && OneCall(h, k, call) && WithinCeilings(call.config)
    ensures CallsWithinCeilings(k) && h <= k && |h| < |k|
  {
    var begun := k[..|h| + 1];
    assert begun == h + [k[|h|]];
    OneMoreKeepsCeilings(h, k[|h|]);
    SectionsKeepCeilings(begun, k);
  }

  lemma PassBeforeHello(turns: seq<TurnEnd>, h: seq<Done>, accepted: seq<real>)
    requires TurnsOk(turns, h, accepted)
    ensures TurnsOk(turns + [BeforeHello], h, accepted)
  {
  }

  /** The lease held after `h`, and a report that was due went on from there to `k`. */
  lemma PassLease(turns: seq<TurnEnd>, h: seq<Done>, k: seq<Done>, accepted: seq<real>, now: real, reports: bool)
    requires TurnsOk(turns, k, accepted) && LeaseHeld(WorldAfter(h).relay, now, accepted) && h <= k
    requires reports ==> |h| < |k| && ReportBegins(WorldAfter(h).relay, k[|h|].event)
    ensures TurnsOk(turns + [LeasePassed(|h|, now, reports)], k, accepted)
  {
    hide WorldAfter;
    assert k[..|h|] == h;
  }

  lemma LeasePasses(r: Relay, c: Config, last: Option<real>, now: real, accepted: seq<real>)
    requires r.config == Some(c) && WithinCeilings(c) && r.accepted == |accepted| && last == Last(accepted)
    requires (InMotion(r) ==> accepted != []) && !LeaseExpired(r, c, last, now)
    ensures LeaseHeld(r, now, accepted)
  {
  }
}
