/** `Stack.stop`: interrupt, wait, kill, wait. */
module ProcessStack {
  import opened Basics

  type Pid = nat

  /** A child process: how long it takes to exit once interrupted, or once killed (`None`: never). */
  datatype Process = Process(exited: bool, afterInterrupt: Option<real>, afterKill: Option<real>)

  datatype Signal = Interrupt(pid: Pid) | Kill(pid: Pid)

  function Reversed<T>(s: seq<T>): (r: seq<T>)
    ensures |r| == |s|
    ensures forall i | 0 <= i < |s| :: r[i] == s[|s| - 1 - i]
  {
    if s == [] then [] else Reversed(s[1..]) + [s[0]]
  }

  /** A child that is still alive is interrupted. */
  ghost function IfAlive(procs: map<Pid, Process>): Pid -> Option<Signal> {
    pid => if pid in procs && !procs[pid].exited then Some(Interrupt(pid)) else None
  }

  datatype Waited = Waited(exited: bool, killed: bool, now: real)

  /** One pass of the second loop: wait for an interrupted child until `deadline`, then kill it and wait again. */
  function WaitFor(child: Process, interruptedAt: real, now: real, deadline: real, killWait: real): (w: Waited)
    requires killWait >= 0.0 && (child.afterKill.Some? ==> child.afterKill.value >= 0.0)
    ensures now <= w.now <= MaxReal(now, deadline) + if w.killed then killWait else 0.0
    ensures w.killed <==> !child.exited && !ObeysBy(child, interruptedAt, MaxReal(now, deadline))
    ensures w.exited <==> !w.killed || (child.afterKill.Some? && child.afterKill.value <= killWait)
    ensures child.exited ==> w.now == now
    ensures !child.exited && !w.killed ==>
              ObeysBy(child, interruptedAt, w.now) && forall t | now <= t < w.now :: !ObeysBy(child, interruptedAt, t)
    ensures w.killed ==>
              w.now - MaxReal(now, deadline) == if w.exited then child.afterKill.value else killWait
  {
    var until := MaxReal(now, deadline);
    if child.exited then Waited(true, false, now)
    else if child.afterInterrupt.Some? && interruptedAt + child.afterInterrupt.value <= until then
      Waited(true, false, MaxReal(now, interruptedAt + child.afterInterrupt.value))
    else if child.afterKill.Some? && child.afterKill.value <= killWait then
      Waited(true, true, until + child.afterKill.value)
    else Waited(false, true, until + killWait)
  }

  ghost predicate Sane(procs: map<Pid, Process>) {
    forall p <- procs.Keys :: procs[p].afterKill.Some? ==> procs[p].afterKill.value >= 0.0
  }

  /** The processes in the dictionary only differ in that some more of them have exited. */
  ghost predicate OnlyExits(procs: map<Pid, Process>, after: map<Pid, Process>) {
    && after.Keys == procs.Keys
    && forall p <- procs.Keys :: after[p] == procs[p] || after[p] == procs[p].(exited := true)
  }

  method InterruptAll(order: seq<Pid>, procs: map<Pid, Process>) returns (signals: seq<Signal>)
    requires forall p <- order :: p in procs
    ensures signals == Found(order, IfAlive(procs))
  {
    signals := [];
    var i := 0;
    while i < |order|
      invariant 0 <= i <= |order|
      invariant signals == Found(order[..i], IfAlive(procs))
    {
      assert order[..i] + [order[i]] == order[..i + 1];
      FoundNext(order[..i], order[i], IfAlive(procs));
      if !procs[order[i]].exited {
        signals := signals + [Interrupt(order[i])];
      }
      i := i + 1;
    }
    assert order[..i] == order;
  }

  /** The interrupt alone ends the process by `until`. */
  predicate ObeysBy(child: Process, interruptedAt: real, until: real) {
    child.afterInterrupt.Some? && interruptedAt + child.afterInterrupt.value <= until
  }

  /**
   * Who was killed: no child that exits within the grace time, and every other one unless the interrupt
   * still ends it before all the waiting is over. By then each has exited, of the interrupt or of its kill,
   * which came no earlier than the end of the grace time.
   */
  ghost predicate KilledRightly(order: seq<Pid>, procs: map<Pid, Process>, killed: seq<Pid>, start: real,
                                deadline: real, end: real)
    requires forall p <- order :: p in procs
  {
    && (forall p <- killed :: p in order && !procs[p].exited && !ObeysBy(procs[p], start, deadline))
    && (forall p <- order :: procs[p].exited || p in killed || ObeysBy(procs[p], start, end))
    && forall p <- killed :: procs[p].afterKill.Some? && deadline + procs[p].afterKill.value <= end
  }

  /** Wait for the children in turn; stop at the first that survives its kill. */
  method WaitAll(order: seq<Pid>, procs: map<Pid, Process>, start: real, deadline: real, killWait: real)
    returns (ok: bool, after: map<Pid, Process>, killed: seq<Pid>, end: real)
    requires (forall p <- order :: p in procs) && Sane(procs)
    requires killWait >= 0.0 && start <= deadline
    ensures OnlyExits(procs, after)
    ensures if ok then forall p <- order :: after[p].exited else exists p <- order :: p in killed && !after[p].exited
    ensures forall p <- killed :: p in order && !procs[p].exited && !ObeysBy(procs[p], start, deadline)
    ensures ok ==> KilledRightly(order, procs, killed, start, deadline, end)
    ensures start <= end <= Budget(deadline, |killed|, killWait) && |killed| <= |order|
  {
    after, killed, end, ok := procs, [], start, true;
    var i := 0;
    while i < |order|
      invariant 0 <= i <= |order|
      invariant OnlyExits(procs, after)
      invariant forall k | 0 <= k < i :: after[order[k]].exited
      invariant forall p <- killed :: p in order && !procs[p].exited && !ObeysBy(procs[p], start, deadline)
      invariant forall p <- procs.Keys :: after[p].exited ==>
                procs[p].exited || p in killed || ObeysBy(procs[p], start, end)
      invariant forall p <- killed :: procs[p].afterKill.Some? && deadline + procs[p].afterKill.value <= end
      invariant start <= end <= Budget(deadline, |killed|, killWait) && |killed| <= i
    {
      var p := order[i];
      var w := WaitFor(after[p], start, end, deadline, killWait);
      BudgetGrows(deadline, |killed|, killWait, end, w.now);
      if w.killed {
        killed := killed + [p];
      }
      end := w.now;
      if !w.exited {
        ok := false;
        return;
      }
      after := after[p := after[p].(exited := true)];
      i := i + 1;
    }
  }

  class Stack {
    var children: seq<Pid>
    const grace: real
    const killWait: real

    constructor (grace: real, killWait: real)
      ensures children == [] && this.grace == grace && this.killWait == killWait
    {
      children := [];
      this.grace, this.killWait := grace, killWait;
    }

    /** Every child has an entry, and no wait is negative. */
    ghost predicate Knows(procs: map<Pid, Process>)
      reads this
    {
      (forall p <- children :: p in procs) && Sane(procs) && grace >= 0.0 && killWait >= 0.0
    }

    /**
     * `stop` at clock reading `start`. It returns normally (`ok`) only once every child has exited,
     * within the grace time and one kill wait for each child killed; otherwise some child outlived its kill and
     * the list of children is kept. Every living child is interrupted first, the last started first;
     * no child that exits within the grace time is killed, and every other one is unless the interrupt
     * still ends it before `stop` returns.
     */
    method Stop(procs: map<Pid, Process>, start: real)
      returns (ok: bool, after: map<Pid, Process>, signals: seq<Signal>, killed: seq<Pid>, end: real)
      requires Knows(procs)
      modifies this`children
      ensures OnlyExits(procs, after)
      ensures signals == Found(Reversed(old(children)), IfAlive(procs))
      ensures if ok then children == [] && forall p <- old(children) :: after[p].exited
              else children == old(children) && exists p <- old(children) :: p in killed && !after[p].exited
      ensures forall p <- killed :: p in old(children) && !procs[p].exited && !ObeysBy(procs[p], start, start + grace)
      ensures ok ==> KilledRightly(old(children), procs, killed, start, start + grace, end)
      ensures start <= end <= Budget(start + grace, |killed|, killWait) && |killed| <= |old(children)|
    {
      var order := Reversed(children);
      SameMembers(children);
      signals := InterruptAll(order, procs);
      ok, after, killed, end := WaitAll(order, procs, start, start + grace, killWait);
      if ok {
        children := [];
      }
    }
  }

  lemma SameMembers<T>(s: seq<T>)
    ensures forall x :: x in Reversed(s) <==> x in s
  {
    forall x | x in s ensures x in Reversed(s) {
      var k :| 0 <= k < |s| && s[k] == x;
      assert Reversed(s)[|s| - 1 - k] == x;
    }
  }

  /** The latest moment by which the waiting is over when `n` children were killed. */
  function Budget(deadline: real, n: nat, killWait: real): real {
    deadline + n as real * killWait
  }

  lemma BudgetGrows(deadline: real, n: nat, killWait: real, end: real, now: real)
    requires killWait >= 0.0 && end <= Budget(deadline, n, killWait)
    ensures now <= MaxReal(end, deadline) ==> now <= Budget(deadline, n, killWait)
    ensures now <= MaxReal(end, deadline) + killWait ==> now <= Budget(deadline, n + 1, killWait)
  {
    NonNegativeProduct(n as real, killWait);
    assert (n + 1) as real * killWait == n as real * killWait + killWait;
  }
}
