/** How runs end: what a signal, a failing host and the outcome of the shutdown command do to
    the loop, stated on the inputs of the run and on its history. */
module Exits {
  import opened Machine
  import opened Settings
  import opened Icmp
  import opened Shutdown
  import opened History
  import opened ReactorSpec
  import Lawful
  import opened Refinement
  import opened Runs
  import opened Replies

  /** A shutdown attempt behind which monitoring does not continue. */
  predicate EndsRun(c: Setup, e: Event) {
    e.Attempted? && (c.config.mode == DryRun || e.result == Triggered)
  }

  predicate Ended(c: Setup, h: Log) { exists i: nat :: i < |h| && EndsRun(c, h[i]) }

  predicate SignalArrived(trace: seq<Tick>) { exists k: nat :: k < |trace| && trace[k].signal == Terminate }

  /** The ledger's `final` says that such an attempt was made. */
  lemma {:induction false} FinalMeansEnded(c: Setup, p: Plan, h: Log)
    requires Fits(c, p) && Sensible(p) && Legal(p, h)
    ensures LedgerOf(p, h).final <==> Ended(c, h)
  {
    if h != [] {
      FinalMeansEnded(c, p, Front(h));
      assert forall i: nat :: i < |h| - 1 ==> h[i] == Front(h)[i];
      assert EndsRun(c, Last(h)) <==> EndsRun(c, h[|h| - 1]);
    }
  }

  // ---- One iteration ----

  lemma {:induction false} DrainKeepsFlag(c: Setup, s: State, now: uint64, inbox: seq<Arrival>, budget: nat)
    ensures var (s', r) := Drain(c, s, now, inbox, budget);
      s'.stopFlag == s.stopFlag && r != Stop
  {
    if budget > 0 && inbox != [] {
      DrainKeepsFlag(c, s, now, inbox[1..], budget - 1);
    }
  }

  /** The flag is set exactly by a signal that is looked at, and a failing host is an error. */
  lemma PollOutcome(c: Setup, s: State, t: Tick)
    ensures var (s', r) := HandlePoll(c, s, t);
      && r != Stop
      && (r == Continue ==>
            && t.pollOk && t.signalFdOk && t.socketFdOk
            && (s'.stopFlag <==> s.stopFlag || t.signal == Terminate))
      && (s'.stopFlag ==> s.stopFlag || t.signal == Terminate)
  {
    var s' := s.(now := Refresh(s.now, t.wake), stopFlag := s.stopFlag || t.signal == Terminate);
    DrainKeepsFlag(c, s', s'.now, t.inbox, MAX_REPLY_DRAIN_PER_TICK);
  }

  lemma StepOutcome(c: Setup, p: Plan, s: State, t: Tick)
    requires Fits(c, p) && Sensible(p) && Active(p, s) && !s.stopFlag && s.now <= t.clock
    ensures var (s', status) := Step(c, s, t);
      && (status == Running ==> t.signal != Terminate && t.pollOk && t.signalFdOk && t.socketFdOk)
      && (s'.stopFlag ==> t.signal == Terminate)
      && (t.signal == Terminate ==> status != Running)
  {
    var s0 := s.(now := Refresh(s.now, t.clock));
    assert Active(p, s0);
    DueWorkReplays(c, p, s0, t);
    PollOutcome(c, RunDueWork(c, s0, t).0, t);
  }

  // ---- Signals ----

  /** As long as a run goes on, no termination signal has arrived and nothing on the host has
      failed the wait. */
  lemma {:induction false} RunningMeansUndisturbed(c: Setup, p: Plan, buffer: SendBuffer, trace: seq<Tick>)
    requires IsRun(c, p, buffer, trace) && Run(c, p, buffer, trace).1 == Running
    ensures forall k: nat :: k < |trace| ==>
      && trace[k].signal != Terminate
      && trace[k].pollOk && trace[k].signalFdOk && trace[k].socketFdOk
  {
    if trace != [] {
      var front, t := trace[..|trace| - 1], trace[|trace| - 1];
      assert front + [t] == trace;
      RunSnoc(c, p, buffer, front, t);
      RunningMeansUndisturbed(c, p, buffer, front);
      RunReplays(c, p, buffer, front);
      StepOutcome(c, p, Run(c, p, buffer, front).0, t);
      assert forall k: nat :: k < |front| ==> trace[k] == front[k];
    }
  }

  lemma {:induction false} FlagMeansSignal(c: Setup, p: Plan, buffer: SendBuffer, trace: seq<Tick>)
    requires IsRun(c, p, buffer, trace)
    ensures Run(c, p, buffer, trace).0.stopFlag ==> SignalArrived(trace)
  {
    if trace != [] {
      var front := trace[..|trace| - 1];
      FlagMeansSignal(c, p, buffer, front);
      RunReplays(c, p, buffer, front);
      var (s, status) := Run(c, p, buffer, front);
      if status == Running {
        StepOutcome(c, p, s, trace[|trace| - 1]);
      }
      if SignalArrived(front) {
        var k: nat :| k < |front| && front[k].signal == Terminate;
        assert trace[k].signal == Terminate;
      }
    }
  }

  /** A run exits with success only behind a termination signal or an attempt that ends it, and
      such an attempt always makes it exit with success. */
  lemma SuccessHasReason(c: Setup, p: Plan, buffer: SendBuffer, trace: seq<Tick>)
    requires IsRun(c, p, buffer, trace)
    ensures var (s, status) := Run(c, p, buffer, trace);
      && (Ended(c, s.log) ==> status == Exited(0))
      && (status == Exited(0) ==> Ended(c, s.log) || SignalArrived(trace))
  {
    RunReplays(c, p, buffer, trace);
    FinalMeansEnded(c, p, Run(c, p, buffer, trace).0.log);
    FlagMeansSignal(c, p, buffer, trace);
  }

  /** On a host on which every system call succeeds, a run ends exactly with a termination signal
      or an attempt that ends it, and then with success. */
  lemma HealthyRunEnds(c: Setup, p: Plan, buffer: SendBuffer, trace: seq<Tick>)
    requires IsRun(c, p, buffer, trace)
    requires forall k: nat :: k < |trace| ==> Healthy(trace[k])
    requires LastReading(p.start, trace) + p.interval < UINT64_MAX
    ensures var (s, status) := Run(c, p, buffer, trace);
      status == if SignalArrived(trace) || Ended(c, s.log) then Exited(0) else Running
  {
    RunReplays(c, p, buffer, trace);
    SuccessHasReason(c, p, buffer, trace);
    HealthyRunNeverFails(c, p, buffer, trace);
    if Run(c, p, buffer, trace).1 == Running {
      RunningMeansUndisturbed(c, p, buffer, trace);
    }
  }

  /** A termination signal stops a run in the iteration in which it arrives. */
  lemma SignalEndsRun(c: Setup, p: Plan, buffer: SendBuffer, trace: seq<Tick>, t: Tick)
    requires IsRun(c, p, buffer, trace + [t]) && Run(c, p, buffer, trace).1 == Running
    requires Healthy(t) && t.signal == Terminate
    requires LastReading(p.start, trace + [t]) + p.interval < UINT64_MAX
    ensures Run(c, p, buffer, trace + [t]).1 == Exited(0)
  {
    RunSnoc(c, p, buffer, trace, t);
    RunReplays(c, p, buffer, trace);
    var s := Run(c, p, buffer, trace).0;
    HealthyStep(c, p, s, t);
    StepReplays(c, p, s, t);
    StepOutcome(c, p, s, t);
  }

  // ---- A failing host ----

  /** Draining comes upon a failed receive before it comes upon a packet of the target. */
  predicate ReceiveFails(c: Setup, t: Tick) {
    t.readable && exists i: nat :: i < 32 && FirstFault(c, t.inbox, i)
  }

  predicate FirstFault(c: Setup, inbox: seq<Arrival>, i: nat) {
    && i < |inbox| && inbox[i].ReceiveFault?
    && forall k: nat :: k < i ==> inbox[k].Packet? && Foreign(c, inbox[k])
  }

  lemma FailedReceive(c: Setup, s: State, now: uint64, t: Tick)
    requires ReceiveFails(c, t)
    ensures Drain(c, s, now, t.inbox, MAX_REPLY_DRAIN_PER_TICK).1 == Error
  {
    var i: nat :| i < 32 && FirstFault(c, t.inbox, i);
    assert Reaches(c, s, t.inbox, MAX_REPLY_DRAIN_PER_TICK, i);
    DrainOutcome(c, s, now, t.inbox, MAX_REPLY_DRAIN_PER_TICK);
  }

  /** A failed poll, an error on a descriptor or a failed receive ends the run with code 1,
      unless an attempt that is due in the same iteration ends it first. */
  lemma HostFaultEndsRun(c: Setup, p: Plan, buffer: SendBuffer, trace: seq<Tick>, t: Tick)
    requires IsRun(c, p, buffer, trace + [t]) && Run(c, p, buffer, trace).1 == Running
    requires !t.pollOk || !t.signalFdOk || !t.socketFdOk || ReceiveFails(c, t)
    ensures var (s, status) := Run(c, p, buffer, trace + [t]);
      status == if Ended(c, s.log) then Exited(0) else Exited(1)
  {
    RunSnoc(c, p, buffer, trace, t);
    RunReplays(c, p, buffer, trace);
    SuccessHasReason(c, p, buffer, trace + [t]);
    var s := Run(c, p, buffer, trace).0;
    var s0 := s.(now := Refresh(s.now, t.clock));
    assert Active(p, s0);
    DueWorkReplays(c, p, s0, t);
    var (s1, r) := RunDueWork(c, s0, t);
    FinalMeansEnded(c, p, s1.log);
    if r == Continue && ReceiveFails(c, t) {
      var s2 := s1.(now := Refresh(s1.now, t.wake), stopFlag := s1.stopFlag || t.signal == Terminate);
      FailedReceive(c, s2, s2.now, t);
    }
  }

  /** A ping that is due and cannot be sent ends the run with code 1. */
  lemma FailedSendEndsRun(c: Setup, p: Plan, buffer: SendBuffer, trace: seq<Tick>, t: Tick)
    requires IsRun(c, p, buffer, trace + [t]) && Run(c, p, buffer, trace).1 == Running
    requires var s := Run(c, p, buffer, trace).0; var now := Refresh(s.now, t.clock);
      !s.ping.waiting && s.nextPing <= now && !(s.shutdown.pending && s.shutdown.deadline <= now)
    requires !t.sendOk
    ensures Run(c, p, buffer, trace + [t]).1 == Exited(1)
  {
    RunSnoc(c, p, buffer, trace, t);
  }

  // ---- Commands ----

  /** What an attempt in iteration `t` reports: the outcome of the command that was run in it. */
  function Reported(c: Setup, t: Tick): CommandResult {
    if c.config.mode != TrueOff then NoAction
    else if c.config.delayMinutes > 0 then t.elapseCommand
    else t.thresholdCommand
  }

  /** h' continues h, with attempts - if any - at time `at` and with result `r`. */
  predicate Continues(h: Log, h': Log, at: uint64, r: CommandResult) {
    h <= h' && forall i: nat :: |h| <= i < |h'| && h'[i].Attempted? ==> h'[i] == Attempted(at, r)
  }

  lemma CountdownReports(c: Setup, p: Plan, s: State, t: Tick)
    requires Fits(c, p) && Sensible(p) && Active(p, s)
    ensures Continues(s.log, HandleCountdown(c, s, s.now, t.elapseCommand).0.log, s.now, Reported(c, t))
  {
    FitsSensible(c, p);
    Lawful.DutiesEarned(p, s.log);
  }

  lemma TimeoutReports(c: Setup, s: State, now: uint64, t: Tick)
    ensures Continues(s.log, HandlePingTimeout(c, s, now, t.thresholdCommand).0.log, now, Reported(c, t))
  {}

  lemma WatchdogReports(s: State, now: uint64, ok: bool, at: uint64, r: CommandResult)
    ensures Continues(s.log, HandleWatchdog(s, now, ok).log, at, r)
  {}

  lemma ContinuesOn(h: Log, h1: Log, h2: Log, at: uint64, r: CommandResult)
    requires Continues(h, h1, at, r) && Continues(h1, h2, at, r)
    ensures Continues(h, h2, at, r)
  {}

  lemma SchedulerReports(c: Setup, s: State, sendOk: bool, at: uint64, r: CommandResult)
    ensures Continues(s.log, HandleScheduler(c, s, at, sendOk).0.log, at, r)
  {}

  lemma {:induction false} DrainReports(c: Setup, s: State, now: uint64, inbox: seq<Arrival>, budget: nat,
                                        at: uint64, r: CommandResult)
    ensures Continues(s.log, Drain(c, s, now, inbox, budget).0.log, at, r)
  {
    if budget > 0 && inbox != [] {
      DrainReports(c, s, now, inbox[1..], budget - 1, at, r);
    }
  }

  lemma DueWorkReports(c: Setup, p: Plan, s: State, t: Tick)
    requires Fits(c, p) && Sensible(p) && Active(p, s)
    ensures Continues(s.log, RunDueWork(c, s, t).0.log, s.now, Reported(c, t))
  {
    var at, r := s.now, Reported(c, t);
    CountdownReports(c, p, s, t);
    var (s1, stop) := HandleCountdown(c, s, at, t.elapseCommand);
    if !stop {
      WatchdogReports(s1, at, t.watchdogOk, at, r);
      var s2 := HandleWatchdog(s1, at, t.watchdogOk);
      ContinuesOn(s.log, s1.log, s2.log, at, r);
      TimeoutReports(c, s2, at, t);
      var s3 := HandlePingTimeout(c, s2, at, t.thresholdCommand).0;
      ContinuesOn(s.log, s2.log, s3.log, at, r);
      SchedulerReports(c, s3, t.sendOk, at, r);
    }
  }

  lemma StepReports(c: Setup, p: Plan, s: State, t: Tick)
    requires Fits(c, p) && Sensible(p) && Active(p, s)
    requires s.now <= t.clock
    ensures Continues(s.log, Step(c, s, t).0.log, Refresh(s.now, t.clock), Reported(c, t))
  {
    var s0 := s.(now := Refresh(s.now, t.clock));
    assert Active(p, s0);
    DueWorkReports(c, p, s0, t);
    var s1 := RunDueWork(c, s0, t).0;
    var s2 := s1.(now := Refresh(s1.now, t.wake), stopFlag := s1.stopFlag || t.signal == Terminate);
    DrainReports(c, s2, s2.now, t.inbox, MAX_REPLY_DRAIN_PER_TICK, s0.now, Reported(c, t));
  }

  lemma LastTickReports(c: Setup, p: Plan, buffer: SendBuffer, front: seq<Tick>, t: Tick)
    requires IsRun(c, p, buffer, front + [t])
    ensures var (s, status), h := Run(c, p, buffer, front), Run(c, p, buffer, front + [t]).0.log;
      && Continues(s.log, h, Refresh(LastReading(p.start, front), t.clock), Reported(c, t))
      && (|s.log| < |h| ==> status == Running)
  {
    RunSnoc(c, p, buffer, front, t);
    RunReplays(c, p, buffer, front);
    var (s, status) := Run(c, p, buffer, front);
    if status == Running {
      StepReports(c, p, s, t);
    }
  }

  /** Every attempt in the history was made in one iteration of the run, at the reading taken at
      its top, and reports what that iteration's shutdown command came to. */
  lemma {:induction false} AttemptsReportCommands(c: Setup, p: Plan, buffer: SendBuffer, trace: seq<Tick>, i: nat)
    returns (k: nat)
    requires IsRun(c, p, buffer, trace)
    requires i < |Run(c, p, buffer, trace).0.log| && Run(c, p, buffer, trace).0.log[i].Attempted?
    ensures k < |trace| && Run(c, p, buffer, trace[..k]).1 == Running
    ensures |Run(c, p, buffer, trace[..k]).0.log| <= i < |Run(c, p, buffer, trace[..k + 1]).0.log|
    ensures Run(c, p, buffer, trace).0.log[i] ==
      Attempted(Refresh(LastReading(p.start, trace[..k]), trace[k].clock),
                if c.config.mode != TrueOff then NoAction
                else if c.config.delayMinutes > 0 then trace[k].elapseCommand
                else trace[k].thresholdCommand)
  {
    var front := trace[..|trace| - 1];
    assert front + [trace[|trace| - 1]] == trace;
    LastTickReports(c, p, buffer, front, trace[|trace| - 1]);
    if i < |Run(c, p, buffer, front).0.log| {
      k := AttemptsReportCommands(c, p, buffer, front, i);
      assert trace[..k] == front[..k] && trace[..k + 1] == front[..k + 1];
    } else {
      k := |trace| - 1;
      assert trace[..k + 1] == trace;
    }
  }

  /** Commands that fail never end a run: in true-off mode, without a termination signal and
      without a command that was started, no run exits with success. */
  lemma FailedCommandsNeverEndRun(c: Setup, p: Plan, buffer: SendBuffer, trace: seq<Tick>)
    requires IsRun(c, p, buffer, trace) && c.config.mode == TrueOff
    requires forall k: nat :: k < |trace| ==>
      && trace[k].signal != Terminate
      && trace[k].elapseCommand != Triggered && trace[k].thresholdCommand != Triggered
    ensures Run(c, p, buffer, trace).1 != Exited(0)
  {
    var h := Run(c, p, buffer, trace).0.log;
    SuccessHasReason(c, p, buffer, trace);
    if Ended(c, h) {
      var i: nat :| i < |h| && EndsRun(c, h[i]);
      var k := AttemptsReportCommands(c, p, buffer, trace, i);
    }
  }

  lemma {:induction false} TrailingSince(h: Log, i: nat)
    requires i <= |h| && forall j: nat :: i <= j < |h| ==> !h[j].Succeeded?
    ensures TrailingFailures(h) == TrailingFailures(h[..i]) + Count(h, AFailure) - Count(h[..i], AFailure)
    decreases |h|
  {
    if i == |h| {
      assert h[..i] == h;
    } else {
      assert Front(h)[..i] == h[..i];
      assert forall j: nat :: i <= j < |h| - 1 ==> h[j] == Front(h)[j];
      TrailingSince(Front(h), i);
    }
  }

  /** The failure count survives a failed attempt: until the next success it is the count that
      led to the attempt - at least the threshold - plus the failures since. */
  lemma CountSurvivesAttempt(c: Setup, p: Plan, buffer: SendBuffer, trace: seq<Tick>, i: nat)
    requires IsRun(c, p, buffer, trace) && Run(c, p, buffer, trace).1 != Exited(EXIT_FAILURE)
    requires Run(c, p, buffer, trace).0.now < UINT64_MAX - 525600 * 60000
    requires var h := Run(c, p, buffer, trace).0.log;
      i < |h| && h[i].Attempted? && forall j: nat :: i <= j < |h| ==> !h[j].Succeeded?
    ensures var s := Run(c, p, buffer, trace).0;
      && s.fails == TrailingFailures(s.log[..i]) + Count(s.log, AFailure) - Count(s.log[..i], AFailure)
      && TrailingFailures(s.log[..i]) >= c.config.failThreshold
  {
    NoPrematureShutdown(c, p, buffer, trace, i);
    CounterRefinesHistory(c, p, buffer, trace);
    TrailingSince(Run(c, p, buffer, trace).0.log, i);
  }

  /** Monitoring goes on behind a failed attempt: an iteration on a healthy host, without a
      signal and without a command that was started, leaves a true-off run running. */
  lemma FailedAttemptContinues(c: Setup, p: Plan, buffer: SendBuffer, trace: seq<Tick>, t: Tick)
    requires IsRun(c, p, buffer, trace + [t]) && Run(c, p, buffer, trace).1 == Running
    requires c.config.mode == TrueOff && Reported(c, t) != Triggered
    requires Healthy(t) && t.signal != Terminate
    requires LastReading(p.start, trace + [t]) + p.interval < UINT64_MAX
    ensures Run(c, p, buffer, trace + [t]).1 == Running
  {
    RunSnoc(c, p, buffer, trace, t);
    RunReplays(c, p, buffer, trace);
    var s := Run(c, p, buffer, trace).0;
    HealthyStep(c, p, s, t);
    StepReplays(c, p, s, t);
    StepOutcome(c, p, s, t);
    StepReports(c, p, s, t);
    var s' := Step(c, s, t).0;
    FinalMeansEnded(c, p, s.log);
    FinalMeansEnded(c, p, s'.log);
  }

  /** Conversely an attempt whose command was started, or any attempt in dry-run mode, ends the
      run with success in that iteration. */
  lemma StartedCommandEndsRun(c: Setup, p: Plan, buffer: SendBuffer, trace: seq<Tick>, t: Tick, i: nat)
    requires IsRun(c, p, buffer, trace + [t]) && Run(c, p, buffer, trace).1 == Running
    requires c.config.mode == DryRun || Reported(c, t) == Triggered
    requires |Run(c, p, buffer, trace).0.log| <= i < |Run(c, p, buffer, trace + [t]).0.log|
    requires Run(c, p, buffer, trace + [t]).0.log[i].Attempted?
    ensures Run(c, p, buffer, trace + [t]).1 == Exited(0)
  {
    RunSnoc(c, p, buffer, trace, t);
    RunReplays(c, p, buffer, trace);
    StepReports(c, p, Run(c, p, buffer, trace).0, t);
    SuccessHasReason(c, p, buffer, trace + [t]);
    assert EndsRun(c, Run(c, p, buffer, trace + [t]).0.log[i]);
  }
}
