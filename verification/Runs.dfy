/** Whole runs of the reactor under an arbitrary environment, and what is guaranteed of them. */
module Runs {
  import opened Machine
  import opened Settings
  import opened Icmp
  import opened Shutdown
  import opened History
  import opened ReactorSpec
  import Lawful
  import opened Refinement

  /** State and status after the iterations answered by `trace`; a run that has exited stays
      as it is. */
  function RunFrom(c: Setup, s: State, trace: seq<Tick>): (State, Status) {
    if trace == [] then (s, Running)
    else
      var (s1, status) := RunFrom(c, s, trace[..|trace| - 1]);
      if status == Running then Step(c, s1, trace[|trace| - 1]) else (s1, status)
  }

  /** The latest successful clock reading. */
  function LastReading(start: uint64, trace: seq<Tick>): uint64 {
    if trace == [] then start
    else
      var t := trace[|trace| - 1];
      Refresh(Refresh(LastReading(start, trace[..|trace| - 1]), t.clock), t.wake)
  }

  /** The monotonic clock never goes backwards; it may fail to be read at any time. */
  predicate Monotonic(start: uint64, trace: seq<Tick>) {
    trace == []
    || (var before, t := LastReading(start, trace[..|trace| - 1]), trace[|trace| - 1];
        && Monotonic(start, trace[..|trace| - 1])
        && before <= t.clock
        && Refresh(before, t.clock) <= t.wake)
  }

  /** A run of an accepted configuration: plan, prepared packet buffer, monotonic clock. */
  predicate IsRun(c: Setup, p: Plan, buffer: SendBuffer, trace: seq<Tick>) {
    Fits(c, p) && PayloadPattern(buffer) && Monotonic(p.start, trace)
  }

  function Run(c: Setup, p: Plan, buffer: SendBuffer, trace: seq<Tick>): (State, Status) {
    RunFrom(c, Boot(c, p.start, p.watchdog, buffer), trace)
  }

  lemma RunSnoc(c: Setup, p: Plan, buffer: SendBuffer, trace: seq<Tick>, t: Tick)
    ensures Run(c, p, buffer, trace + [t]) ==
      var (s, status) := Run(c, p, buffer, trace);
      if status == Running then Step(c, s, t) else (s, status)
    ensures LastReading(p.start, trace + [t]) == Refresh(Refresh(LastReading(p.start, trace), t.clock), t.wake)
    ensures Monotonic(p.start, trace + [t]) <==>
      && Monotonic(p.start, trace)
      && LastReading(p.start, trace) <= t.clock
      && Refresh(LastReading(p.start, trace), t.clock) <= t.wake
  {
    assert (trace + [t])[..|trace|] == trace;
  }

  /** One iteration keeps the history legal and the state its replay. */
  lemma StepReplays(c: Setup, p: Plan, s: State, t: Tick)
    requires Fits(c, p) && Sensible(p) && Active(p, s) && !s.stopFlag
    requires s.now <= t.clock && Refresh(s.now, t.clock) <= t.wake
    ensures var (s', status) := Step(c, s, t);
      && Legal(p, s'.log)
      && s.now <= s'.now < UINT64_MAX
      && (status == Running ==> Active(p, s') && !s'.stopFlag && s'.now == Refresh(Refresh(s.now, t.clock), t.wake))
      && (LedgerOf(p, s'.log).final ==> status == Exited(EXIT_SUCCESS))
      && (status != Running && status != Exited(EXIT_FAILURE) ==>
            && status == Exited(EXIT_SUCCESS)
            && Replays(p, s')
            && (s'.stopFlag || LedgerOf(p, s'.log).final))
  {
    var s0 := s.(now := Refresh(s.now, t.clock));
    assert Active(p, s0);
    DueWorkReplays(c, p, s0, t);
    var (s1, r1) := RunDueWork(c, s0, t);
    if r1 == Continue {
      var s2 := s1.(now := Refresh(s1.now, t.wake), stopFlag := s1.stopFlag || t.signal == Terminate);
      assert Active(p, s2);
      DrainReplays(c, p, s2, t.inbox, MAX_REPLY_DRAIN_PER_TICK);
    }
  }

  lemma DueWorkReplays(c: Setup, p: Plan, s: State, t: Tick)
    requires Fits(c, p) && Sensible(p) && Active(p, s)
    ensures var (s', r) := RunDueWork(c, s, t);
      && Legal(p, s'.log)
      && SameMoment(s, s')
      && (r == Stop <==> LedgerOf(p, s'.log).final)
      && (r == Stop ==> Replays(p, s'))
      && (r == Continue ==> Active(p, s'))
  {
    CountdownReplays(c, p, s, t.elapseCommand);
    var (s1, stop) := HandleCountdown(c, s, s.now, t.elapseCommand);
    if !stop {
      WatchdogReplays(p, s1, t.watchdogOk);
      var s2 := HandleWatchdog(s1, s.now, t.watchdogOk);
      PingTimeoutReplays(c, p, s2, t.thresholdCommand);
      var (s3, r) := HandlePingTimeout(c, s2, s.now, t.thresholdCommand);
      if r == Continue {
        SchedulerReplays(c, p, s3, t.sendOk);
      }
    }
  }

  /** The clock of a running reactor is the latest reading that did not fail. */
  lemma ClockFollowsReadings(c: Setup, p: Plan, buffer: SendBuffer, trace: seq<Tick>, t: Tick)
    requires IsRun(c, p, buffer, trace + [t]) && Run(c, p, buffer, trace + [t]).1 == Running
    ensures Run(c, p, buffer, trace + [t]).0.now ==
      if t.wake < UINT64_MAX then t.wake
      else if t.clock < UINT64_MAX then t.clock
      else Run(c, p, buffer, trace).0.now
  {
    RunSnoc(c, p, buffer, trace, t);
    RunReplays(c, p, buffer, trace);
    RunReplays(c, p, buffer, trace + [t]);
  }

  /** The main refinement theorem. On every run the history is legal; unless the run has failed
      with an I/O or range error, the whole reactor state is the one the history determines; and
      the exit code is success exactly when a termination signal or a final shutdown attempt
      ended the run. */
  lemma {:induction false} RunReplays(c: Setup, p: Plan, buffer: SendBuffer, trace: seq<Tick>)
    requires IsRun(c, p, buffer, trace)
    ensures Sensible(p)
    ensures var (s, status) := Run(c, p, buffer, trace);
      && Legal(p, s.log)
      && p.start <= s.now < UINT64_MAX
      && (status == Running ==> Active(p, s) && !s.stopFlag && s.now == LastReading(p.start, trace))
      && (LedgerOf(p, s.log).final ==> status == Exited(EXIT_SUCCESS))
      && (status != Running && status != Exited(EXIT_FAILURE) ==>
            && status == Exited(EXIT_SUCCESS)
            && Replays(p, s)
            && (s.stopFlag || LedgerOf(p, s.log).final))
  {
    FitsSensible(c, p);
    BootReplays(c, p, buffer);
    if trace != [] {
      var front := trace[..|trace| - 1];
      RunReplays(c, p, buffer, front);
      var (s1, status) := Run(c, p, buffer, front);
      if status == Running {
        StepReplays(c, p, s1, trace[|trace| - 1]);
      }
    }
  }

  // ---- Guarantees of runs ----

  /** No premature shutdown, under every environment. */
  lemma NoPrematureShutdown(c: Setup, p: Plan, buffer: SendBuffer, trace: seq<Tick>, i: nat)
    requires IsRun(c, p, buffer, trace)
    requires i < |Run(c, p, buffer, trace).0.log| && Run(c, p, buffer, trace).0.log[i].Attempted?
    ensures var h := Run(c, p, buffer, trace).0.log;
      && c.config.mode != LogOnly
      && TrailingFailures(h[..i]) >= c.config.failThreshold
      && h[i].at >= p.start + (c.config.failThreshold - 1) * (c.config.intervalSec * 1000)
                    + c.config.timeoutMs + c.config.delayMinutes * 60000
  {
    RunReplays(c, p, buffer, trace);
    AcceptedDurations(c.config);
    Lawful.AttemptNotEarly(p, Run(c, p, buffer, trace).0.log, i);
  }

  /** No missed shutdown: the converse. In every state reached without an error, every failure
      that completed a run of threshold failures has been acted on at once. */
  lemma NoMissedShutdown(c: Setup, p: Plan, buffer: SendBuffer, trace: seq<Tick>, i: nat)
    requires IsRun(c, p, buffer, trace) && Run(c, p, buffer, trace).1 != Exited(EXIT_FAILURE)
    requires Run(c, p, buffer, trace).0.now < UINT64_MAX - 525600 * 60000
    requires i < |Run(c, p, buffer, trace).0.log| && Run(c, p, buffer, trace).0.log[i].Failed?
    ensures Sensible(p)
    ensures var h := Run(c, p, buffer, trace).0.log;
      var run := TrailingFailures(h[..i + 1]);
      if c.config.mode == LogOnly then run % c.config.failThreshold == 0 ==> Lawful.Answered(p, h, i)
      else run >= c.config.failThreshold && LedgerOf(p, h[..i]).countdown == None ==> Lawful.Answered(p, h, i)
  {
    var s := Run(c, p, buffer, trace).0;
    RunReplays(c, p, buffer, trace);
    AcceptedDurations(c.config);
    Lawful.ClockIsLatest(p, s.log);
    Lawful.NoFaultBelowLimit(p, s.log);
    Lawful.ThresholdAnswered(p, s.log, i);
  }

  /** An iteration in which every system call succeeds. */
  predicate Healthy(t: Tick) {
    && t.sendOk && t.pollOk && t.signalFdOk && t.socketFdOk
    && forall a: Arrival :: a in t.inbox ==> !a.ReceiveFault?
  }

  lemma {:induction false} ReadingsGrow(start: uint64, trace: seq<Tick>)
    requires trace != [] && Monotonic(start, trace)
    ensures LastReading(start, trace[..|trace| - 1]) <= LastReading(start, trace)
  {}

  lemma {:induction false} HealthyDrain(c: Setup, s: State, now: uint64, inbox: seq<Arrival>, budget: nat)
    requires forall a: Arrival :: a in inbox ==> !a.ReceiveFault?
    ensures Drain(c, s, now, inbox, budget).1 == Continue
    decreases budget
  {
    if budget > 0 && inbox != [] {
      assert inbox[0] in inbox;
      HealthyDrain(c, s, now, inbox[1..], budget - 1);
    }
  }

  lemma HealthyStep(c: Setup, p: Plan, s: State, t: Tick)
    requires Fits(c, p) && Sensible(p) && Active(p, s) && Healthy(t)
    requires Refresh(s.now, t.clock) + p.interval < UINT64_MAX
    ensures Step(c, s, t).1 != Exited(EXIT_FAILURE)
  {
    var s0 := s.(now := Refresh(s.now, t.clock));
    HealthyDueWork(c, p, s0, t);
    var s1 := RunDueWork(c, s0, t).0;
    var s2 := s1.(now := Refresh(s1.now, t.wake), stopFlag := s1.stopFlag || t.signal == Terminate);
    HealthyDrain(c, s2, s2.now, t.inbox, MAX_REPLY_DRAIN_PER_TICK);
  }

  lemma HealthyDueWork(c: Setup, p: Plan, s: State, t: Tick)
    requires Accepted(c.config) && p.interval == IntervalMs(c.config) && s.interval == p.interval
    requires t.sendOk && s.now + p.interval < UINT64_MAX
    ensures RunDueWork(c, s, t).1 != Error
  {
    var s2 := HandleWatchdog(HandleCountdown(c, s, s.now, t.elapseCommand).0, s.now, t.watchdogOk);
    TimeoutNeverFails(c, s2, s.now, t.thresholdCommand);
    HealthyScheduler(c, HandlePingTimeout(c, s2, s.now, t.thresholdCommand).0, s.now);
  }

  lemma TimeoutNeverFails(c: Setup, s: State, now: uint64, command: CommandResult)
    ensures var (s', r) := HandlePingTimeout(c, s, now, command);
      r != Error && s'.interval == s.interval
  {}

  lemma HealthyScheduler(c: Setup, s: State, now: uint64)
    requires Accepted(c.config) && s.interval == IntervalMs(c.config) && now + s.interval < UINT64_MAX
    ensures HandleScheduler(c, s, now, true).1 == Continue
  {}

  /** A run fails only because a system call failed or the clock's range is exhausted. */
  lemma {:induction false} HealthyRunNeverFails(c: Setup, p: Plan, buffer: SendBuffer, trace: seq<Tick>)
    requires IsRun(c, p, buffer, trace)
    requires forall k: nat :: k < |trace| ==> Healthy(trace[k])
    requires LastReading(p.start, trace) + p.interval < UINT64_MAX
    ensures Run(c, p, buffer, trace).1 != Exited(EXIT_FAILURE)
  {
    if trace != [] {
      var front, t := trace[..|trace| - 1], trace[|trace| - 1];
      assert forall k: nat :: k < |front| ==> front[k] == trace[k];
      ReadingsGrow(p.start, trace);
      HealthyRunNeverFails(c, p, buffer, front);
      RunReplays(c, p, buffer, front);
      var (s, status) := Run(c, p, buffer, front);
      if status == Running {
        HealthyStep(c, p, s, t);
      }
    }
  }

  /** The C counter refines the history. The run-length condition keeps deadlines representable;
      it holds for half a billion years of uptime. */
  lemma CounterRefinesHistory(c: Setup, p: Plan, buffer: SendBuffer, trace: seq<Tick>)
    requires IsRun(c, p, buffer, trace)
    ensures var (s, status) := Run(c, p, buffer, trace);
      status != Exited(EXIT_FAILURE) ==>
        && (c.config.mode == LogOnly ==>
              && s.fails == TrailingFailures(s.log) % c.config.failThreshold
              && Count(s.log, AWarning) == SumOfQuotients(FailureRuns(s.log), c.config.failThreshold))
        && (c.config.mode != LogOnly && s.now < UINT64_MAX - 525600 * 60000 ==>
              && Count(s.log, AFault) == 0
              && s.fails == TrailingFailures(s.log))
  {
    var (s, status) := Run(c, p, buffer, trace);
    RunReplays(c, p, buffer, trace);
    AcceptedDurations(c.config);
    if status != Exited(EXIT_FAILURE) {
      Lawful.CounterIsTrailingRun(p, s.log);
      Lawful.ClockIsLatest(p, s.log);
      if c.config.mode == LogOnly {
        Lawful.LogOnlyWarnings(p, s.log);
      } else if s.now < UINT64_MAX - 525600 * 60000 {
        Lawful.NoFaultBelowLimit(p, s.log);
      }
    }
  }

  /** The failure counter fits a C `int` - with room for the next increment - while the run is
      shorter than INT_MAX intervals, and the ping counters fit 64 bits on every run. */
  lemma CountersFit(c: Setup, p: Plan, buffer: SendBuffer, trace: seq<Tick>)
    requires IsRun(c, p, buffer, trace)
    ensures var (s, status) := Run(c, p, buffer, trace);
      status != Exited(EXIT_FAILURE) ==>
        && (s.now - p.start < (0x7FFF_FFFF - 1) * p.interval + p.timeout ==> s.fails < 0x7FFF_FFFF)
        && s.metrics.total < 0xFFFF_FFFF_FFFF_FFFF
  {
    var (s, status) := Run(c, p, buffer, trace);
    RunReplays(c, p, buffer, trace);
    AcceptedDurations(c.config);
    if status != Exited(EXIT_FAILURE) {
      FailsFit(p, s.log, s.now);
      TotalFits(p, s.log);
    }
  }

  lemma FailsFit(p: Plan, h: Log, now: int)
    requires Sensible(p) && Legal(p, h) && LedgerOf(p, h).clock <= now
    ensures now - p.start < (INT_MAX - 1) * p.interval + p.timeout ==> LedgerOf(p, h).fails < INT_MAX
  {
    Lawful.ThresholdNotEarly(p, h);
    if LedgerOf(p, h).fails >= INT_MAX {
      MulMonotone(INT_MAX - 1, LedgerOf(p, h).fails - 1, p.interval);
    }
  }

  lemma TotalFits(p: Plan, h: Log)
    requires Sensible(p) && Legal(p, h) && p.interval >= 1000
    ensures LedgerOf(p, h).successes + LedgerOf(p, h).failures < UINT64_MAX
  {
    var sends := LedgerOf(p, h).sends;
    Lawful.SlotNotEarly(p, h);
    Lawful.TotalsAreCounts(p, h);
    if sends > 0 {
      MulAtLeast(sends - 1, 1000, p.interval);
    }
  }

  lemma MulAtLeast(k: nat, low: nat, d: nat)
    requires low <= d
    ensures low * k <= k * d
  {
    MulMonotone(low, d, k);
  }

  /** Conservation: every ping sent is counted once it has an outcome, successes and failures
      add up, and the mean latency lies between the extremes. */
  lemma PingsConserved(c: Setup, p: Plan, buffer: SendBuffer, trace: seq<Tick>)
    requires IsRun(c, p, buffer, trace)
    ensures var (s, status) := Run(c, p, buffer, trace);
      status != Exited(EXIT_FAILURE) ==>
        && Count(s.log, ASend) == s.metrics.total + (if s.ping.waiting then 1 else 0)
        && s.metrics.total == s.metrics.successful + s.metrics.failed
        && s.metrics.successful == Count(s.log, ASuccess)
        && s.metrics.failed == Count(s.log, AFailure)
        && s.metrics.totalLatency == LatencySum(s.log)
        && (s.metrics.successful > 0 ==>
              s.metrics.minLatency as real <= AverageLatency(s.metrics) <= s.metrics.maxLatency as real)
  {
    var (s, status) := Run(c, p, buffer, trace);
    RunReplays(c, p, buffer, trace);
    if status != Exited(EXIT_FAILURE) {
      Lawful.TotalsAreCounts(p, s.log);
      Lawful.LatencyTotal(p, s.log);
      if s.metrics.successful > 0 {
        MeanBetween(s.metrics.minLatency, s.metrics.totalLatency, s.metrics.maxLatency, s.metrics.successful);
      }
    }
  }

  lemma RealMulStrict(a: real, b: real, d: real)
    requires d > 0.0
    ensures a * d <= b * d ==> a <= b
  {
    assert b * d - a * d == (b - a) * d;
  }

  lemma MeanBetween(min: int, sum: int, max: int, n: nat)
    requires n > 0 && min * n <= sum <= max * n
    ensures min as real <= sum as real / n as real <= max as real
  {
    var d := n as real;
    assert (min * n) as real == min as real * d && (max * n) as real == max as real * d;
    var q := sum as real / d;
    assert q * d == sum as real;
    RealMulStrict(min as real, q, d);
    RealMulStrict(q, max as real, d);
  }

  /** Countdown integrity over runs. */
  lemma CountdownIntegrity(c: Setup, p: Plan, buffer: SendBuffer, trace: seq<Tick>)
    requires IsRun(c, p, buffer, trace)
    ensures var (s, status) := Run(c, p, buffer, trace);
      && (status != Exited(EXIT_FAILURE) ==>
            Count(s.log, AStart) == Count(s.log, ACancel) + Count(s.log, AnElapse) + if s.shutdown.pending then 1 else 0)
      && (forall i: nat, j: nat :: i < j < |s.log| && s.log[i].Attempted? && s.log[j].Attempted? ==>
            s.log[j].at >= s.log[i].at + p.delay && c.config.mode == TrueOff && s.log[i].result != Triggered)
      && (forall j: nat :: j < |s.log| && s.log[j].Elapsed? ==> exists i: nat :: StartsElapsed(p, s.log, i, j))
  {
    var (s, status) := Run(c, p, buffer, trace);
    RunReplays(c, p, buffer, trace);
    Lawful.CountdownsBalance(p, s.log);
    forall i: nat, j: nat | i < j < |s.log| && s.log[i].Attempted? && s.log[j].Attempted?
      ensures s.log[j].at >= s.log[i].at + p.delay && c.config.mode == TrueOff && s.log[i].result != Triggered
    {
      Lawful.AttemptsSpaced(p, s.log, i, j);
    }
    forall j: nat | j < |s.log| && s.log[j].Elapsed?
      ensures exists i: nat :: StartsElapsed(p, s.log, i, j)
    {
      var i := Lawful.ElapseHasStart(p, s.log, j);
      assert StartsElapsed(p, s.log, i, j);
    }
  }

  /** h[i] starts the countdown that elapses at h[j]: the deadline was fixed there and met, and
      no success or other countdown event lies between. */
  predicate StartsElapsed(p: Plan, h: Log, i: nat, j: nat)
    requires j < |h| && h[j].Elapsed?
  {
    && i < j && h[i].Armed?
    && h[i].deadline == h[i].at + p.delay <= h[j].at
    && Lawful.QuietBetween(h, i, j)
    && TrailingFailures(h[..i]) >= p.threshold
  }

  /** A pending countdown's deadline is still the one fixed at its start. */
  lemma PendingDeadlineFixed(c: Setup, p: Plan, buffer: SendBuffer, trace: seq<Tick>) returns (i: nat)
    requires IsRun(c, p, buffer, trace)
    requires Run(c, p, buffer, trace).1 == Running && Run(c, p, buffer, trace).0.shutdown.pending
    ensures var s := Run(c, p, buffer, trace).0;
      && i < |s.log| && s.log[i].Armed?
      && s.shutdown.deadline == s.log[i].deadline == s.log[i].at + p.delay
      && Lawful.QuietBetween(s.log, i, |s.log|)
      && s.fails >= c.config.failThreshold
  {
    RunReplays(c, p, buffer, trace);
    i := Lawful.CountdownHasStart(p, Run(c, p, buffer, trace).0.log);
  }

  /** Send-rate bound and freedom from drift. */
  lemma SendRate(c: Setup, p: Plan, buffer: SendBuffer, trace: seq<Tick>)
    requires IsRun(c, p, buffer, trace)
    ensures var (s, status) := Run(c, p, buffer, trace);
      var sends := SendTimes(s.log);
      && (forall k: nat :: k < |sends| ==> sends[k] >= p.start + k * p.interval)
      && (forall a: nat, b: nat :: a < b < |sends| ==> sends[b] >= sends[a] + (b - a - 1) * p.interval)
      && (status != Exited(EXIT_FAILURE) ==>
            && s.nextPing >= p.start + |sends| * p.interval
            && (s.nextPing == p.start + |sends| * p.interval <==>
                  forall k: nat :: k < |sends| ==> sends[k] <= p.start + (k + 1) * p.interval))
  {
    var (s, status) := Run(c, p, buffer, trace);
    var sends := SendTimes(s.log);
    RunReplays(c, p, buffer, trace);
    forall k: nat | k < |sends| ensures sends[k] >= p.start + k * p.interval {
      Lawful.SendNotEarly(p, s.log, k);
    }
    forall a: nat, b: nat | a < b < |sends| ensures sends[b] >= sends[a] + (b - a - 1) * p.interval {
      Lawful.SendsSpaced(p, s.log, a, b);
    }
    Lawful.OnGridIffNeverLate(p, s.log);
  }
}
