/** Bounded liveness: when the target stays silent, the shutdown happens, at one exact time. */
module Liveness {
  import opened Machine
  import opened Settings
  import opened Icmp
  import opened Shutdown
  import opened History
  import opened ReactorSpec
  import Lawful
  import opened Refinement
  import opened Runs
  import opened Timing

  /** The moment of shutdown when the target is silent from the start. */
  function ShutdownTime(p: Plan): int { Lawful.EarliestThreshold(p) + p.delay }

  /** No arrival is a fault or the awaited reply; other traffic may arrive. */
  predicate Silent(c: Setup, s: State, inbox: seq<Arrival>) {
    forall a: Arrival :: a in inbox ==> !a.ReceiveFault? && !IsMatch(c, s, a)
  }

  /** One iteration with a silent target and a healthy host: no processing time, no I/O error,
      no termination signal, notifications and a shutdown command that succeed, and a poll that
      lasts between 1 ms and the requested timeout. */
  predicate Quiet(c: Setup, s: State, t: Tick) {
    var s1 := RunDueWork(c, s, t).0;
    && Refresh(s.now, t.clock) == s.now
    && t.elapseCommand == Triggered && t.thresholdCommand == Triggered
    && t.watchdogOk && t.sendOk && t.pollOk && t.signalFdOk && t.socketFdOk
    && t.signal != Terminate
    && (RunDueWork(c, s, t).1 == Continue ==>
          && s.now < Refresh(s.now, t.wake) <= s.now + WaitTimeout(s1, s.now)
          && (t.readable ==> Silent(c, s1, t.inbox)))
  }

  predicate QuietRun(c: Setup, p: Plan, buffer: SendBuffer, trace: seq<Tick>) {
    trace == []
    || (var front := trace[..|trace| - 1];
        && QuietRun(c, p, buffer, front)
        && (Run(c, p, buffer, front).1 == Running ==> Quiet(c, Run(c, p, buffer, front).0, trace[|trace| - 1])))
  }

  /** All times of the run stay clear of the end of the clock's range. */
  predicate InRange(p: Plan) {
    ShutdownTime(p) + p.interval < UINT64_MAX
  }

  /** On schedule: the state of a silent run as a function of the number of sends. `due` allows
      deadlines that are due right now. */
  predicate OnSchedule(p: Plan, s: State, sends: nat) {
    && (s.nextPing == p.start + sends * p.interval)
    && s.interval == p.interval && s.watchdog == p.watchdog
    && (if s.ping.waiting
        then sends > 0 && s.fails == sends - 1 && s.ping.deadline == p.start + (sends - 1) * p.interval + p.timeout
        else s.fails == sends)
    && (s.shutdown.pending <==> p.delay > 0 && s.fails >= p.threshold)
    && (s.shutdown.pending ==> s.shutdown.deadline == ShutdownTime(p))
    && (p.delay == 0 ==> s.fails < p.threshold)
    && !s.stopFlag
    && s.lastWatchdog <= s.now
  }

  /** No deadline has been missed yet. */
  predicate OnTime(s: State) {
    && s.now <= (if s.ping.waiting then s.ping.deadline else s.nextPing)
    && (s.shutdown.pending ==> s.now <= s.shutdown.deadline)
  }

  /** The latest event is a shutdown attempt made just now. */
  predicate EndsInAttempt(s: State) {
    s.log != [] && Last(s.log).Attempted? && Last(s.log).at == s.now
  }

  predicate IsQuietPlan(c: Setup, p: Plan) {
    && Fits(c, p) && Sensible(p) && InRange(p) && p.mode != LogOnly
  }

  /** On time and on schedule, the shutdown moment has not passed. */
  lemma OnTimeBeforeShutdown(p: Plan, s: State, sends: nat)
    requires Sensible(p) && OnSchedule(p, s, sends) && OnTime(s)
    ensures s.now <= ShutdownTime(p)
  {
    if s.fails < p.threshold {
      if s.ping.waiting {
        MulMonotone(sends - 1, p.threshold - 1, p.interval);
      } else {
        MulMonotone(sends, p.threshold - 1, p.interval);
      }
    }
  }

  lemma CountdownOnSchedule(c: Setup, p: Plan, s: State, sends: nat, command: CommandResult)
    requires IsQuietPlan(c, p) && OnSchedule(p, s, sends) && OnTime(s) && command == Triggered
    ensures var (s', stop) := HandleCountdown(c, s, s.now, command);
      if stop then s.now == ShutdownTime(p) && EndsInAttempt(s')
      else s' == s && CountdownSettled(s, s.now)
  {}

  lemma PingTimeoutOnSchedule(c: Setup, p: Plan, s: State, sends: nat, command: CommandResult)
    requires IsQuietPlan(c, p) && OnSchedule(p, s, sends) && OnTime(s) && command == Triggered
    requires CountdownSettled(s, s.now)
    ensures var (s', r) := HandlePingTimeout(c, s, s.now, command);
      && r != Error && s'.now == s.now
      && (r == Stop ==> s.now == ShutdownTime(p) && EndsInAttempt(s'))
      && (r == Continue ==> OnSchedule(p, s', sends) && OnTime(s') && (s'.ping.waiting ==> s.now < s'.ping.deadline))
  {
    FitsSensible(c, p);
    AcceptedDurations(c.config);
    if s.ping.waiting && s.now >= s.ping.deadline {
      MulSucc(sends - 1, p.interval);
      if s.fails + 1 >= p.threshold && !s.shutdown.pending {
        assert sends == p.threshold;
        assert s.now == Lawful.EarliestThreshold(p);
      }
    }
  }

  lemma SchedulerOnSchedule(c: Setup, p: Plan, s: State, sends: nat)
    requires IsQuietPlan(c, p) && OnSchedule(p, s, sends) && OnTime(s)
    requires s.ping.waiting ==> s.now < s.ping.deadline
    ensures var (s', r) := HandleScheduler(c, s, s.now, true);
      && r == Continue && s'.now == s.now
      && OnSchedule(p, s', if !s.ping.waiting && s.now >= s.nextPing then sends + 1 else sends)
      && OnTime(s')
  {
    FitsSensible(c, p);
    AcceptedDurations(c.config);
    OnTimeBeforeShutdown(p, s, sends);
    MulSucc(sends, p.interval);
  }

  /** The due work of a quiet iteration: it stops exactly at the shutdown moment, and otherwise
      keeps the schedule. */
  lemma DueWorkOnSchedule(c: Setup, p: Plan, s: State, sends: nat, t: Tick) returns (sends': nat)
    requires IsQuietPlan(c, p) && OnSchedule(p, s, sends) && OnTime(s)
    requires t.elapseCommand == Triggered && t.thresholdCommand == Triggered && t.sendOk
    ensures var (s', r) := RunDueWork(c, s, t);
      && r != Error && s'.now == s.now
      && (r == Stop ==> s.now == ShutdownTime(p) && EndsInAttempt(s'))
      && (r == Continue ==> OnSchedule(p, s', sends') && OnTime(s'))
  {
    sends' := sends;
    CountdownOnSchedule(c, p, s, sends, t.elapseCommand);
    if !HandleCountdown(c, s, s.now, t.elapseCommand).1 {
      var s2 := HandleWatchdog(s, s.now, t.watchdogOk);
      PingTimeoutOnSchedule(c, p, s2, sends, t.thresholdCommand);
      var (s3, r3) := HandlePingTimeout(c, s2, s.now, t.thresholdCommand);
      if r3 == Continue {
        SchedulerOnSchedule(c, p, s3, sends);
        sends' := if !s3.ping.waiting && s3.now >= s3.nextPing then sends + 1 else sends;
      }
    }
  }

  lemma {:induction false} SilentDrain(c: Setup, s: State, now: uint64, inbox: seq<Arrival>, budget: nat)
    requires Silent(c, s, inbox)
    ensures Drain(c, s, now, inbox, budget) == (s, Continue)
    decreases budget
  {
    if budget > 0 && inbox != [] {
      assert inbox[0] in inbox;
      SilentDrain(c, s, now, inbox[1..], budget - 1);
    }
  }

  lemma PollOnSchedule(c: Setup, p: Plan, s: State, sends: nat, t: Tick)
    requires OnSchedule(p, s, sends) && OnTime(s)
    requires t.pollOk && t.signalFdOk && t.socketFdOk && t.signal != Terminate
    requires s.now < Refresh(s.now, t.wake) <= s.now + WaitTimeout(s, s.now)
    requires t.readable ==> Silent(c, s, t.inbox)
    ensures var (s', r) := HandlePoll(c, s, t);
      && r == Continue && s'.now == Refresh(s.now, t.wake)
      && OnSchedule(p, s', sends) && OnTime(s')
  {
    var s' := s.(now := Refresh(s.now, t.wake));
    WaitTimeoutIsNearest(s, s.now);
    assert (if s.ping.waiting then s.ping.deadline as int else s.nextPing as int) in Deadlines(s);
    if s.shutdown.pending { assert s.shutdown.deadline as int in Deadlines(s); }
    if t.readable {
      forall a: Arrival | a in t.inbox ensures !a.ReceiveFault? && !IsMatch(c, s', a) {
        assert !IsMatch(c, s, a);
      }
      SilentDrain(c, s', s'.now, t.inbox, MAX_REPLY_DRAIN_PER_TICK);
    }
  }

  lemma StepOnSchedule(c: Setup, p: Plan, s: State, sends: nat, t: Tick) returns (sends': nat)
    requires IsQuietPlan(c, p) && OnSchedule(p, s, sends) && OnTime(s) && Quiet(c, s, t)
    ensures var (s', status) := Step(c, s, t);
      if status == Running then s'.now > s.now && OnSchedule(p, s', sends') && OnTime(s')
      else status == Exited(EXIT_SUCCESS) && s'.now == ShutdownTime(p) && EndsInAttempt(s')
  {
    assert s.(now := Refresh(s.now, t.clock)) == s;
    sends' := DueWorkOnSchedule(c, p, s, sends, t);
    var (s1, r1) := RunDueWork(c, s, t);
    if r1 == Continue {
      PollOnSchedule(c, p, s1, sends', t);
    }
  }

  lemma {:induction false} QuietRunOnSchedule(c: Setup, p: Plan, buffer: SendBuffer, trace: seq<Tick>) returns (sends: nat)
    requires IsQuietPlan(c, p) && QuietRun(c, p, buffer, trace)
    ensures var (s, status) := Run(c, p, buffer, trace);
      if status == Running then OnSchedule(p, s, sends) && OnTime(s) && s.now >= p.start + |trace|
      else status == Exited(EXIT_SUCCESS) && s.now == ShutdownTime(p) && EndsInAttempt(s)
  {
    if trace == [] {
      FitsSensible(c, p);
      sends := 0;
    } else {
      var front := trace[..|trace| - 1];
      sends := QuietRunOnSchedule(c, p, buffer, front);
      var (s, status) := Run(c, p, buffer, front);
      if status == Running {
        sends := StepOnSchedule(c, p, s, sends, trace[|trace| - 1]);
      }
    }
  }

  /** Bounded liveness with the exact time. In dry-run mode, and in true-off mode with a command
      that starts, a run whose target is silent is still running before the shutdown moment, has
      exited with code 0 once enough iterations have passed, and if it has exited it did so
      exactly at start + (threshold - 1) * interval + timeout + delay - whatever the pattern of
      early wakeups, cut-off polls and unrelated packets. */
  lemma SilentTargetShutsDown(c: Setup, p: Plan, buffer: SendBuffer, trace: seq<Tick>)
    requires Fits(c, p) && c.config.mode != LogOnly
    requires InRange(p) && QuietRun(c, p, buffer, trace)
    ensures var (s, status) := Run(c, p, buffer, trace);
      && (status == Running ==> p.start + |trace| <= s.now <= ShutdownTime(p))
      && (status != Running ==> status == Exited(EXIT_SUCCESS) && s.now == ShutdownTime(p) && EndsInAttempt(s))
      && (|trace| > ShutdownTime(p) - p.start ==> status == Exited(EXIT_SUCCESS))
    ensures ShutdownTime(p) == p.start + (c.config.failThreshold - 1) * (c.config.intervalSec * 1000)
                               + c.config.timeoutMs + c.config.delayMinutes * 60000
  {
    FitsSensible(c, p);
    AcceptedDurations(c.config);
    var sends := QuietRunOnSchedule(c, p, buffer, trace);
    var (s, status) := Run(c, p, buffer, trace);
    if status == Running {
      OnTimeBeforeShutdown(p, s, sends);
    }
  }

  /** The iteration whose poll wakes up after one millisecond, with nothing to read. */
  function ShortTick(now: uint64): Tick
    requires now < UINT64_MAX
  {
    Tick(now, Triggered, Triggered, true, true, true, now + 1, true, true, NoSignal, false, [])
  }

  lemma ShortTickIsQuiet(c: Setup, p: Plan, s: State, sends: nat)
    requires IsQuietPlan(c, p) && OnSchedule(p, s, sends) && OnTime(s)
    ensures s.now + 1 < UINT64_MAX && Quiet(c, s, ShortTick(s.now))
  {
    OnTimeBeforeShutdown(p, s, sends);
    if RunDueWork(c, s, ShortTick(s.now)).1 == Continue {
      DueWorkSettles(c, s, ShortTick(s.now));
      WaitTimeoutIsNearest(RunDueWork(c, s, ShortTick(s.now)).0, s.now);
    }
  }

  /** Silent runs of every length exist, so the theorem above is about something. */
  lemma {:induction false} SilentRunExists(c: Setup, p: Plan, buffer: SendBuffer, n: nat) returns (trace: seq<Tick>)
    requires IsQuietPlan(c, p)
    ensures |trace| == n && QuietRun(c, p, buffer, trace)
  {
    trace := [];
    if n > 0 {
      var front := SilentRunExists(c, p, buffer, n - 1);
      var sends := QuietRunOnSchedule(c, p, buffer, front);
      var (s, status) := Run(c, p, buffer, front);
      if status == Running {
        ShortTickIsQuiet(c, p, s, sends);
      }
      trace := front + [ShortTick(if status == Running then s.now else 0)];
      assert trace[..|trace| - 1] == front;
    }
  }
}
