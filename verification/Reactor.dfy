/** The reactor as the program has it: one object whose fields the handlers update in place.
    Each handler is proved equal to its function in ReactorSpec, and the loop to RunFrom. */
module Reactor {
  import opened Machine
  import opened Settings
  import opened Icmp
  import opened Shutdown
  import opened History
  import opened ReactorSpec
  import Lawful
  import opened Refinement
  import opened Runs

  class Monitor {
    const setup: Setup
    const pinger: Pinger

    // Ping tracker
    var pingWaiting: bool
    var pingDeadline: uint64
    var pingSendTime: uint64
    var pingExpected: uint16
    // Shutdown countdown
    var shutdownPending: bool
    var shutdownDeadline: uint64
    // Scheduler
    var nextPing: uint64
    var interval: uint64
    // Watchdog
    var watchdogLastSent: uint64
    var watchdogInterval: uint64
    // Context
    var consecutiveFails: nat
    var stopFlag: bool
    var loopNow: uint64
    // Metrics
    var totalPings: nat
    var successfulPings: nat
    var failedPings: nat
    var totalLatency: int
    var minLatency: int
    var maxLatency: int

    ghost var history: Log

    ghost predicate Valid() {
      pinger.sendBuffer.Length == SEND_BUFFER_SIZE && pinger.family == setup.dest.family
    }

    ghost function Model(): State
      requires Valid()
      reads this, pinger, pinger.sendBuffer
    {
      State(
        Ping(pingWaiting, pingDeadline, pingSendTime, pingExpected),
        Pending(shutdownPending, shutdownDeadline),
        nextPing,
        interval,
        watchdogLastSent,
        watchdogInterval,
        consecutiveFails,
        Metrics(totalPings, successfulPings, failedPings, totalLatency, minLatency, maxLatency),
        pinger.sequence,
        pinger.sendBuffer[..],
        loopNow,
        stopFlag,
        history)
    }

    /** Nothing has been monitored yet. */
    ghost predicate Fresh()
      reads this, pinger
    {
      && history == [] && consecutiveFails == 0 && !stopFlag && pinger.sequence == 0
      && totalPings == successfulPings == failedPings == 0
      && totalLatency == 0 && minLatency == maxLatency == -1
    }

    /** `openups_ctx_init`: an idle context for a resolved target. */
    constructor (setup: Setup)
      ensures Valid() && this.setup == setup && fresh(pinger) && fresh(pinger.sendBuffer)
      ensures Fresh()
    {
      this.setup := setup;
      pinger := new Pinger(setup.dest.family);
      pingWaiting, pingDeadline, pingSendTime, pingExpected := false, 0, 0, 0;
      shutdownPending, shutdownDeadline := false, 0;
      nextPing, interval, watchdogLastSent, watchdogInterval := 0, 0, 0, 0;
      consecutiveFails, stopFlag, loopNow := 0, false, 0;
      totalPings, successfulPings, failedPings := 0, 0, 0;
      totalLatency, minLatency, maxLatency := 0, -1, -1;
      history := [];
    }

    /** `monitor_state_init`. */
    method StateInit(now: uint64, intervalMs: uint64, watchdog: uint64)
      requires Valid()
      modifies this
      ensures stopFlag == old(stopFlag) && consecutiveFails == old(consecutiveFails) && history == old(history)
      ensures Model() == old(Model()).(ping := Ping(false, 0, 0, 0), shutdown := Pending(false, 0), nextPing := now,
                                       interval := intervalMs, lastWatchdog := now, watchdog := watchdog)
    {
      PingClear();
      ShutdownClear();
      nextPing := now;
      interval := intervalMs;
      watchdogLastSent := now;
      watchdogInterval := watchdog;
    }

    /** `monitor_loop_init`: prepares the packet and the timing state; fails if the clock cannot
        be read or the interval is unusable. */
    method LoopInit(reading: uint64, watchdog: uint64) returns (ok: bool)
      requires Valid() && Fresh()
      modifies this, pinger.sendBuffer
      ensures history == old(history)
      ensures ok <==> reading < UINT64_MAX && IntervalMs(setup.config) != 0 && IntervalMs(setup.config) != UINT64_MAX
      ensures PayloadPattern(pinger.sendBuffer[..])
      ensures ok ==> Model() == Boot(setup, reading, watchdog, pinger.sendBuffer[..])
    {
      var packetLen := pinger.PreparePacket();
      var intervalMs := IntervalMs(setup.config);
      if reading == UINT64_MAX || intervalMs == 0 || intervalMs == UINT64_MAX {
        return false;
      }
      loopNow := reading;
      StateInit(loopNow, intervalMs, watchdog);
      ok := true;
    }

    // ---- Metrics ----

    method RecordSuccessMetrics(latency: nat)
      requires Valid()
      modifies this`totalPings, this`successfulPings, this`totalLatency, this`minLatency, this`maxLatency
      ensures Model() == old(Model()).(metrics := RecordSuccess(old(Model()).metrics, latency))
    {
      totalPings, successfulPings, totalLatency := totalPings + 1, successfulPings + 1, totalLatency + latency;
      if minLatency < 0 || latency < minLatency {
        minLatency := latency;
      }
      if maxLatency < 0 || latency > maxLatency {
        maxLatency := latency;
      }
    }

    method RecordFailureMetrics()
      requires Valid()
      modifies this`totalPings, this`failedPings
      ensures Model() == old(Model()).(metrics := RecordFailure(old(Model()).metrics))
    {
      totalPings := totalPings + 1;
      failedPings := failedPings + 1;
    }

    // ---- Monitor state ----

    method PingArm(now: uint64, timeout: uint64, expected: uint16) returns (ok: bool)
      requires Valid()
      modifies this`pingWaiting, this`pingSendTime, this`pingDeadline, this`pingExpected
      ensures ok <==> SaturatingAdd(now, timeout) != UINT64_MAX
      ensures Model() == if ok then old(Model()).(ping := Ping(true, SaturatingAdd(now, timeout), now, expected)) else old(Model())
    {
      var deadline := SaturatingAdd(now, timeout);
      if deadline == UINT64_MAX { return false; }
      pingWaiting := true;
      pingSendTime := now;
      pingDeadline := deadline;
      pingExpected := expected;
      ok := true;
    }

    method PingClear()
      requires Valid()
      modifies this`pingWaiting, this`pingSendTime, this`pingDeadline, this`pingExpected
      ensures Model() == ClearPing(old(Model()))
    {
      pingWaiting := false;
      pingDeadline := 0;
      pingSendTime := 0;
      pingExpected := 0;
    }

    method ShutdownArm(now: uint64, delay: uint64) returns (ok: bool)
      requires Valid()
      modifies this`shutdownPending, this`shutdownDeadline
      ensures ok <==> SaturatingAdd(now, delay) != UINT64_MAX
      ensures Model() == if ok then old(Model()).(shutdown := Pending(true, SaturatingAdd(now, delay))) else old(Model())
    {
      var deadline := SaturatingAdd(now, delay);
      if deadline == UINT64_MAX { return false; }
      shutdownPending := true;
      shutdownDeadline := deadline;
      ok := true;
    }

    method ShutdownClear()
      requires Valid()
      modifies this`shutdownPending, this`shutdownDeadline
      ensures Model() == ClearShutdown(old(Model()))
    {
      shutdownPending := false;
      shutdownDeadline := 0;
    }

    method SchedulerAdvance(now: uint64) returns (ok: bool)
      requires Valid()
      modifies this`nextPing
      ensures ok <==> AdvanceSchedule(old(nextPing), interval, now) != UINT64_MAX
      ensures Model() == if ok then old(Model()).(nextPing := AdvanceSchedule(old(nextPing), interval, now)) else old(Model())
    {
      var candidate := SaturatingAdd(nextPing, interval);
      if candidate == UINT64_MAX || candidate < now {
        candidate := SaturatingAdd(now, interval);
      }
      if candidate == UINT64_MAX { return false; }
      nextPing := candidate;
      ok := true;
    }

    method StateWaitTimeout(now: uint64) returns (timeout: int)
      requires Valid()
      ensures timeout == WaitTimeout(Model(), now)
    {
      timeout := TimeoutUntil(now, if pingWaiting then pingDeadline else nextPing);
      if shutdownPending {
        timeout := Min(timeout, TimeoutUntil(now, shutdownDeadline));
      }
      if watchdogInterval > 0 {
        var deadline := SaturatingAdd(watchdogLastSent, watchdogInterval);
        var watchdogTimeout := if deadline == UINT64_MAX then INT_MAX else TimeoutUntil(now, deadline);
        timeout := Min(timeout, watchdogTimeout);
      }
    }

    // ---- Shutdown logic ----

    method ExecuteShutdown(now: uint64, command: CommandResult) returns (stop: bool)
      requires Valid()
      modifies this`history
      ensures (Model(), stop) == Execute(setup, old(Model()), now, command)
    {
      var result := TriggerResult(setup.config.mode, command);
      history := history + [Attempted(now, result)];
      if setup.config.mode == DryRun { return true; }
      if result != Triggered { return false; }
      stop := true;
    }

    method Cancel(now: uint64) returns (cancelled: bool)
      requires Valid()
      modifies this`shutdownPending, this`shutdownDeadline, this`history
      ensures cancelled == old(shutdownPending)
      ensures Model() == CancelCountdown(old(Model()), now)
    {
      if !shutdownPending { return false; }
      ShutdownClear();
      history := history + [Cancelled(now)];
      cancelled := true;
    }

    method OnThreshold(now: uint64, command: CommandResult) returns (stop: bool)
      requires Valid()
      modifies this
      ensures (Model(), stop) == HandleThreshold(setup, old(Model()), now, command)
    {
      if consecutiveFails < setup.config.failThreshold { return false; }
      if setup.config.mode == LogOnly {
        history := history + [Warned(now)];
        consecutiveFails := 0;
        return false;
      }
      if setup.config.delayMinutes <= 0 {
        stop := ExecuteShutdown(now, command);
        return;
      }
      if shutdownPending { return false; }
      var delay := DelayMs(setup.config);
      if delay == 0 || delay == UINT64_MAX {
        history := history + [Faulted(now)];
        consecutiveFails := 0;
        return false;
      }
      var armed := ShutdownArm(now, delay);
      if !armed {
        history := history + [Faulted(now)];
        consecutiveFails := 0;
        return false;
      }
      history := history + [Armed(now, shutdownDeadline)];
      stop := false;
    }

    method OnCountdownTick(now: uint64, command: CommandResult) returns (stop: bool)
      requires Valid()
      modifies this
      ensures (Model(), stop) == HandleCountdown(setup, old(Model()), now, command)
    {
      if !shutdownPending || now < shutdownDeadline { return false; }
      ShutdownClear();
      history := history + [Elapsed(now)];
      stop := ExecuteShutdown(now, command);
    }

    // ---- Pings ----

    method OnPingSuccess(now: uint64, latency: uint64)
      requires Valid()
      modifies this
      ensures Model() == PingSuccess(old(Model()), now, latency)
    {
      consecutiveFails := 0;
      var cancelled := Cancel(now);
      RecordSuccessMetrics(latency);
      history := history + [Succeeded(now, latency)];
    }

    method OnPingFailure(now: uint64)
      requires Valid()
      modifies this
      ensures Model() == PingFailure(old(Model()), now)
    {
      consecutiveFails := consecutiveFails + 1;
      RecordFailureMetrics();
      history := history + [Failed(now)];
    }

    method OnPingTimeout(now: uint64, command: CommandResult) returns (r: StepResult)
      requires Valid()
      modifies this
      ensures (Model(), r) == HandlePingTimeout(setup, old(Model()), now, command)
    {
      if !(pingWaiting && now >= pingDeadline) { return Continue; }
      OnPingFailure(now);
      PingClear();
      var stop := OnThreshold(now, command);
      r := if stop then Stop else Continue;
    }

    method Send(now: uint64, sendOk: bool) returns (r: StepResult)
      requires Valid()
      modifies this, pinger`sequence, pinger.sendBuffer
      ensures (Model(), r) == SendPing(setup, old(Model()), now, sendOk)
    {
      var ok := pinger.SendEcho(setup.id, PACKET_SIZE, sendOk);
      if !ok { return Error; }
      history := history + [Sent(now, pinger.sequence)];
      var armed := PingArm(now, TimeoutMs(setup.config), pinger.sequence);
      if !armed { return Error; }
      r := Continue;
    }

    method OnScheduler(now: uint64, sendOk: bool) returns (r: StepResult)
      requires Valid()
      modifies this, pinger`sequence, pinger.sendBuffer
      ensures (Model(), r) == HandleScheduler(setup, old(Model()), now, sendOk)
    {
      if pingWaiting || now < nextPing { return Continue; }
      r := Send(now, sendOk);
      if r != Continue { return; }
      var ok := SchedulerAdvance(now);
      if !ok { return Error; }
      r := Continue;
    }

    method OnWatchdog(now: uint64, notified: bool)
      requires Valid()
      modifies this`watchdogLastSent, this`history
      ensures Model() == HandleWatchdog(old(Model()), now, notified)
    {
      if !(watchdogInterval > 0 && WrappingSub(now, watchdogLastSent) >= watchdogInterval) { return; }
      if notified {
        watchdogLastSent := now;
        history := history + [WatchdogSent(now)];
      }
    }

    /** `monitor_drain_icmp_replies`: reads at most 32 packets. */
    method DrainReplies(now: uint64, inbox: seq<Arrival>) returns (r: StepResult)
      requires Valid()
      modifies this
      ensures (Model(), r) == Drain(setup, old(Model()), now, inbox, MAX_REPLY_DRAIN_PER_TICK)
    {
      var processed := 0;
      while processed < MAX_REPLY_DRAIN_PER_TICK
        invariant 0 <= processed <= MAX_REPLY_DRAIN_PER_TICK && processed <= |inbox|
        invariant Model() == old(Model())
        invariant Drain(setup, Model(), now, inbox, MAX_REPLY_DRAIN_PER_TICK)
          == Drain(setup, Model(), now, inbox[processed..], MAX_REPLY_DRAIN_PER_TICK - processed)
      {
        if processed == |inbox| || inbox[processed].WouldBlock? { return Continue; }
        var arrival := inbox[processed];
        if arrival.ReceiveFault? {
          PingClear();
          return Error;
        }
        var status := Classify(setup.dest, arrival.source, arrival.bytes, setup.id, pingExpected);
        if status == Matched && pingWaiting {
          OnPingSuccess(now, Latency(pingSendTime, now));
          PingClear();
          return Continue;
        }
        assert inbox[processed..][1..] == inbox[processed + 1..];
        processed := processed + 1;
      }
      r := Continue;
    }

    // ---- The loop ----

    method DoDueWork(t: Tick) returns (r: StepResult)
      requires Valid()
      modifies this, pinger`sequence, pinger.sendBuffer
      ensures (Model(), r) == RunDueWork(setup, old(Model()), t)
    {
      var now := loopNow;
      var stop := OnCountdownTick(now, t.elapseCommand);
      if stop { return Stop; }
      OnWatchdog(now, t.watchdogOk);
      r := OnPingTimeout(now, t.thresholdCommand);
      if r != Continue { return; }
      r := OnScheduler(now, t.sendOk);
    }

    method OnPollEvents(t: Tick) returns (r: StepResult)
      requires Valid()
      modifies this
      ensures (Model(), r) == HandlePoll(setup, old(Model()), t)
    {
      // The environment's answer is that to poll with this timeout.
      var waitTimeout := StateWaitTimeout(loopNow);
      if !t.pollOk { return Error; }
      if t.wake != UINT64_MAX { loopNow := t.wake; }
      if !t.signalFdOk { return Error; }
      if !t.socketFdOk { return Error; }
      if t.signal == Terminate { stopFlag := true; }
      if t.readable {
        r := DrainReplies(loopNow, t.inbox);
        if r != Continue { return; }
      }
      r := Continue;
    }

    method Iterate(t: Tick) returns (status: Status)
      requires Valid()
      modifies this, pinger`sequence, pinger.sendBuffer
      ensures (Model(), status) == Step(setup, old(Model()), t)
    {
      if t.clock != UINT64_MAX { loopNow := t.clock; }
      var r := DoDueWork(t);
      if r == Error { return Exited(EXIT_FAILURE); }
      if r == Stop { return Exited(EXIT_SUCCESS); }
      r := OnPollEvents(t);
      if r == Error { return Exited(EXIT_FAILURE); }
      if stopFlag { return Exited(EXIT_SUCCESS); }
      status := Running;
    }

    /** `openups_reactor_run`, for as long as the environment's answers last. */
    method ReactorRun(trace: seq<Tick>) returns (status: Status)
      requires Valid()
      modifies this, pinger`sequence, pinger.sendBuffer
      ensures (Model(), status) == RunFrom(setup, old(Model()), trace)
    {
      status := Running;
      var i := 0;
      assert trace[..0] == [];
      while i < |trace| && status == Running
        invariant 0 <= i <= |trace|
        invariant (Model(), status) == RunFrom(setup, old(Model()), trace[..i])
        decreases |trace| - i
      {
        assert trace[..i + 1][..i] == trace[..i];
        status := Iterate(trace[i]);
        i := i + 1;
      }
      if status == Running {
        assert trace[..i] == trace;
      } else {
        ExitIsFinal(setup, old(Model()), trace, i);
      }
    }
  }

  /** `openups_reactor_run` on a fresh context, with what it guarantees to the operator stated
      on the object itself: the history kept by the object is that of a legal run, and no
      shutdown is attempted early. */
  method RunMonitor(m: Monitor, reading: uint64, watchdog: uint64, trace: seq<Tick>) returns (status: Status)
    requires m.Valid() && m.Fresh()
    modifies m, m.pinger, m.pinger.sendBuffer
    ensures reading == UINT64_MAX ==> status == Exited(EXIT_FAILURE) && m.history == []
    ensures Accepted(m.setup.config) && reading < UINT64_MAX && Monotonic(reading, trace) ==>
      var p := PlanOf(m.setup.config, reading, watchdog);
      && Legal(p, m.history)
      && (status != Exited(EXIT_FAILURE) ==> Sensible(p) && Replays(p, m.Model()))
      && forall i: nat :: i < |m.history| && m.history[i].Attempted? ==>
           && m.setup.config.mode != LogOnly
           && TrailingFailures(m.history[..i]) >= m.setup.config.failThreshold
           && m.history[i].at >= Lawful.EarliestThreshold(p) + p.delay
  {
    var ok := m.LoopInit(reading, watchdog);
    if !ok {
      AcceptedInitialises(m.setup.config);
      return Exited(EXIT_FAILURE);
    }
    ghost var buffer: SendBuffer := m.pinger.sendBuffer[..];
    status := m.ReactorRun(trace);
    ghost var p := PlanOf(m.setup.config, reading, watchdog);
    if Accepted(m.setup.config) && Monotonic(reading, trace) {
      RunReplays(m.setup, p, buffer, trace);
      forall i: nat | i < |m.history| && m.history[i].Attempted?
        ensures m.setup.config.mode != LogOnly
        ensures TrailingFailures(m.history[..i]) >= m.setup.config.failThreshold
        ensures m.history[i].at >= Lawful.EarliestThreshold(p) + p.delay
      {
        Lawful.AttemptNotEarly(p, m.history, i);
      }
    }
  }

  lemma AcceptedInitialises(c: Config)
    ensures Accepted(c) ==> IntervalMs(c) != 0 && IntervalMs(c) != UINT64_MAX
  {}

  /** A run that has exited stays as it is. */
  lemma {:induction false} ExitIsFinal(c: Setup, s: State, trace: seq<Tick>, i: nat)
    requires i <= |trace| && RunFrom(c, s, trace[..i]).1 != Running
    ensures RunFrom(c, s, trace) == RunFrom(c, s, trace[..i])
    decreases |trace|
  {
    if i == |trace| {
      assert trace[..i] == trace;
    } else {
      var front := trace[..|trace| - 1];
      assert front[..i] == trace[..i];
      ExitIsFinal(c, s, front, i);
    }
  }
}
