/** Poll timeouts, watchdog cadence and the exact moment of shutdown. */
module Timing {
  import opened Machine
  import opened Settings
  import opened Icmp
  import opened Shutdown
  import opened History
  import opened ReactorSpec
  import Lawful
  import opened Refinement
  import opened Runs

  // ---- Poll timeouts ----

  /** The moments the reactor has to be awake for. A watchdog deadline beyond the range of the
      clock is never reached. */
  function Deadlines(s: State): set<int> {
    {if s.ping.waiting then s.ping.deadline as int else s.nextPing as int}
    + (if s.shutdown.pending then {s.shutdown.deadline as int} else {})
    + (if s.watchdog > 0 && s.lastWatchdog + s.watchdog < UINT64_MAX then {s.lastWatchdog + s.watchdog} else {})
  }

  function Later(a: int, b: int): int { if a < b then b else a }

  /** The poll timeout ends at the nearest deadline, is 0 when one has passed, and is cut off at
      INT_MAX; together the clauses determine it. */
  lemma WaitTimeoutIsNearest(s: State, now: uint64)
    ensures var t := WaitTimeout(s, now);
      && 0 <= t <= 0x7FFF_FFFF
      && (forall d: int :: d in Deadlines(s) ==> now + t <= Later(d, now))
      && (t == 0x7FFF_FFFF || exists d: int :: d in Deadlines(s) && now + t == Later(d, now))
  {}

  /** After a send at `now`, the next slot lies within one interval of it. */
  lemma AdvanceWithinInterval(nextPing: uint64, interval: uint64, now: uint64)
    requires nextPing <= now && now + interval < UINT64_MAX
    ensures now <= AdvanceSchedule(nextPing, interval, now) <= now + interval
    ensures AdvanceSchedule(nextPing, interval, now) == NextSlot(nextPing, now, interval)
  {}

  /** The documented spacing of "interval" between two pings is not kept by the catch-up rule:
      the slot behind a late send may come sooner. It is a full interval away exactly when the
      send was on time, or so late that the schedule was rebased. */
  lemma FullIntervalIff(nextPing: uint64, interval: uint64, now: uint64)
    requires nextPing <= now && 0 < interval && now + interval < UINT64_MAX
    ensures AdvanceSchedule(nextPing, interval, now) - now >= interval <==>
      now == nextPing || now > nextPing + interval
  {}

  /** A ping sent 500 ms late, every second: the next one is due after another 500 ms. */
  lemma ShortIntervalExample()
    ensures AdvanceSchedule(10000, 1000, 10500) == 10500 + 500
  {}

  predicate PingSettled(s: State, now: uint64) {
    now < if s.ping.waiting then s.ping.deadline else s.nextPing
  }

  predicate CountdownSettled(s: State, now: uint64) {
    s.shutdown.pending ==> now < s.shutdown.deadline
  }

  predicate WatchdogSettled(s: State, now: uint64) {
    s.watchdog > 0 ==> now < s.lastWatchdog + s.watchdog
  }

  lemma TimeoutSettles(c: Setup, s: State, command: CommandResult)
    requires Accepted(c.config) && CountdownSettled(s, s.now)
    ensures var s' := HandlePingTimeout(c, s, s.now, command).0;
      && (s'.ping.waiting ==> s.now < s'.ping.deadline)
      && CountdownSettled(s', s.now)
      && s'.lastWatchdog == s.lastWatchdog && s'.watchdog == s.watchdog && s'.now == s.now
  {
    AcceptedDurations(c.config);
  }

  lemma SchedulerSettles(c: Setup, s: State, sendOk: bool)
    requires Accepted(c.config) && CountdownSettled(s, s.now)
    requires s.ping.waiting ==> s.now < s.ping.deadline
    ensures var (s', r) := HandleScheduler(c, s, s.now, sendOk);
      && (r == Continue ==> PingSettled(s', s.now))
      && CountdownSettled(s', s.now)
      && s'.lastWatchdog == s.lastWatchdog && s'.watchdog == s.watchdog
  {}

  lemma DueWorkLeavesNothingDue(c: Setup, s: State, t: Tick)
    requires Accepted(c.config) && s.lastWatchdog <= s.now
    requires RunDueWork(c, s, t).1 == Continue
    ensures var s' := RunDueWork(c, s, t).0;
      && PingSettled(s', s.now) && CountdownSettled(s', s.now)
      && (WatchdogSettled(s', s.now) <==> !(WatchdogDue(s, s.now) && !t.watchdogOk))
  {
    var s1 := HandleCountdown(c, s, s.now, t.elapseCommand).0;
    var s2 := HandleWatchdog(s1, s.now, t.watchdogOk);
    TimeoutSettles(c, s2, t.thresholdCommand);
    SchedulerSettles(c, HandlePingTimeout(c, s2, s.now, t.thresholdCommand).0, t.sendOk);
  }

  lemma SettledTimeout(s: State, now: uint64)
    requires PingSettled(s, now) && CountdownSettled(s, now)
    ensures WaitTimeout(s, now) == 0 <==> !WatchdogSettled(s, now)
    ensures forall d: int :: d in Deadlines(s) && d > now ==> now + WaitTimeout(s, now) <= d
  {}

  /** Never oversleep, never spin: when the due work is done, every deadline except that of a
      watchdog whose notification failed lies in the future. So the poll timeout is positive,
      and does not pass any deadline; it is 0 exactly while a due watchdog ping fails to go out. */
  lemma DueWorkSettles(c: Setup, s: State, t: Tick)
    requires Accepted(c.config) && s.lastWatchdog <= s.now
    requires RunDueWork(c, s, t).1 == Continue
    ensures var s' := RunDueWork(c, s, t).0;
      && (WaitTimeout(s', s.now) == 0 <==> WatchdogDue(s, s.now) && !t.watchdogOk)
      && (forall d: int :: d in Deadlines(s') && d > s.now ==> s.now + WaitTimeout(s', s.now) <= d)
      && (t.watchdogOk ==> forall d: int :: d in Deadlines(s') ==> s.now < d)
  {
    DueWorkLeavesNothingDue(c, s, t);
    SettledTimeout(RunDueWork(c, s, t).0, s.now);
  }

  /** ... in every iteration of every run. */
  lemma NeverSpinsNorOversleeps(c: Setup, p: Plan, buffer: SendBuffer, trace: seq<Tick>, t: Tick)
    requires IsRun(c, p, buffer, trace) && Run(c, p, buffer, trace).1 == Running
    requires LastReading(p.start, trace) <= t.clock
    ensures var s := Run(c, p, buffer, trace).0;
      var s0 := s.(now := Refresh(s.now, t.clock));
      var (s', r) := RunDueWork(c, s0, t);
      r == Continue ==>
        && (WaitTimeout(s', s0.now) == 0 <==> WatchdogDue(s0, s0.now) && !t.watchdogOk)
        && (forall d: int :: d in Deadlines(s') && d > s0.now ==> s0.now + WaitTimeout(s', s0.now) <= d)
        && (t.watchdogOk ==> forall d: int :: d in Deadlines(s') ==> s0.now < d)
  {
    RunReplays(c, p, buffer, trace);
    var s := Run(c, p, buffer, trace).0;
    var s0 := s.(now := Refresh(s.now, t.clock));
    if RunDueWork(c, s0, t).1 == Continue {
      DueWorkSettles(c, s0, t);
    }
  }

  // ---- Watchdog cadence ----

  /** Times of the watchdog notifications, the start of the run in front. */
  function WatchdogTimes(p: Plan, h: Log): (r: seq<uint64>)
    ensures r != []
  {
    if h == [] then [p.start]
    else if Last(h).WatchdogSent? then WatchdogTimes(p, Front(h)) + [Last(h).at]
    else WatchdogTimes(p, Front(h))
  }

  predicate Spaced(times: seq<uint64>, low: int, high: int) {
    forall i: nat, j: nat :: i + 1 == j < |times| ==> low <= times[j] - times[i] <= high
  }

  /** The iteration's environment: processing took at most `busy` ms since the last poll, the
      poll woke at most `late` ms after the requested timeout, and notifications go out. */
  predicate Timely(c: Setup, s: State, t: Tick, busy: nat, late: nat) {
    var s0 := s.(now := Refresh(s.now, t.clock));
    var s1 := RunDueWork(c, s0, t).0;
    && s0.now <= s.now + busy
    && t.watchdogOk
    && (RunDueWork(c, s0, t).1 == Continue ==> Refresh(s1.now, t.wake) <= s1.now + WaitTimeout(s1, s1.now) + late)
  }

  predicate TimelyRun(c: Setup, p: Plan, buffer: SendBuffer, trace: seq<Tick>, busy: nat, late: nat) {
    trace == []
    || (var front := trace[..|trace| - 1];
        && TimelyRun(c, p, buffer, front, busy, late)
        && (Run(c, p, buffer, front).1 == Running ==> Timely(c, Run(c, p, buffer, front).0, trace[|trace| - 1], busy, late)))
  }

  /** `s'` differs from `s` in nothing that concerns the watchdog. */
  predicate SameWatchdog(p: Plan, s: State, s': State) {
    && WatchdogTimes(p, s'.log) == WatchdogTimes(p, s.log)
    && s'.lastWatchdog == s.lastWatchdog
    && s'.watchdog == s.watchdog
    && s'.now == s.now
  }

  lemma ExtendTimes(p: Plan, h: Log, e: Event)
    ensures WatchdogTimes(p, h + [e]) ==
      if e.WatchdogSent? then WatchdogTimes(p, h) + [e.at] else WatchdogTimes(p, h)
  {}

  lemma CountdownSameWatchdog(c: Setup, p: Plan, s: State, command: CommandResult)
    ensures SameWatchdog(p, s, HandleCountdown(c, s, s.now, command).0)
  {}

  lemma ThresholdSameWatchdog(c: Setup, p: Plan, s: State, command: CommandResult)
    ensures SameWatchdog(p, s, HandleThreshold(c, s, s.now, command).0)
  {}

  lemma PingTimeoutSameWatchdog(c: Setup, p: Plan, s: State, command: CommandResult)
    ensures SameWatchdog(p, s, HandlePingTimeout(c, s, s.now, command).0)
  {
    if s.ping.waiting && s.now >= s.ping.deadline {
      ExtendTimes(p, s.log, Failed(s.now));
      ThresholdSameWatchdog(c, p, ClearPing(PingFailure(s, s.now)), command);
    }
  }

  lemma SchedulerSameWatchdog(c: Setup, p: Plan, s: State, sendOk: bool)
    ensures SameWatchdog(p, s, HandleScheduler(c, s, s.now, sendOk).0)
  {}

  lemma {:induction false} DrainSameWatchdog(c: Setup, p: Plan, s: State, inbox: seq<Arrival>, budget: nat)
    ensures SameWatchdog(p, s, Drain(c, s, s.now, inbox, budget).0)
    decreases budget
  {
    if budget > 0 && inbox != [] && inbox[0].Packet? {
      if IsMatch(c, s, inbox[0]) {
        var e := Succeeded(s.now, Latency(s.ping.sendTime, s.now));
        ExtendTimes(p, s.log, e);
        ExtendTimes(p, s.log, Cancelled(s.now));
        ExtendTimes(p, s.log + [Cancelled(s.now)], e);
      } else {
        DrainSameWatchdog(c, p, s, inbox[1..], budget - 1);
      }
    }
  }

  /** `s'` has sent one more notification than `s`, and it was due. */
  predicate Notified(p: Plan, s: State, s': State) {
    && WatchdogDue(s, s.now)
    && WatchdogTimes(p, s'.log) == WatchdogTimes(p, s.log) + [s.now]
    && s'.lastWatchdog == s.now
    && s'.watchdog == s.watchdog
    && s'.now == s.now
  }

  lemma WatchdogNotifies(p: Plan, s: State, ok: bool)
    ensures var s' := HandleWatchdog(s, s.now, ok);
      if WatchdogDue(s, s.now) && ok then Notified(p, s, s') else s' == s
  {}

  lemma LateWorkSameWatchdog(c: Setup, p: Plan, s: State, t: Tick)
    ensures var s1 := HandlePingTimeout(c, s, s.now, t.thresholdCommand).0;
      SameWatchdog(p, s, s1) && SameWatchdog(p, s, HandleScheduler(c, s1, s.now, t.sendOk).0)
  {
    PingTimeoutSameWatchdog(c, p, s, t.thresholdCommand);
    SchedulerSameWatchdog(c, p, HandlePingTimeout(c, s, s.now, t.thresholdCommand).0, t.sendOk);
  }

  /** The due work sends at most one notification: exactly if it is due and goes out, and no
      elapsed countdown has ended the run first. One that fails leaves the stamp alone. */
  lemma DueWorkWatchdog(c: Setup, p: Plan, s: State, t: Tick)
    ensures var s' := RunDueWork(c, s, t).0;
      if WatchdogDue(s, s.now) && t.watchdogOk && !HandleCountdown(c, s, s.now, t.elapseCommand).1
      then Notified(p, s, s') else SameWatchdog(p, s, s')
  {
    CountdownSameWatchdog(c, p, s, t.elapseCommand);
    var (s1, stop) := HandleCountdown(c, s, s.now, t.elapseCommand);
    if !stop {
      WatchdogNotifies(p, s1, t.watchdogOk);
      LateWorkSameWatchdog(c, p, HandleWatchdog(s1, s.now, t.watchdogOk), t);
    }
  }

  /** The cadence invariant at the top of the loop. */
  predicate InCadence(p: Plan, s: State, busy: nat, late: nat) {
    var w := WatchdogTimes(p, s.log);
    && Spaced(w, p.watchdog, p.watchdog + busy + late)
    && w[|w| - 1] == s.lastWatchdog <= s.now
    && s.watchdog == p.watchdog
  }

  lemma DueWorkInCadence(c: Setup, p: Plan, s: State, t: Tick, busy: nat, late: nat)
    requires InCadence(p, s, busy, late) && t.watchdogOk
    requires p.watchdog > 0 ==> s.now <= s.lastWatchdog + p.watchdog + busy + late
    ensures InCadence(p, RunDueWork(c, s, t).0, busy, late)
  {
    DueWorkWatchdog(c, p, s, t);
  }

  lemma PollInTime(c: Setup, s: State, t: Tick, late: nat)
    requires Accepted(c.config) && s.lastWatchdog <= s.now
    requires t.watchdogOk && RunDueWork(c, s, t).1 == Continue
    requires Refresh(s.now, t.wake) < UINT64_MAX
    requires Refresh(s.now, t.wake) <= s.now + WaitTimeout(RunDueWork(c, s, t).0, s.now) + late
    ensures var s' := RunDueWork(c, s, t).0;
      s'.watchdog > 0 ==> Refresh(s.now, t.wake) <= s'.lastWatchdog + s'.watchdog + late
  {
    var s' := RunDueWork(c, s, t).0;
    DueWorkSettles(c, s, t);
    if s'.watchdog > 0 && s'.lastWatchdog + s'.watchdog < UINT64_MAX {
      assert s'.lastWatchdog + s'.watchdog in Deadlines(s');
    }
  }

  lemma PollInCadence(c: Setup, p: Plan, s: State, t: Tick, busy: nat, late: nat)
    requires InCadence(p, s, busy, late) && s.now <= Refresh(s.now, t.wake)
    requires p.watchdog > 0 ==> Refresh(s.now, t.wake) <= s.lastWatchdog + p.watchdog + late
    ensures var (s', r) := HandlePoll(c, s, t);
      && InCadence(p, s', busy, late)
      && (r != Error && p.watchdog > 0 ==> s'.now <= s'.lastWatchdog + p.watchdog + late)
  {
    var s' := s.(now := Refresh(s.now, t.wake), stopFlag := s.stopFlag || t.signal == Terminate);
    DrainSameWatchdog(c, p, s', t.inbox, MAX_REPLY_DRAIN_PER_TICK);
  }

  lemma StepInCadence(c: Setup, p: Plan, s: State, t: Tick, busy: nat, late: nat)
    requires Accepted(c.config) && s.now < UINT64_MAX
    requires s.now <= t.clock && Refresh(s.now, t.clock) <= t.wake
    requires Timely(c, s, t, busy, late) && InCadence(p, s, busy, late)
    requires p.watchdog > 0 ==> s.now <= s.lastWatchdog + p.watchdog + late
    ensures var (s', status) := Step(c, s, t);
      && InCadence(p, s', busy, late)
      && (status == Running && p.watchdog > 0 ==> s'.now <= s'.lastWatchdog + p.watchdog + late)
  {
    var s0 := s.(now := Refresh(s.now, t.clock));
    assert InCadence(p, s0, busy, late);
    DueWorkInCadence(c, p, s0, t, busy, late);
    DueWorkWatchdog(c, p, s0, t);
    var (s1, r1) := RunDueWork(c, s0, t);
    if r1 == Continue {
      PollInTime(c, s0, t, late);
      PollInCadence(c, p, s1, t, busy, late);
    }
  }

  /** Watchdog cadence: notifications are never closer together than the derived interval, and
      when processing takes at most `busy` and wakeups are at most `late`, never further apart
      than interval + busy + late - exactly the interval in a prompt environment. */
  lemma {:induction false} WatchdogCadence(c: Setup, p: Plan, buffer: SendBuffer, trace: seq<Tick>, busy: nat, late: nat)
    requires IsRun(c, p, buffer, trace) && TimelyRun(c, p, buffer, trace, busy, late)
    ensures var (s, status) := Run(c, p, buffer, trace);
      && Spaced(WatchdogTimes(p, s.log), p.watchdog, p.watchdog + busy + late)
      && InCadence(p, s, busy, late)
      && (status == Running && p.watchdog > 0 ==> s.now <= s.lastWatchdog + p.watchdog + late)
  {
    if trace != [] {
      var front := trace[..|trace| - 1];
      WatchdogCadence(c, p, buffer, front, busy, late);
      RunReplays(c, p, buffer, front);
      var (s, status) := Run(c, p, buffer, front);
      if status == Running {
        StepInCadence(c, p, s, trace[|trace| - 1], busy, late);
      }
    }
  }
}
