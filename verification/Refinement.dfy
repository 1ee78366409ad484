/** Every run of the reactor has a legal history, and the reactor's state is at all times the
    replay of that history. */
module Refinement {
  import opened Machine
  import opened Settings
  import opened Icmp
  import opened Shutdown
  import opened History
  import opened ReactorSpec

  /** The reactor state that a ledger determines. */
  predicate Mirrors(p: Plan, l: Ledger, s: State)
    requires Sensible(p)
  {
    && s.ping == (if l.waiting then Ping(true, s.ping.deadline, l.lastSend, SequenceOf(l.sends)) else Ping(false, 0, 0, 0))
    && (l.waiting ==> s.ping.deadline == l.lastSend + p.timeout)
    && s.shutdown == (match l.countdown case Some(d) => Pending(true, d) case None => Pending(false, 0))
    && s.nextPing == l.slot
    && s.interval == p.interval
    && s.lastWatchdog == l.lastWatchdog
    && s.watchdog == p.watchdog
    && s.fails == l.fails
    && s.metrics == Metrics(l.successes + l.failures, l.successes, l.failures, l.latencySum, l.minLatency, l.maxLatency)
    && s.sequence == SequenceOf(l.sends)
    && l.duty == Nothing
    && l.lastSend <= l.clock && l.lastWatchdog <= l.clock
    && p.start <= l.clock <= s.now < UINT64_MAX
    && l.minLatency <= l.maxLatency
  }

  predicate Replays(p: Plan, s: State)
    requires Sensible(p)
  {
    Legal(p, s.log) && Mirrors(p, LedgerOf(p, s.log), s)
  }

  /** Replays, and no final shutdown attempt yet. */
  predicate Active(p: Plan, s: State)
    requires Sensible(p)
  {
    Replays(p, s) && !LedgerOf(p, s.log).final
  }

  predicate SameMoment(s: State, s': State) {
    s'.now == s.now && s'.stopFlag == s.stopFlag
  }

  /** `p` is the plan of a run of an accepted configuration. */
  predicate Fits(c: Setup, p: Plan) {
    && Accepted(c.config)
    && p == PlanOf(c.config, p.start, p.watchdog)
    && p.start < UINT64_MAX
  }

  lemma FitsSensible(c: Setup, p: Plan)
    requires Fits(c, p)
    ensures Sensible(p)
    ensures p.delay == 0 <==> c.config.delayMinutes <= 0
    ensures p.delay < UINT64_MAX && p.interval < UINT64_MAX
  {}

  // ---- One lemma per part of the loop body ----

  lemma BootReplays(c: Setup, p: Plan, buffer: SendBuffer)
    requires Fits(c, p)
    ensures Sensible(p)
    ensures Active(p, Boot(c, p.start, p.watchdog, buffer))
  {}

  lemma CountdownReplays(c: Setup, p: Plan, s: State, command: CommandResult)
    requires Fits(c, p) && Sensible(p) && Active(p, s)
    ensures var (s', stop) := HandleCountdown(c, s, s.now, command);
      Replays(p, s') && SameMoment(s, s') && (stop <==> LedgerOf(p, s'.log).final)
  {
    var now := s.now;
    if s.shutdown.pending && now >= s.shutdown.deadline {
      var h := s.log + [Elapsed(now)];
      Extend(p, s.log, Elapsed(now));
      Extend(p, h, Attempted(now, TriggerResult(c.config.mode, command)));
    }
  }

  lemma WatchdogReplays(p: Plan, s: State, ok: bool)
    requires Sensible(p) && Active(p, s)
    ensures var s' := HandleWatchdog(s, s.now, ok);
      Active(p, s') && SameMoment(s, s')
  {
    if WatchdogDue(s, s.now) && ok {
      Extend(p, s.log, WatchdogSent(s.now));
    }
  }

  lemma PingTimeoutReplays(c: Setup, p: Plan, s: State, command: CommandResult)
    requires Fits(c, p) && Sensible(p) && Active(p, s)
    ensures var (s', r) := HandlePingTimeout(c, s, s.now, command);
      Replays(p, s') && SameMoment(s, s') && r != Error && (r == Stop <==> LedgerOf(p, s'.log).final)
  {
    if s.ping.waiting && s.now >= s.ping.deadline {
      var l := LedgerOf(p, s.log);
      Extend(p, s.log, Failed(s.now));
      ThresholdReplays(c, p, Post(p, l, Failed(s.now)), ClearPing(PingFailure(s, s.now)), command);
    }
  }

  /** The threshold decision, taken right behind a recorded failure: `l` is the ledger with
      that failure, `s` the state with it. */
  lemma ThresholdReplays(c: Setup, p: Plan, l: Ledger, s: State, command: CommandResult)
    requires Fits(c, p) && Sensible(p)
    requires Legal(p, s.log) && l == LedgerOf(p, s.log) && !l.final
    requires l.duty == DutyAfterFailure(p, l.fails, l.countdown) && l.clock == s.now
    requires Mirrors(p, l.(duty := Nothing), s)
    ensures var (s', stop) := HandleThreshold(c, s, s.now, command);
      Replays(p, s') && SameMoment(s, s') && (stop <==> LedgerOf(p, s'.log).final)
  {
    ThresholdMirrors(c, p, l, s, command);
    var s' := HandleThreshold(c, s, s.now, command).0;
    if l.duty == Nothing {
      assert l.(duty := Nothing) == l;
    } else {
      Extend(p, s.log, Last(s'.log));
    }
  }

  lemma ThresholdMirrors(c: Setup, p: Plan, l: Ledger, s: State, command: CommandResult)
    requires Fits(c, p) && Sensible(p) && !l.final
    requires l.duty == DutyAfterFailure(p, l.fails, l.countdown) && l.clock == s.now
    requires Mirrors(p, l.(duty := Nothing), s)
    ensures var (s', stop) := HandleThreshold(c, s, s.now, command);
      if l.duty == Nothing then s' == s && !stop
      else
        && s'.log != []
        && s'.log == s.log + [Last(s'.log)]
        && Admissible(p, l, Last(s'.log))
        && Mirrors(p, Post(p, l, Last(s'.log)), s')
        && SameMoment(s, s')
        && stop == Post(p, l, Last(s'.log)).final
  {
    FitsSensible(c, p);
  }

  lemma SchedulerReplays(c: Setup, p: Plan, s: State, sendOk: bool)
    requires Fits(c, p) && Sensible(p) && Active(p, s)
    ensures var (s', r) := HandleScheduler(c, s, s.now, sendOk);
      && Legal(p, s'.log)
      && SameMoment(s, s')
      && r != Stop
      && !LedgerOf(p, s'.log).final
      && (r == Continue ==> Active(p, s'))
  {
    var l := LedgerOf(p, s.log);
    SchedulerMirrors(c, p, l, s, sendOk);
    if HandleScheduler(c, s, s.now, sendOk).0.log != s.log {
      Extend(p, s.log, Sent(s.now, SequenceOf(l.sends + 1)));
    }
  }

  lemma SchedulerMirrors(c: Setup, p: Plan, l: Ledger, s: State, sendOk: bool)
    requires Fits(c, p) && Sensible(p) && Mirrors(p, l, s) && !l.final
    ensures var (s', r) := HandleScheduler(c, s, s.now, sendOk);
      var e := Sent(s.now, SequenceOf(l.sends + 1));
      && SameMoment(s, s')
      && r != Stop
      && (s'.log == s.log || (s'.log == s.log + [e] && Admissible(p, l, e)))
      && (r == Continue ==> Mirrors(p, if s'.log == s.log then l else Post(p, l, e), s'))
  {
    FitsSensible(c, p);
    NextOfSequence(l.sends);
  }

  lemma {:induction false} DrainReplays(c: Setup, p: Plan, s: State, inbox: seq<Arrival>, budget: nat)
    requires Fits(c, p) && Sensible(p) && Active(p, s)
    ensures var (s', r) := Drain(c, s, s.now, inbox, budget);
      && Legal(p, s'.log)
      && SameMoment(s, s')
      && r != Stop
      && !LedgerOf(p, s'.log).final
      && (r == Continue ==> Active(p, s'))
  {
    if budget > 0 && inbox != [] && inbox[0].Packet? {
      if IsMatch(c, s, inbox[0]) {
        SuccessReplays(p, s);
      } else {
        DrainReplays(c, p, s, inbox[1..], budget - 1);
      }
    }
  }

  lemma SuccessReplays(p: Plan, s: State)
    requires Sensible(p) && Active(p, s)
    requires s.ping.waiting
    ensures var s' := ClearPing(PingSuccess(s, s.now, Latency(s.ping.sendTime, s.now)));
      Active(p, s') && SameMoment(s, s')
  {
    var l := LedgerOf(p, s.log);
    var cancelled, succeeded := Cancelled(s.now), Succeeded(s.now, s.now - l.lastSend);
    SuccessMirrors(p, l, s);
    if s.shutdown.pending {
      Extend(p, s.log, cancelled);
      Extend(p, s.log + [cancelled], succeeded);
    } else {
      Extend(p, s.log, succeeded);
    }
  }

  lemma SuccessMirrors(p: Plan, l: Ledger, s: State)
    requires Sensible(p) && Mirrors(p, l, s) && !l.final && l.waiting
    ensures var e := Succeeded(s.now, s.now - l.lastSend);
      var s' := ClearPing(PingSuccess(s, s.now, Latency(s.ping.sendTime, s.now)));
      if l.countdown.Some? then
        var l1 := Post(p, l, Cancelled(s.now));
        && Admissible(p, l, Cancelled(s.now))
        && Admissible(p, l1, e)
        && Mirrors(p, Post(p, l1, e), s')
        && s'.log == s.log + [Cancelled(s.now)] + [e]
      else
        && Admissible(p, l, e)
        && Mirrors(p, Post(p, l, e), s')
        && s'.log == s.log + [e]
  {}
}
