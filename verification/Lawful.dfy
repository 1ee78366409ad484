/** What holds of every legal history: counting, timing and ordering laws. All are proved by
    induction over the history, one event at a time. */
module Lawful {
  import opened Machine
  import opened Settings
  import opened Icmp
  import opened Shutdown
  import opened History

  lemma {:induction false} Prefix(p: Plan, h: Log, k: nat)
    requires Legal(p, h) && k <= |h|
    ensures Legal(p, h[..k])
    ensures k < |h| ==> Admissible(p, LedgerOf(p, h[..k]), h[k])
    decreases |h|
  {
    if k == |h| {
      assert h[..k] == h;
    } else if k + 1 == |h| {
      assert h[..k] == Front(h);
    } else {
      assert h[..k] == Front(h)[..k] && h[k] == Front(h)[k];
      Prefix(p, Front(h), k);
    }
  }

  // ---- Time ----

  lemma {:induction false} ClockIsLatest(p: Plan, h: Log)
    requires Legal(p, h)
    ensures LedgerOf(p, h).clock == Clock(p, h) >= p.start
    ensures forall i: nat :: i < |h| ==> p.start <= h[i].at <= Clock(p, h)
  {
    if h != [] {
      ClockIsLatest(p, Front(h));
      assert forall i: nat :: i < |h| - 1 ==> h[i] == Front(h)[i];
    }
  }

  /** Events are recorded in the order of their times. */
  lemma TimesOrdered(p: Plan, h: Log, i: nat, j: nat)
    requires Legal(p, h) && i <= j < |h|
    ensures p.start <= h[i].at <= h[j].at
  {
    var g := h[..j + 1];
    Prefix(p, h, j + 1);
    ClockIsLatest(p, g);
    assert g[i] == h[i] && Last(g) == h[j];
  }

  // ---- Counting ----

  /** The ledger's totals are the counts of events, and pings are conserved: every ping sent
      has had exactly one outcome, except the one in flight. */
  lemma {:induction false} TotalsAreCounts(p: Plan, h: Log)
    requires Legal(p, h)
    ensures var l := LedgerOf(p, h);
      && l.sends == Count(h, ASend) == |SendTimes(h)|
      && l.successes == Count(h, ASuccess)
      && l.failures == Count(h, AFailure)
      && l.latencySum == LatencySum(h)
      && l.sends == l.successes + l.failures + if l.waiting then 1 else 0
  {
    if h != [] { TotalsAreCounts(p, Front(h)); }
  }

  /** Shortest and longest latency bound every recorded latency, and both are attained. */
  lemma {:induction false} LatencyExtremes(p: Plan, h: Log)
    requires Legal(p, h)
    ensures var l := LedgerOf(p, h);
      && (l.successes == 0 ==> l.minLatency == l.maxLatency == -1)
      && (l.successes > 0 ==> 0 <= l.minLatency <= l.maxLatency)
      && (forall i: nat :: i < |h| && h[i].Succeeded? ==> l.successes > 0 && l.minLatency <= h[i].latency <= l.maxLatency)
      && (l.successes > 0 ==>
            && (exists i: nat :: i < |h| && h[i].Succeeded? && h[i].latency == l.minLatency)
            && (exists i: nat :: i < |h| && h[i].Succeeded? && h[i].latency == l.maxLatency))
  {
    if h != [] {
      var f := Front(h);
      LatencyExtremes(p, f);
      assert forall i: nat :: i < |f| ==> h[i] == f[i];
      if Last(h).Succeeded? {
        assert h[|f|] == Last(h);
      }
    }
  }

  /** ... and hence the total, and so the mean, lies between them. */
  lemma {:induction false} LatencyTotal(p: Plan, h: Log)
    requires Legal(p, h)
    ensures var l := LedgerOf(p, h);
      if l.successes == 0 then l.latencySum == 0
      else l.minLatency * l.successes <= l.latencySum <= l.maxLatency * l.successes
  {
    if h != [] {
      var l, l' := LedgerOf(p, Front(h)), LedgerOf(p, h);
      LatencyTotal(p, Front(h));
      LatencyExtremes(p, Front(h));
      if Last(h).Succeeded? {
        SumStep(l.successes, l.minLatency, l'.minLatency, l.maxLatency, l'.maxLatency, l.latencySum, Last(h).latency);
      }
    }
  }

  lemma SumStep(n: nat, min: int, min': int, max: int, max': int, sum: int, x: int)
    requires if n == 0 then sum == 0 else min' <= min && max <= max' && min * n <= sum <= max * n
    requires min' <= x <= max'
    ensures min' * (n + 1) <= sum + x <= max' * (n + 1)
  {
    MulSucc(n, min');
    MulSucc(n, max');
    if n > 0 {
      MulMonotone(min', min, n);
      MulMonotone(max, max', n);
    }
  }

  // ---- The failure counter ----

  lemma ModuloStep(k: nat, n: nat)
    requires n > 0
    ensures if k % n + 1 < n then (k + 1) % n == k % n + 1 && (k + 1) / n == k / n
            else (k + 1) % n == 0 && (k + 1) / n == k / n + 1
  {
    var q, r := k / n, k % n;
    MulSucc(q, n);
    if r + 1 < n {
      assert k + 1 == q * n + (r + 1);
      DivMod(k + 1, n, q, r + 1);
    } else {
      assert k + 1 == (q + 1) * n + 0;
      DivMod(k + 1, n, q + 1, 0);
    }
  }

  /** Outside log-only mode the counter is the length of the current run of failures, as long
      as no countdown deadline was out of range. */
  lemma {:induction false} CounterIsTrailingRun(p: Plan, h: Log)
    requires Legal(p, h)
    ensures LedgerOf(p, h).fails <= TrailingFailures(h)
    ensures p.mode != LogOnly && Count(h, AFault) == 0 ==> LedgerOf(p, h).fails == TrailingFailures(h)
  {
    if h != [] { CounterIsTrailingRun(p, Front(h)); }
  }

  /** In log-only mode the counter is that length modulo the threshold, and the number of
      warnings is the sum over all maximal runs of failures of length / threshold. */
  lemma {:induction false} LogOnlyWarnings(p: Plan, h: Log)
    requires Sensible(p) && p.mode == LogOnly && Legal(p, h)
    ensures var l, r := LedgerOf(p, h), FailureRuns(h);
      && l.duty in {Nothing, Warn} && l.countdown == None && !l.final
      && r[|r| - 1] == TrailingFailures(h)
      && (l.duty == Nothing ==>
            && l.fails == TrailingFailures(h) % p.threshold
            && Count(h, AWarning) == SumOfQuotients(r, p.threshold))
      && (l.duty == Warn ==>
            && 0 == TrailingFailures(h) % p.threshold
            && Count(h, AWarning) + 1 == SumOfQuotients(r, p.threshold))
  {
    if h == [] {
      assert FailureRuns(h) == [0];
      assert SumOfQuotients([0], p.threshold) == SumOfQuotients([], p.threshold) + 0 / p.threshold;
      DivMod(0, p.threshold, 0, 0);
    } else {
      var f := Front(h);
      LogOnlyWarnings(p, f);
      var r, r' := FailureRuns(f), FailureRuns(h);
      if Last(h).Failed? {
        ModuloStep(TrailingFailures(f), p.threshold);
        assert r'[..|r'| - 1] == r[..|r| - 1];
      } else if Last(h).Succeeded? {
        DivMod(0, p.threshold, 0, 0);
        assert r'[..|r'| - 1] == r;
      }
    }
  }

  // ---- The countdown ----

  /** Every countdown started has been cancelled, has elapsed, or is the one in progress. */
  lemma {:induction false} CountdownsBalance(p: Plan, h: Log)
    requires Legal(p, h)
    ensures Count(h, AStart) == Count(h, ACancel) + Count(h, AnElapse) + if LedgerOf(p, h).countdown.Some? then 1 else 0
  {
    if h != [] { CountdownsBalance(p, Front(h)); }
  }

  /** Nothing that touches a countdown, and no success, happens in h[i+1..j]. */
  predicate QuietBetween(h: Log, i: nat, j: nat)
    requires j <= |h|
  {
    forall k: nat :: i < k < j ==>
      h[k].Sent? || h[k].Failed? || h[k].WatchdogSent?
  }

  /** The countdown in progress has a start: its deadline was fixed there, delay after the
      failure that completed a run of at least threshold failures, and since then nothing has
      moved it and no success was recorded. */
  lemma {:induction false} CountdownHasStart(p: Plan, h: Log) returns (i: nat)
    requires Sensible(p) && Legal(p, h) && LedgerOf(p, h).countdown.Some?
    ensures i < |h| && h[i].Armed?
    ensures LedgerOf(p, h).countdown.value == h[i].deadline == h[i].at + p.delay
    ensures LedgerOf(p, h).duty == Nothing
    ensures QuietBetween(h, i, |h|)
    ensures TrailingFailures(h[..i]) >= p.threshold
    ensures LedgerOf(p, h).fails >= p.threshold
  {
    var f := Front(h);
    DutiesEarned(p, f);
    if Last(h).Armed? {
      i := |h| - 1;
      assert h[..i] == f;
    } else {
      i := CountdownHasStart(p, f);
      assert h[..i] == f[..i];
      assert forall k: nat :: k < |f| ==> h[k] == f[k];
    }
  }

  /** A shutdown, or a countdown towards one, is owed only behind threshold failures. */
  lemma {:induction false} DutiesEarned(p: Plan, h: Log)
    requires Sensible(p) && Legal(p, h)
    ensures var l := LedgerOf(p, h);
      (l.duty == StartCountdown || l.duty == Attempt || l.countdown.Some?) ==>
        p.mode != LogOnly && p.threshold <= l.fails <= TrailingFailures(h)
    ensures LedgerOf(p, h).duty == Attempt && p.delay > 0 ==> h != [] && Last(h).Elapsed?
    ensures LedgerOf(p, h).duty == StartCountdown || LedgerOf(p, h).countdown.Some? ==> p.delay > 0
  {
    CounterIsTrailingRun(p, h);
    if h != [] { DutiesEarned(p, Front(h)); }
  }

  /** No success is recorded between the start and the end of an elapsed countdown, its
      deadline was fixed at the start, and it never elapses early. */
  lemma ElapseHasStart(p: Plan, h: Log, j: nat) returns (i: nat)
    requires Sensible(p) && Legal(p, h) && j < |h| && h[j].Elapsed?
    ensures i < j && h[i].Armed? && QuietBetween(h, i, j)
    ensures h[i].deadline == h[i].at + p.delay <= h[j].at
    ensures TrailingFailures(h[..i]) >= p.threshold
  {
    Prefix(p, h, j);
    i := CountdownHasStart(p, h[..j]);
    assert h[..j][..i] == h[..i];
    assert forall k: nat :: k < j ==> h[..j][k] == h[k];
  }

  // ---- Shutdown attempts ----

  /** The earliest moment at which the threshold can be reached. */
  function EarliestThreshold(p: Plan): int { p.start + (p.threshold - 1) * p.interval + p.timeout }

  /** Sends keep to the schedule: the k-th slot, and so the k-th send, is never before
      start + k * interval. */
  lemma {:induction false} SlotNotEarly(p: Plan, h: Log)
    requires Sensible(p) && Legal(p, h)
    ensures KeepsSlots(p, LedgerOf(p, h))
  {
    if h != [] {
      SlotNotEarly(p, Front(h));
      SlotStep(p, LedgerOf(p, Front(h)), Last(h));
    }
  }

  predicate KeepsSlots(p: Plan, l: Ledger) {
    && l.slot >= p.start + l.sends * p.interval
    && (l.sends > 0 ==> l.lastSend >= p.start + (l.sends - 1) * p.interval)
  }

  lemma SlotStep(p: Plan, l: Ledger, e: Event)
    requires Sensible(p) && Admissible(p, l, e) && KeepsSlots(p, l)
    ensures KeepsSlots(p, Post(p, l, e))
  {
    MulSucc(l.sends, p.interval);
  }

  lemma {:induction false} ThresholdNotEarly(p: Plan, h: Log)
    requires Sensible(p) && Legal(p, h)
    ensures var l := LedgerOf(p, h);
      && (l.fails > 0 ==> l.clock >= p.start + (l.fails - 1) * p.interval + p.timeout)
      && (p.threshold <= l.fails ==> l.clock >= EarliestThreshold(p))
      && (l.countdown.Some? ==> l.countdown.value >= EarliestThreshold(p) + p.delay)
      && (l.duty == Attempt ==> l.clock >= EarliestThreshold(p) + p.delay)
  {
    if h != [] {
      var f, e := Front(h), Last(h);
      var l, l' := LedgerOf(p, f), LedgerOf(p, h);
      ThresholdNotEarly(p, f);
      DutiesEarned(p, f);
      DutiesEarned(p, h);
      if e.Failed? {
        FailureNotEarly(p, f, e);
      }
      if p.threshold <= l'.fails {
        MulMonotone(p.threshold - 1, l'.fails - 1, p.interval);
      }
    }
  }

  /** A failure that is the n-th in a row comes after n slots and one timeout. */
  lemma FailureNotEarly(p: Plan, h: Log, e: Event)
    requires Sensible(p) && Legal(p, h) && e.Failed? && Admissible(p, LedgerOf(p, h), e)
    ensures e.at >= p.start + LedgerOf(p, h).fails * p.interval + p.timeout
  {
    var l := LedgerOf(p, h);
    SlotNotEarly(p, h);
    TotalsAreCounts(p, h);
    FailsAreOutcomes(p, h);
    MulMonotone(l.fails, l.sends - 1, p.interval);
  }

  lemma {:induction false} FailsAreOutcomes(p: Plan, h: Log)
    requires Legal(p, h)
    ensures LedgerOf(p, h).fails <= LedgerOf(p, h).failures
  {
    if h != [] { FailsAreOutcomes(p, Front(h)); }
  }

  /** No premature shutdown: whatever the clock, the wakeups and the replies did, an attempt
      has at least threshold failures in a row directly behind it, and it is not made before
      the time that threshold on-schedule failures and the whole delay take. */
  lemma AttemptNotEarly(p: Plan, h: Log, i: nat)
    requires Sensible(p) && Legal(p, h) && i < |h| && h[i].Attempted?
    ensures p.mode != LogOnly
    ensures TrailingFailures(h[..i]) >= p.threshold
    ensures h[i].at >= p.start + (p.threshold - 1) * p.interval + p.timeout + p.delay
  {
    Prefix(p, h, i);
    ThresholdNotEarly(p, h[..i]);
    DutiesEarned(p, h[..i]);
  }

  /** Behind an attempt, the next countdown ends, and the next attempt falls due, at least the
      delay later. */
  lemma {:induction false} CountdownOutlivesAttempts(p: Plan, h: Log, i: nat)
    requires Sensible(p) && Legal(p, h) && i < |h| && h[i].Attempted?
    ensures LedgerOf(p, h).countdown.Some? ==> LedgerOf(p, h).countdown.value >= h[i].at + p.delay
    ensures LedgerOf(p, h).duty == Attempt && p.delay > 0 ==> LedgerOf(p, h).clock >= h[i].at + p.delay
  {
    DutiesEarned(p, h);
    if LedgerOf(p, h).countdown.Some? {
      var k := CountdownHasStart(p, h);
      if i < k {
        TimesOrdered(p, h, i, k);
      }
    } else if i + 1 < |h| {
      assert Front(h)[i] == h[i];
      CountdownOutlivesAttempts(p, Front(h), i);
    }
  }

  /** Two delayed attempts are at least the delay apart, even when commands fail. */
  lemma AttemptsSpaced(p: Plan, h: Log, i: nat, j: nat)
    requires Sensible(p) && Legal(p, h) && i < j < |h|
    requires h[i].Attempted? && h[j].Attempted?
    ensures h[j].at >= h[i].at + p.delay
    ensures p.mode == TrueOff && h[i].result != Triggered
  {
    Prefix(p, h, j);
    NotFinalBefore(p, h[..j], i);
    if p.delay > 0 {
      DelayedAttemptsSpaced(p, h, i, j);
    } else {
      TimesOrdered(p, h, i, j);
    }
  }

  lemma DelayedAttemptsSpaced(p: Plan, h: Log, i: nat, j: nat)
    requires Sensible(p) && Legal(p, h) && i < j < |h| && p.delay > 0
    requires h[i].Attempted? && h[j].Attempted?
    ensures h[j].at >= h[i].at + p.delay
  {
    Prefix(p, h, j);
    assert h[..j][i] == h[i];
    CountdownOutlivesAttempts(p, h[..j], i);
  }

  /** A shutdown attempt that ends the run is the last event of its history. */
  lemma {:induction false} NotFinalBefore(p: Plan, h: Log, i: nat)
    requires Sensible(p) && Legal(p, h) && !LedgerOf(p, h).final && i < |h| && h[i].Attempted?
    ensures p.mode == TrueOff && h[i].result != Triggered
  {
    if i + 1 < |h| {
      NotFinalBefore(p, Front(h), i);
    } else {
      Prefix(p, h, i);
      DutiesEarned(p, h[..i]);
    }
  }

  /** An owed event comes at once: it is the very next event, at the same time. */
  lemma DutyDischargedAtOnce(p: Plan, h: Log, i: nat)
    requires Legal(p, h) && LedgerOf(p, h).duty == Nothing
    requires i < |h| && LedgerOf(p, h[..i + 1]).duty != Nothing
    ensures i + 1 < |h| && h[i + 1].at == h[i].at && Discharges(p, LedgerOf(p, h[..i + 1]), h[i + 1])
  {
    assert h[..|h|] == h;
    Prefix(p, h, i + 1);
    assert Last(h[..i + 1]) == h[i];
  }

  /** The reaction to the failure at h[i], if it completes a run of threshold failures. */
  predicate Answered(p: Plan, h: Log, i: nat)
    requires i < |h|
  {
    && i + 1 < |h|
    && h[i + 1].at == h[i].at
    && (if p.mode == LogOnly then h[i + 1].Warned?
        else if p.delay == 0 then h[i + 1].Attempted?
        else h[i + 1].Armed? && h[i + 1].deadline == h[i].at + p.delay)
  }

  /** No shutdown is missed: a failure that completes a run of at least threshold failures is
      answered immediately - by an attempt without a delay, by a countdown with one, unless a
      countdown is in progress already. In log-only mode every threshold-th failure in a row is
      answered by a warning. */
  lemma ThresholdAnswered(p: Plan, h: Log, i: nat)
    requires Sensible(p) && Legal(p, h) && LedgerOf(p, h).duty == Nothing && Count(h, AFault) == 0
    requires i < |h| && h[i].Failed?
    ensures p.mode != LogOnly && TrailingFailures(h[..i + 1]) >= p.threshold && LedgerOf(p, h[..i]).countdown == None ==>
      Answered(p, h, i)
    ensures p.mode == LogOnly && TrailingFailures(h[..i + 1]) % p.threshold == 0 ==> Answered(p, h, i)
  {
    var g := h[..i + 1];
    Prefix(p, h, i + 1);
    assert Front(g) == h[..i] && Last(g) == h[i];
    FaultFreePrefix(h, i + 1);
    if p.mode == LogOnly {
      LogOnlyDuty(p, g);
    } else {
      CounterIsTrailingRun(p, g);
    }
    if LedgerOf(p, g).duty != Nothing {
      DutyAnswered(p, h, i);
    }
  }

  lemma DutyAnswered(p: Plan, h: Log, i: nat)
    requires Sensible(p) && Legal(p, h) && LedgerOf(p, h).duty == Nothing && Count(h, AFault) == 0
    requires i < |h| && h[i].Failed? && LedgerOf(p, h[..i + 1]).duty != Nothing
    ensures Answered(p, h, i)
  {
    var g := h[..i + 1];
    assert Front(g) == h[..i] && Last(g) == h[i];
    Prefix(p, h, i + 1);
    DutyDischargedAtOnce(p, h, i);
    if h[i + 1].Faulted? {
      FaultCounted(h, i + 1);
    }
  }

  lemma LogOnlyDuty(p: Plan, g: Log)
    requires Sensible(p) && p.mode == LogOnly && Legal(p, g) && g != [] && Last(g).Failed?
    ensures LedgerOf(p, g).duty == Warn <==> TrailingFailures(g) % p.threshold == 0
  {
    LogOnlyWarnings(p, g);
    if LedgerOf(p, g).duty == Nothing {
      assert LedgerOf(p, g).fails > 0;
    }
  }

  lemma {:induction false} FaultFreePrefix(h: Log, k: nat)
    requires k <= |h|
    ensures Count(h[..k], AFault) <= Count(h, AFault)
    decreases |h|
  {
    if k == |h| {
      assert h[..k] == h;
    } else {
      assert Front(h)[..k] == h[..k];
      FaultFreePrefix(Front(h), k);
    }
  }

  lemma FaultCounted(h: Log, i: nat)
    requires i < |h| && h[i].Faulted?
    ensures Count(h, AFault) > 0
  {}

  // ---- Sending ----

  /** The k-th send (from 0) is never before start + k * interval. */
  lemma {:induction false} SendNotEarly(p: Plan, h: Log, k: nat)
    requires Sensible(p) && Legal(p, h) && k < |SendTimes(h)|
    ensures SendTimes(h)[k] >= p.start + k * p.interval
  {
    var f := Front(h);
    if k < |SendTimes(f)| {
      SendNotEarly(p, f, k);
    } else {
      SlotNotEarly(p, f);
      TotalsAreCounts(p, f);
    }
  }

  /** With m sends after send a, the schedule is at least m intervals beyond it. */
  lemma {:induction false} SlotAfterSend(p: Plan, h: Log, a: nat, m: nat)
    requires Sensible(p) && Legal(p, h) && a + m + 1 == |SendTimes(h)|
    ensures LedgerOf(p, h).slot >= SendTimes(h)[a] + m * p.interval
  {
    var f, slot := Front(h), LedgerOf(p, Front(h)).slot;
    if !Last(h).Sent? {
      SlotAfterSend(p, f, a, m);
    } else {
      NextSlotGrows(slot, Last(h).at, p.interval);
      if m > 0 {
        SlotAfterSend(p, f, a, m - 1);
        MulSucc(m - 1, p.interval);
        assert SendTimes(h)[a] == SendTimes(f)[a];
      }
    }
  }

  lemma NextSlotGrows(slot: int, at: int, interval: int)
    requires interval >= 0
    ensures NextSlot(slot, at, interval) >= slot + interval
    ensures at <= NextSlot(slot, at, interval)
    ensures slot <= at ==> NextSlot(slot, at, interval) <= at + interval
  {}

  /** For a < b, send b is at least (b - a - 1) intervals after send a: one interval may be
      shortened by catching up, never two. */
  lemma {:induction false} SendsSpaced(p: Plan, h: Log, a: nat, b: nat)
    requires Sensible(p) && Legal(p, h) && a < b < |SendTimes(h)|
    ensures SendTimes(h)[b] >= SendTimes(h)[a] + (b - a - 1) * p.interval
  {
    var f := Front(h);
    if Last(h).Sent? && b == |SendTimes(h)| - 1 {
      SlotAfterSend(p, f, a, b - a - 1);
    } else {
      SendsSpaced(p, f, a, b);
    }
  }

  /** No drift: the schedule is on the grid start + k * interval exactly as long as no send
      was more than one interval later than its own grid point. */
  lemma {:induction false} OnGridIffNeverLate(p: Plan, h: Log)
    requires Sensible(p) && Legal(p, h)
    ensures LedgerOf(p, h).slot >= p.start + |SendTimes(h)| * p.interval
    ensures LedgerOf(p, h).slot == p.start + |SendTimes(h)| * p.interval <==>
      forall k: nat :: k < |SendTimes(h)| ==> SendTimes(h)[k] <= p.start + (k + 1) * p.interval
  {
    if h != [] {
      var f := Front(h);
      var t, t' := SendTimes(f), SendTimes(h);
      OnGridIffNeverLate(p, f);
      if Last(h).Sent? {
        MulSucc(|t|, p.interval);
        assert t'[|t|] == Last(h).at;
        assert forall k: nat :: k < |t| ==> t'[k] == t[k];
        assert (forall k: nat :: k < |t'| ==> t'[k] <= p.start + (k + 1) * p.interval) <==>
          (forall k: nat :: k < |t| ==> t[k] <= p.start + (k + 1) * p.interval)
          && t'[|t|] <= p.start + (|t| + 1) * p.interval;
      }
    }
  }

  /** The k-th send of a run (counting from 1) carries SequenceOf(k). */
  lemma {:induction false} SendNumbers(p: Plan, h: Log, i: nat)
    requires Legal(p, h) && i < |h| && h[i].Sent?
    ensures h[i].number == SequenceOf(Count(h[..i], ASend) + 1) != 0
  {
    Prefix(p, h, i);
    TotalsAreCounts(p, h[..i]);
  }

  /** Without a representable-deadline problem there is no fault. */
  lemma {:induction false} NoFaultBelowLimit(p: Plan, h: Log)
    requires Legal(p, h) && Clock(p, h) + p.delay < UINT64_MAX
    ensures Count(h, AFault) == 0
  {
    if h != [] {
      ClockIsLatest(p, Front(h));
      NoFaultBelowLimit(p, Front(h));
    }
  }
}
