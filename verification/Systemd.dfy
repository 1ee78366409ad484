/** Notifications to the service manager: bounded retry, the status cache and the watchdog
    interval. */
module Systemd {
  import opened Machine
  import opened History
  import opened ReactorSpec
  import opened Refinement
  import opened Runs
  import opened Timing

  const NOTIFY_RETRY_COUNT: nat := 3
  const STATUS_SIZE: nat := 240
  const MESSAGE_SIZE: nat := 256
  const DEDUP_WINDOW_MS: int := 2000

  /** What one `send` on the notification socket comes to. */
  datatype SendAttempt = Accepted | Interrupted | Congested | Refused

  predicate Retryable(a: SendAttempt) { a == Interrupted || a == Congested }

  /** Some attempt within the budget succeeds, behind retryable failures only. */
  predicate GetsThrough(attempts: seq<SendAttempt>) {
    exists i: nat :: i < NOTIFY_RETRY_COUNT && i < |attempts| && attempts[i] == SendAttempt.Accepted
      && forall k: nat :: k < i ==> Retryable(attempts[k])
  }

  /** At most three attempts, and another one only behind an interruption or congestion. */
  lemma ThreeAttempts(attempts: seq<SendAttempt>)
    ensures GetsThrough(attempts) <==>
      && attempts != []
      && (attempts[0] == SendAttempt.Accepted
          || (attempts[0] in {Interrupted, Congested}
              && |attempts| > 1
              && (attempts[1] == SendAttempt.Accepted
                  || (attempts[1] in {Interrupted, Congested} && |attempts| > 2 && attempts[2] == SendAttempt.Accepted))))
  {}

  /** The text of a C buffer of `size` bytes after `snprintf` into it. */
  function Clip(text: string, size: nat): string
    requires size > 0
  {
    text[..Min(|text|, size - 1)]
  }

  function Message(status: string): string {
    Clip("STATUS=" + Clip(status, STATUS_SIZE), MESSAGE_SIZE)
  }

  /** The message buffer never shortens the status any further. */
  lemma MessageCarriesStatus(status: string)
    ensures Message(status) == "STATUS=" + if |status| <= 239 then status else status[..239]
  {}

  // ---- The status cache ----

  /** The cache, and the status texts that have reached the service manager. */
  datatype Cache = Cache(lastStatus: string, lastStatusMs: uint64, delivered: seq<string>)

  const EMPTY_CACHE: Cache := Cache("", 0, [])

  /** One call: the text, the clock reading (UINT64_MAX if it failed) and the socket's answers. */
  datatype Call = Call(status: string, clock: uint64, attempts: seq<SendAttempt>)

  predicate Suppressed(c: Cache, call: Call) {
    && c.lastStatus == call.status
    && c.lastStatusMs != 0
    && call.clock != UINT64_MAX
    && WrappingSub(call.clock, c.lastStatusMs) < DEDUP_WINDOW_MS
  }

  function AfterCall(c: Cache, call: Call): (Cache, bool) {
    if Suppressed(c, call) then (c, true)
    else if GetsThrough(call.attempts) then
      (Cache(Clip(call.status, STATUS_SIZE),
             if call.clock == UINT64_MAX then 0 else call.clock,
             c.delivered + [Clip(call.status, STATUS_SIZE)]), true)
    else (c, false)
  }

  function AfterCalls(calls: seq<Call>): Cache {
    if calls == [] then EMPTY_CACHE
    else AfterCall(AfterCalls(calls[..|calls| - 1]), calls[|calls| - 1]).0
  }

  /** The status the service manager shows. */
  function Shown(c: Cache): string {
    if c.delivered == [] then "" else c.delivered[|c.delivered| - 1]
  }

  lemma {:induction false} CacheMatchesShown(calls: seq<Call>)
    ensures var c := AfterCalls(calls);
      && c.lastStatus == Shown(c) && |c.lastStatus| < STATUS_SIZE
      && (c.delivered == [] ==> c.lastStatusMs == 0)
  {
    if calls != [] { CacheMatchesShown(calls[..|calls| - 1]); }
  }

  /** Deduplication agrees with plain sending. After any sequence of calls, with any clock -
      failing or jumping - and any socket, a call reports success exactly when the manager
      shows the requested text afterwards because of it: it was either delivered now, or already
      on display. A call that fails changes nothing. */
  lemma DedupAgreesWithSending(calls: seq<Call>, call: Call)
    ensures var before, (after, ok) := AfterCalls(calls), AfterCall(AfterCalls(calls), call);
      && (ok ==> after.delivered != [] && Shown(after) == Clip(call.status, STATUS_SIZE))
      && (!ok ==> after == before && !GetsThrough(call.attempts))
      && (after.delivered != before.delivered ==> after.delivered == before.delivered + [Clip(call.status, STATUS_SIZE)])
      && (GetsThrough(call.attempts) ==> ok)
  {}

  // ---- Reference: the deliveries, from the calls alone ----

  datatype Delivery = Delivery(text: string, clock: uint64)

  /** The text is the one delivered last, less than two seconds ago as far as the clock can be
      read. A reading that lies before the delivery wraps around; a delivery at reading 0, or
      without one, is not remembered. */
  predicate Recent(last: Delivery, call: Call) {
    && last.text == call.status
    && 0 < last.clock < UINT64_MAX
    && call.clock < UINT64_MAX
    && (last.clock <= call.clock < last.clock + 2000 || call.clock + 0x1_0000_0000_0000_0000 < last.clock + 2000)
  }

  function AfterDelivery(d: seq<Delivery>, call: Call): seq<Delivery> {
    if !GetsThrough(call.attempts) || (d != [] && Recent(d[|d| - 1], call)) then d
    else d + [Delivery(if |call.status| <= 239 then call.status else call.status[..239], call.clock)]
  }

  /** What reaches the service manager, and when. */
  function Deliveries(calls: seq<Call>): seq<Delivery> {
    if calls == [] then [] else AfterDelivery(Deliveries(calls[..|calls| - 1]), calls[|calls| - 1])
  }

  function Texts(d: seq<Delivery>): seq<string> {
    if d == [] then [] else Texts(d[..|d| - 1]) + [d[|d| - 1].text]
  }

  /** The cache holds the last delivery: its text, and the clock reading at it - 0 if there was
      none. */
  predicate Remembers(c: Cache, d: seq<Delivery>) {
    && c.delivered == Texts(d)
    && c.lastStatus == (if d == [] then "" else d[|d| - 1].text)
    && c.lastStatusMs == (if d == [] || d[|d| - 1].clock == UINT64_MAX then 0 else d[|d| - 1].clock)
  }

  /** After any calls the cache remembers the last delivery; no suppressed or failed call moves
      the stamp. */
  lemma {:induction false} CacheIsLastDelivery(calls: seq<Call>)
    ensures Remembers(AfterCalls(calls), Deliveries(calls))
  {
    if calls != [] {
      var f, call := calls[..|calls| - 1], calls[|calls| - 1];
      CacheIsLastDelivery(f);
      DeliveryRemembered(AfterCalls(f), Deliveries(f), call);
    }
  }

  lemma DeliveryRemembered(c: Cache, d: seq<Delivery>, call: Call)
    requires Remembers(c, d)
    ensures Remembers(AfterCall(c, call).0, AfterDelivery(d, call))
  {
    var text := call.status;
    assert Clip(text, STATUS_SIZE) == if |text| <= 239 then text else text[..239];
    var d' := AfterDelivery(d, call);
    if d' != d {
      assert d'[..|d'| - 1] == d;
    }
  }

  /** On a clock that runs forward, a repeated text is sent again no sooner than two seconds
      after its last delivery, and always once they have passed. */
  lemma RepeatsSpaced(calls: seq<Call>, call: Call)
    requires Deliveries(calls) != [] && GetsThrough(call.attempts)
    requires var last := Deliveries(calls)[|Deliveries(calls)| - 1];
      last.text == call.status && 0 < last.clock <= call.clock < UINT64_MAX
    ensures var last := Deliveries(calls)[|Deliveries(calls)| - 1];
      var c, (after, ok) := AfterCalls(calls), AfterCall(AfterCalls(calls), call);
      ok && (after.delivered != c.delivered <==> call.clock >= last.clock + 2000)
  {
    CacheIsLastDelivery(calls);
  }

  /** Consecutive deliveries of the same text, short enough to be kept whole, are two seconds
      apart on a clock that runs forward. */
  lemma {:induction false} DeliveriesSpaced(calls: seq<Call>, i: nat)
    requires i + 1 < |Deliveries(calls)|
    requires var d := Deliveries(calls);
      d[i].text == d[i + 1].text && |d[i].text| < 239 && 0 < d[i].clock <= d[i + 1].clock < UINT64_MAX
    ensures Deliveries(calls)[i + 1].clock >= Deliveries(calls)[i].clock + 2000
  {
    if i + 1 < |Deliveries(calls[..|calls| - 1])| {
      DeliveriesSpaced(calls[..|calls| - 1], i);
    }
  }

  // ---- The watchdog interval ----

  /** `systemd_notifier_watchdog_interval_ms`: half the window, in milliseconds, at least 1. */
  function WatchdogIntervalMs(enabled: bool, usec: uint64): uint64 {
    if !enabled || usec == 0 then 0
    else if usec / 2000 == 0 then 1
    else usec / 2000
  }

  /** The watchdog is off exactly without a service manager or without a window. */
  lemma WatchdogOffExactly(enabled: bool, usec: uint64)
    ensures WatchdogIntervalMs(enabled, usec) == 0 <==> !enabled || usec == 0
  {}

  /** Two intervals fit the service manager's window exactly when that is at least 2 ms. */
  lemma TwoIntervalsFitWindow(usec: uint64)
    requires usec > 0
    ensures WatchdogIntervalMs(true, usec) > 0
    ensures 2 * WatchdogIntervalMs(true, usec) * 1000 <= usec <==> usec >= 2000
    ensures 2 * (WatchdogIntervalMs(true, usec) + 1) * 1000 > usec
  {}

  /** The watchdog window is never missed: with a window of at least 2 ms, processing and
      wakeups that together are no later than one interval keep consecutive notifications
      within it on the whole run. */
  lemma WindowNeverMissed(c: Setup, p: Plan, buffer: SendBuffer, trace: seq<Tick>, busy: nat, late: nat, usec: uint64)
    requires IsRun(c, p, buffer, trace) && TimelyRun(c, p, buffer, trace, busy, late)
    requires usec >= 2000 && p.watchdog == WatchdogIntervalMs(true, usec) && busy + late <= p.watchdog
    ensures var w := WatchdogTimes(p, Run(c, p, buffer, trace).0.log);
      forall i: nat, j: nat :: i + 1 == j < |w| ==> 0 < (w[j] - w[i]) * 1000 <= usec
  {
    WatchdogCadence(c, p, buffer, trace, busy, late);
    TwoIntervalsFitWindow(usec);
  }

  /** The notifier, updated in place. */
  class Notifier {
    const enabled: bool
    const watchdogUsec: uint64
    var lastStatus: string
    var lastStatusMs: uint64
    ghost var delivered: seq<string>

    ghost function Contents(): Cache reads this { Cache(lastStatus, lastStatusMs, delivered) }

    constructor (enabled: bool, watchdogUsec: uint64)
      ensures this.enabled == enabled && this.watchdogUsec == watchdogUsec
      ensures Contents() == EMPTY_CACHE
    {
      this.enabled := enabled;
      this.watchdogUsec := watchdogUsec;
      lastStatus, lastStatusMs, delivered := "", 0, [];
    }

    /** `send_notify`: at most three attempts. Attempts beyond those given are refused. */
    method SendNotify(attempts: seq<SendAttempt>) returns (ok: bool)
      ensures ok <==> enabled && GetsThrough(attempts)
    {
      if !enabled { return false; }
      var attempt := 0;
      while attempt < NOTIFY_RETRY_COUNT
        invariant 0 <= attempt <= NOTIFY_RETRY_COUNT
        invariant attempt <= |attempts| && forall k: nat :: k < attempt ==> Retryable(attempts[k])
      {
        if attempt >= |attempts| { return false; }
        if attempts[attempt] == SendAttempt.Accepted { return true; }
        if !Retryable(attempts[attempt]) { return false; }
        attempt := attempt + 1;
      }
      ok := false;
    }

    /** `systemd_notifier_status`. */
    method Status(call: Call) returns (ok: bool)
      modifies this
      ensures !enabled ==> !ok && Contents() == old(Contents())
      ensures enabled ==> (Contents(), ok) == AfterCall(old(Contents()), call)
    {
      if !enabled { return false; }
      var same := lastStatus == call.status;
      if same && lastStatusMs != 0 && call.clock != UINT64_MAX
         && WrappingSub(call.clock, lastStatusMs) < DEDUP_WINDOW_MS {
        return true;
      }
      ok := SendNotify(call.attempts);
      if ok {
        delivered := delivered + [Clip(call.status, STATUS_SIZE)];
        lastStatus := Clip(call.status, STATUS_SIZE);
        lastStatusMs := if call.clock == UINT64_MAX then 0 else call.clock;
      }
    }

    /** `systemd_notifier_watchdog`. */
    method Watchdog(attempts: seq<SendAttempt>) returns (ok: bool)
      ensures ok <==> enabled && watchdogUsec > 0 && GetsThrough(attempts)
    {
      if !enabled || watchdogUsec == 0 { return false; }
      ok := SendNotify(attempts);
    }
  }
}
