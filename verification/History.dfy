/** Timestamped histories of monitoring runs, the quantities one can read off them, and the
    grammar of legal histories: which event may, and which event must, come next. */
module History {
  import opened Machine
  import opened Settings
  import opened Icmp
  import opened Shutdown

  datatype Event =
    | Sent(at: uint64, number: uint16)
    | Succeeded(at: uint64, latency: uint64)
    | Failed(at: uint64)
    | Warned(at: uint64)                         // log-only mode reached the threshold
    | Armed(at: uint64, deadline: uint64)        // countdown started
    | Faulted(at: uint64)                        // countdown deadline not representable
    | Cancelled(at: uint64)                      // countdown cancelled by a reply
    | Elapsed(at: uint64)                        // countdown ran out
    | Attempted(at: uint64, result: CommandResult)
    | WatchdogSent(at: uint64)

  type Log = seq<Event>

  /** The parameters of one run, in milliseconds. */
  datatype Plan = Plan(
    start: uint64,
    interval: uint64,
    timeout: uint64,
    delay: uint64,
    threshold: int,
    mode: ShutdownMode,
    watchdog: uint64)

  function PlanOf(c: Config, start: uint64, watchdog: uint64): Plan {
    Plan(start, IntervalMs(c), TimeoutMs(c), DelayMs(c), c.failThreshold, c.mode, watchdog)
  }

  predicate Sensible(p: Plan) {
    && 0 < p.timeout < p.interval
    && 0 < p.threshold
    && (p.mode == LogOnly ==> p.delay == 0)
  }

  function Front(h: Log): Log requires h != [] { h[..|h| - 1] }

  function Last(h: Log): Event requires h != [] { h[|h| - 1] }

  // ---- Counting ----

  datatype Kind = ASend | ASuccess | AFailure | AWarning | AStart | AFault | ACancel | AnElapse | AnAttempt | AWatchdog

  function KindOf(e: Event): Kind {
    match e
    case Sent(_, _) => ASend
    case Succeeded(_, _) => ASuccess
    case Failed(_) => AFailure
    case Warned(_) => AWarning
    case Armed(_, _) => AStart
    case Faulted(_) => AFault
    case Cancelled(_) => ACancel
    case Elapsed(_) => AnElapse
    case Attempted(_, _) => AnAttempt
    case WatchdogSent(_) => AWatchdog
  }

  function Count(h: Log, k: Kind): nat {
    if h == [] then 0 else Count(Front(h), k) + if KindOf(Last(h)) == k then 1 else 0
  }

  /** Length of the run of failures that ends the sequence of ping outcomes. */
  function TrailingFailures(h: Log): nat {
    if h == [] then 0
    else if Last(h).Failed? then TrailingFailures(Front(h)) + 1
    else if Last(h).Succeeded? then 0
    else TrailingFailures(Front(h))
  }

  /** Lengths of the maximal runs of failures between successes, the current one last. */
  function FailureRuns(h: Log): (r: seq<nat>)
    ensures r != []
  {
    if h == [] then [0]
    else
      var r := FailureRuns(Front(h));
      if Last(h).Failed? then r[|r| - 1 := r[|r| - 1] + 1]
      else if Last(h).Succeeded? then r + [0]
      else r
  }

  function SumOfQuotients(r: seq<nat>, n: nat): nat
    requires n > 0
  {
    if r == [] then 0 else SumOfQuotients(r[..|r| - 1], n) + r[|r| - 1] / n
  }

  function SendTimes(h: Log): seq<uint64> {
    if h == [] then []
    else if Last(h).Sent? then SendTimes(Front(h)) + [Last(h).at]
    else SendTimes(Front(h))
  }

  function LatencySum(h: Log): nat {
    if h == [] then 0 else LatencySum(Front(h)) + if Last(h).Succeeded? then Last(h).latency else 0
  }

  /** Time of the latest event. */
  function Clock(p: Plan, h: Log): uint64 {
    if h == [] then p.start else Last(h).at
  }

  // ---- The ledger: what a history determines about the monitor ----

  /** What the monitor owes immediately after its latest event. */
  datatype Duty = Nothing | Warn | StartCountdown | Attempt | RecordReply

  datatype Ledger = Ledger(
    clock: uint64,               // time of the latest event
    waiting: bool,               // a ping is in flight
    sends: nat,
    successes: nat,
    failures: nat,
    lastSend: uint64,
    slot: int,                   // next slot of the drift-free schedule
    fails: nat,                  // failures since the last success, warning or fault
    countdown: Option<uint64>,   // deadline of the countdown in progress
    lastWatchdog: uint64,
    latencySum: nat,
    minLatency: int,             // -1 before the first success
    maxLatency: int,
    duty: Duty,
    final: bool)                 // a shutdown that ends the run was attempted

  function Open(p: Plan): Ledger {
    Ledger(p.start, false, 0, 0, 0, 0, p.start, 0, None, p.start, 0, -1, -1, Nothing, false)
  }

  /** The slot after `slot` once its ping has been sent at time `at`: the next grid point, or
      one interval from now if that has already passed. */
  function NextSlot(slot: int, at: int, interval: int): int {
    if slot + interval < at then at + interval else slot + interval
  }

  /** What a failure obliges the monitor to do, given the new failure count. */
  function DutyAfterFailure(p: Plan, fails: nat, countdown: Option<uint64>): Duty {
    if fails < p.threshold then Nothing
    else if p.mode == LogOnly then Warn
    else if p.delay == 0 then Attempt
    else if countdown == None then StartCountdown
    else Nothing
  }

  function Post(p: Plan, l: Ledger, e: Event): Ledger {
    var k := l.(clock := e.at, duty := Nothing);
    match e
    case Sent(at, _) =>
      k.(waiting := true, sends := l.sends + 1, lastSend := at, slot := NextSlot(l.slot, at, p.interval))
    case Succeeded(_, latency) =>
      k.(waiting := false, successes := l.successes + 1, fails := 0,
         latencySum := l.latencySum + latency,
         minLatency := if l.minLatency < 0 || latency < l.minLatency then latency else l.minLatency,
         maxLatency := if latency > l.maxLatency then latency else l.maxLatency)
    case Failed(_) =>
      k.(waiting := false, failures := l.failures + 1, fails := l.fails + 1,
         duty := DutyAfterFailure(p, l.fails + 1, l.countdown))
    case Warned(_) => k.(fails := 0)
    case Armed(_, deadline) => k.(countdown := Some(deadline))
    case Faulted(_) => k.(fails := 0)
    case Cancelled(_) => k.(countdown := None, duty := RecordReply)
    case Elapsed(_) => k.(countdown := None, duty := Attempt)
    case Attempted(_, result) => k.(final := p.mode == DryRun || result == Triggered)
    case WatchdogSent(at) => k.(lastWatchdog := at)
  }

  function LedgerOf(p: Plan, h: Log): Ledger {
    if h == [] then Open(p) else Post(p, LedgerOf(p, Front(h)), Last(h))
  }

  // ---- The grammar ----

  predicate IsReply(l: Ledger, e: Event) {
    e.Succeeded? && l.waiting && e.latency == e.at - l.lastSend
  }

  predicate Discharges(p: Plan, l: Ledger, e: Event) {
    match l.duty
    case Nothing => false
    case Warn => e.Warned?
    case Attempt => e.Attempted?
    case StartCountdown =>
      || (e.Armed? && e.deadline == e.at + p.delay < UINT64_MAX)
      || (e.Faulted? && e.at + p.delay >= UINT64_MAX)
    case RecordReply => IsReply(l, e)
  }

  predicate Spontaneous(p: Plan, l: Ledger, e: Event) {
    match e
    case Sent(at, number) => !l.waiting && l.slot <= at && number == SequenceOf(l.sends + 1)
    case Succeeded(at, latency) => l.countdown == None && IsReply(l, e)
    case Failed(at) => l.waiting && l.lastSend + p.timeout <= at
    case Cancelled(at) => l.waiting && l.countdown.Some?
    case Elapsed(at) => l.countdown.Some? && l.countdown.value <= at
    case WatchdogSent(at) => 0 < p.watchdog <= at - l.lastWatchdog
    case _ => false
  }

  /** May `e` come next? An owed event must come at once, before any other. */
  predicate Admissible(p: Plan, l: Ledger, e: Event) {
    && l.clock <= e.at
    && !l.final
    && if l.duty == Nothing then Spontaneous(p, l, e) else Discharges(p, l, e) && e.at == l.clock
  }

  predicate Legal(p: Plan, h: Log) {
    h == [] || (Legal(p, Front(h)) && Admissible(p, LedgerOf(p, Front(h)), Last(h)))
  }

  lemma Extend(p: Plan, h: Log, e: Event)
    requires Legal(p, h) && Admissible(p, LedgerOf(p, h), e)
    ensures Legal(p, h + [e]) && LedgerOf(p, h + [e]) == Post(p, LedgerOf(p, h), e)
  {}
}
