/** The reactor as functions on values: one function per operation of `src/monitor.c`, and
    the effect of a whole run under a trace of environment inputs. */
module ReactorSpec {
  import opened Machine
  import opened Settings
  import opened Icmp
  import opened Shutdown
  import opened History

  const EXIT_SUCCESS: int := 0
  const EXIT_FAILURE: int := 1
  const MAX_REPLY_DRAIN_PER_TICK: nat := 32

  datatype StepResult = Continue | Stop | Error

  datatype Metrics = Metrics(
    total: nat,
    successful: nat,
    failed: nat,
    totalLatency: int,
    minLatency: int,
    maxLatency: int)

  datatype Ping = Ping(waiting: bool, deadline: uint64, sendTime: uint64, expected: uint16)

  datatype Pending = Pending(pending: bool, deadline: uint64)

  type SendBuffer = b: seq<byte> | |b| == SEND_BUFFER_SIZE witness seq(SEND_BUFFER_SIZE, _ => 0)

  /** Everything the program changes while it monitors, and the history of what it did. */
  datatype State = State(
    ping: Ping,
    shutdown: Pending,
    nextPing: uint64,
    interval: uint64,
    lastWatchdog: uint64,
    watchdog: uint64,
    fails: nat,
    metrics: Metrics,
    sequence: uint16,
    buffer: SendBuffer,
    now: uint64,
    stopFlag: bool,
    log: Log)

  /** The fixed part of the context. */
  datatype Setup = Setup(config: Config, dest: Endpoint, id: uint16)

  // ---- Environment ----

  datatype Signal = NoSignal | Terminate | DumpStats

  /** What one call of `recvfrom` finds. */
  datatype Arrival = WouldBlock | ReceiveFault | Packet(source: Endpoint, bytes: seq<byte>)

  /** The answers of the environment during one iteration of the reactor loop. A clock reading
      of UINT64_MAX means that the clock could not be read. */
  datatype Tick = Tick(
    clock: uint64,               // reading at the top of the loop
    elapseCommand: CommandResult,    // outcome of the shutdown command, if a countdown elapses
    thresholdCommand: CommandResult, // ... if it runs directly at the threshold
    watchdogOk: bool,
    sendOk: bool,
    pollOk: bool,
    wake: uint64,                // reading after poll
    signalFdOk: bool,
    socketFdOk: bool,
    signal: Signal,
    readable: bool,
    inbox: seq<Arrival>)

  function Refresh(now: uint64, reading: uint64): uint64 {
    if reading == UINT64_MAX then now else reading
  }

  // ---- Metrics ----

  const NO_METRICS: Metrics := Metrics(0, 0, 0, 0, -1, -1)

  function RecordSuccess(m: Metrics, latency: nat): Metrics {
    Metrics(m.total + 1, m.successful + 1, m.failed, m.totalLatency + latency,
            if m.minLatency < 0 || latency < m.minLatency then latency else m.minLatency,
            if m.maxLatency < 0 || latency > m.maxLatency then latency else m.maxLatency)
  }

  function RecordFailure(m: Metrics): Metrics {
    m.(total := m.total + 1, failed := m.failed + 1)
  }

  function AverageLatency(m: Metrics): real {
    if m.successful == 0 then 0.0 else m.totalLatency as real / m.successful as real
  }

  // ---- Deadlines ----

  function TimeoutUntil(now: uint64, deadline: uint64): int {
    if deadline <= now then 0
    else if deadline - now > INT_MAX then INT_MAX
    else deadline - now
  }

  function WaitTimeout(s: State, now: uint64): int {
    var t := TimeoutUntil(now, if s.ping.waiting then s.ping.deadline else s.nextPing);
    var t := if s.shutdown.pending then Min(t, TimeoutUntil(now, s.shutdown.deadline)) else t;
    if s.watchdog > 0 then
      var d := SaturatingAdd(s.lastWatchdog, s.watchdog);
      Min(t, if d == UINT64_MAX then INT_MAX else TimeoutUntil(now, d))
    else t
  }

  function WatchdogDue(s: State, now: uint64): bool {
    s.watchdog > 0 && WrappingSub(now, s.lastWatchdog) >= s.watchdog
  }

  function Record(s: State, e: Event): State { s.(log := s.log + [e]) }

  function ClearPing(s: State): State { s.(ping := Ping(false, 0, 0, 0)) }

  function ClearShutdown(s: State): State { s.(shutdown := Pending(false, 0)) }

  // ---- Shutdown logic ----

  function Execute(c: Setup, s: State, now: uint64, command: CommandResult): (State, bool) {
    var result := TriggerResult(c.config.mode, command);
    (Record(s, Attempted(now, result)), c.config.mode == DryRun || result == Triggered)
  }

  function ResetAfterFault(s: State, now: uint64): State {
    Record(s, Faulted(now)).(fails := 0)
  }

  function HandleThreshold(c: Setup, s: State, now: uint64, command: CommandResult): (State, bool) {
    if s.fails < c.config.failThreshold then (s, false)
    else if c.config.mode == LogOnly then (Record(s, Warned(now)).(fails := 0), false)
    else if c.config.delayMinutes <= 0 then Execute(c, s, now, command)
    else if s.shutdown.pending then (s, false)
    else
      var delay := DelayMs(c.config);
      if delay == 0 || delay == UINT64_MAX then (ResetAfterFault(s, now), false)
      else
        var deadline := SaturatingAdd(now, delay);
        if deadline == UINT64_MAX then (ResetAfterFault(s, now), false)
        else (Record(s, Armed(now, deadline)).(shutdown := Pending(true, deadline)), false)
  }

  function HandleCountdown(c: Setup, s: State, now: uint64, command: CommandResult): (State, bool) {
    if s.shutdown.pending && now >= s.shutdown.deadline
    then Execute(c, Record(ClearShutdown(s), Elapsed(now)), now, command)
    else (s, false)
  }

  function CancelCountdown(s: State, now: uint64): State {
    if s.shutdown.pending then Record(ClearShutdown(s), Cancelled(now)) else s
  }

  // ---- Pings ----

  function PingSuccess(s: State, now: uint64, latency: uint64): State {
    var s1 := CancelCountdown(s.(fails := 0), now);
    Record(s1, Succeeded(now, latency)).(metrics := RecordSuccess(s1.metrics, latency))
  }

  function PingFailure(s: State, now: uint64): State {
    Record(s, Failed(now)).(fails := s.fails + 1, metrics := RecordFailure(s.metrics))
  }

  function HandlePingTimeout(c: Setup, s: State, now: uint64, command: CommandResult): (State, StepResult) {
    if s.ping.waiting && now >= s.ping.deadline then
      var (s1, stop) := HandleThreshold(c, ClearPing(PingFailure(s, now)), now, command);
      (s1, if stop then Stop else Continue)
    else (s, Continue)
  }

  function SendPing(c: Setup, s: State, now: uint64, sendOk: bool): (State, StepResult) {
    var number := NextSequence(s.sequence);
    var s1 := s.(sequence := number, buffer := WithRequest(c.dest.family, c.id, number, PACKET_SIZE, s.buffer));
    if !sendOk then (s1, Error)
    else
      var s2 := Record(s1, Sent(now, number));
      var deadline := SaturatingAdd(now, TimeoutMs(c.config));
      if deadline == UINT64_MAX then (s2, Error)
      else (s2.(ping := Ping(true, deadline, now, number)), Continue)
  }

  /** The next send time after a send at `now`; UINT64_MAX if there is none. */
  function AdvanceSchedule(nextPing: uint64, interval: uint64, now: uint64): uint64 {
    var candidate := SaturatingAdd(nextPing, interval);
    if candidate == UINT64_MAX || candidate < now then SaturatingAdd(now, interval) else candidate
  }

  function HandleScheduler(c: Setup, s: State, now: uint64, sendOk: bool): (State, StepResult) {
    if s.ping.waiting || now < s.nextPing then (s, Continue)
    else
      var (s1, r) := SendPing(c, s, now, sendOk);
      if r != Continue then (s1, r)
      else
        var next := AdvanceSchedule(s1.nextPing, s1.interval, now);
        if next == UINT64_MAX then (s1, Error) else (s1.(nextPing := next), Continue)
  }

  function HandleWatchdog(s: State, now: uint64, ok: bool): State {
    if WatchdogDue(s, now) && ok then Record(s, WatchdogSent(now)).(lastWatchdog := now) else s
  }

  function IsMatch(c: Setup, s: State, a: Arrival): bool {
    && a.Packet?
    && s.ping.waiting
    && Classify(c.dest, a.source, a.bytes, c.id, s.ping.expected) == Matched
  }

  /** `monitor_drain_icmp_replies` with `budget` packets left to look at. */
  function Drain(c: Setup, s: State, now: uint64, inbox: seq<Arrival>, budget: nat): (State, StepResult) {
    if budget == 0 || inbox == [] || inbox[0].WouldBlock? then (s, Continue)
    else if inbox[0].ReceiveFault? then (ClearPing(s), Error)
    else if IsMatch(c, s, inbox[0]) then
      (ClearPing(PingSuccess(s, now, Latency(s.ping.sendTime, now))), Continue)
    else Drain(c, s, now, inbox[1..], budget - 1)
  }

  // ---- The loop ----

  function RunDueWork(c: Setup, s: State, t: Tick): (State, StepResult) {
    var (s1, stop) := HandleCountdown(c, s, s.now, t.elapseCommand);
    if stop then (s1, Stop)
    else
      var s2 := HandleWatchdog(s1, s.now, t.watchdogOk);
      var (s3, r) := HandlePingTimeout(c, s2, s.now, t.thresholdCommand);
      if r != Continue then (s3, r) else HandleScheduler(c, s3, s.now, t.sendOk)
  }

  function HandlePoll(c: Setup, s: State, t: Tick): (State, StepResult) {
    if !t.pollOk then (s, Error)
    else
      var s1 := s.(now := Refresh(s.now, t.wake));
      if !t.signalFdOk || !t.socketFdOk then (s1, Error)
      else
        var s2 := if t.signal == Terminate then s1.(stopFlag := true) else s1;
        if t.readable then Drain(c, s2, s2.now, t.inbox, MAX_REPLY_DRAIN_PER_TICK) else (s2, Continue)
  }

  datatype Status = Running | Exited(code: int)

  /** One iteration of the reactor loop. */
  function Step(c: Setup, s: State, t: Tick): (State, Status) {
    var (s1, r1) := RunDueWork(c, s.(now := Refresh(s.now, t.clock)), t);
    if r1 == Error then (s1, Exited(EXIT_FAILURE))
    else if r1 == Stop then (s1, Exited(EXIT_SUCCESS))
    else
      var (s2, r2) := HandlePoll(c, s1, t);
      if r2 == Error then (s2, Exited(EXIT_FAILURE))
      else if s2.stopFlag then (s2, Exited(EXIT_SUCCESS))
      else (s2, Running)
  }

  /** The state in which the loop is entered. */
  function Boot(c: Setup, start: uint64, watchdog: uint64, buffer: SendBuffer): State {
    State(Ping(false, 0, 0, 0), Pending(false, 0), start, IntervalMs(c.config), start, watchdog,
          0, NO_METRICS, 0, buffer, start, false, [])
  }
}
