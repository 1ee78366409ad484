/** Configuration: validation, and the durations the reactor derives from it. */
module Settings {
  import opened Machine

  const MS_PER_SEC: int := 1000
  const MS_PER_MINUTE: int := 60 * 1000
  const MAX_DELAY_MINUTES: int := 365 * 24 * 60

  datatype ShutdownMode = DryRun | TrueOff | LogOnly

  /** What `inet_pton` makes of the target string. */
  datatype Target = EmptyTarget | NotAnAddress | Literal

  datatype Config = Config(
    target: Target,
    intervalSec: int32,
    failThreshold: int32,
    timeoutMs: int32,
    mode: ShutdownMode,
    delayMinutes: int32)

  datatype Rejection =
    | TargetEmpty
    | TargetInvalid
    | IntervalNotPositive
    | ThresholdNotPositive
    | TimeoutNotPositive
    | DelayNegative
    | DelayTooLarge
    | TimeoutNotBelowInterval
    | DelayInLogOnly

  function DurationMs(value: int32, scale: uint64): uint64 {
    if value <= 0 then 0 else SaturatingMul(value, scale)
  }

  function IntervalMs(c: Config): uint64 { DurationMs(c.intervalSec, MS_PER_SEC) }

  function DelayMs(c: Config): uint64 { DurationMs(c.delayMinutes, MS_PER_MINUTE) }

  function TimeoutMs(c: Config): uint64 { AsUint64(c.timeoutMs) }

  predicate TimeoutFitsInterval(c: Config) {
    && c.intervalSec > 0
    && c.timeoutMs > 0
    && c.intervalSec * MS_PER_SEC <= UINT64_MAX
    && c.timeoutMs < c.intervalSec * MS_PER_SEC
  }

  /** None when the configuration is accepted, otherwise the first complaint. */
  function Validate(c: Config): Option<Rejection> {
    if c.target == EmptyTarget then Some(TargetEmpty)
    else if c.target == NotAnAddress then Some(TargetInvalid)
    else if c.intervalSec <= 0 then Some(IntervalNotPositive)
    else if c.failThreshold <= 0 then Some(ThresholdNotPositive)
    else if c.timeoutMs <= 0 then Some(TimeoutNotPositive)
    else if c.delayMinutes < 0 then Some(DelayNegative)
    else if c.delayMinutes > MAX_DELAY_MINUTES then Some(DelayTooLarge)
    else if !TimeoutFitsInterval(c) then Some(TimeoutNotBelowInterval)
    else if c.mode == LogOnly && c.delayMinutes != 0 then Some(DelayInLogOnly)
    else None
  }

  predicate Accepted(c: Config) { Validate(c) == None }

  /** Exactly which configurations are accepted. */
  lemma AcceptedExactly(c: Config)
    ensures Accepted(c) <==>
      && c.target == Literal
      && 1 <= c.intervalSec
      && 1 <= c.failThreshold
      && 1 <= c.timeoutMs < 1000 * c.intervalSec
      && 0 <= c.delayMinutes <= 525600
      && (c.mode == LogOnly ==> c.delayMinutes == 0)
  {}

  /** The complaint about a rejected configuration is true of it, and it is the first in the
      documented order. In particular the overflow check of the timeout comparison never fires. */
  lemma ComplaintIsTrue(c: Config)
    ensures match Validate(c)
      case None => true
      case Some(TargetEmpty) => c.target == EmptyTarget
      case Some(TargetInvalid) => c.target == NotAnAddress
      case Some(IntervalNotPositive) => c.target == Literal && c.intervalSec < 1
      case Some(ThresholdNotPositive) => c.target == Literal && c.intervalSec >= 1 && c.failThreshold < 1
      case Some(TimeoutNotPositive) => c.intervalSec >= 1 && c.failThreshold >= 1 && c.timeoutMs < 1
      case Some(DelayNegative) => c.timeoutMs >= 1 && c.failThreshold >= 1 && c.delayMinutes < 0
      case Some(DelayTooLarge) => c.timeoutMs >= 1 && c.failThreshold >= 1 && c.delayMinutes > 365 * 24 * 60
      case Some(TimeoutNotBelowInterval) => 0 <= c.delayMinutes <= 525600 && c.timeoutMs >= 1000 * c.intervalSec
      case Some(DelayInLogOnly) => c.timeoutMs < 1000 * c.intervalSec && c.mode == LogOnly && c.delayMinutes > 0
  {}

  /** Every accepted configuration gives the reactor exact, unsaturated durations: the
      initialisation check on the interval passes, a probe's reply deadline falls before the
      next slot after it, and the delayed-shutdown duration is usable. */
  lemma AcceptedDurations(c: Config)
    requires Accepted(c)
    ensures IntervalMs(c) == c.intervalSec * 1000 && 1000 <= IntervalMs(c) < UINT64_MAX
    ensures TimeoutMs(c) == c.timeoutMs && 0 < TimeoutMs(c) < IntervalMs(c)
    ensures DelayMs(c) == c.delayMinutes * 60000 && DelayMs(c) <= 525600 * 60000
    ensures c.delayMinutes > 0 ==> 0 < DelayMs(c) < UINT64_MAX
    ensures c.mode == LogOnly ==> DelayMs(c) == 0
    ensures forall sent: uint64 :: sent + IntervalMs(c) < UINT64_MAX ==>
      SaturatingAdd(sent, TimeoutMs(c)) == sent + TimeoutMs(c) < SaturatingAdd(sent, IntervalMs(c))
  {}
}
