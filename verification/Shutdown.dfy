/** Running the shutdown command, and watching whether it starts. */
module Shutdown {
  import opened Machine
  import opened Settings

  const STARTUP_GRACE_MS: int := 1000
  const ARGV_SIZE: nat := 4

  datatype CommandResult = NoAction | Triggered | CommandFailed

  // ---- What the child and the host answer ----

  datatype ChildStatus = ExitCode(code: byte) | Signalled | Unexpected

  /** One `waitpid(WNOHANG)`. */
  datatype WaitResult = Reaped(status: ChildStatus) | StillRunning | Interrupted | WaitFailed

  /** One round of the observation loop: the wait, then - if they are reached - the clock (a
      reading of UINT64_MAX is a failure) and the sleep. */
  datatype Round = Round(wait: WaitResult, clock: uint64, sleepOk: bool)

  /** `shutdown_consume_child_status`. */
  function ConsumeStatus(w: WaitResult): CommandResult {
    match w
    case Reaped(ExitCode(code)) => if code == 0 then Triggered else CommandFailed
    case Reaped(_) => CommandFailed
    case _ => NoAction
  }

  /** What a round decides, if anything. */
  function Decision(deadline: uint64, r: Round): CommandResult {
    match r.wait
    case Reaped(_) => ConsumeStatus(r.wait)
    case WaitFailed => CommandFailed
    case Interrupted => NoAction
    case StillRunning => if r.clock == UINT64_MAX || r.clock >= deadline || !r.sleepOk then Triggered else NoAction
  }

  /** Round i decides, and no earlier one does. */
  predicate DecidesFirst(deadline: uint64, rounds: seq<Round>, i: nat) {
    && i < |rounds|
    && Decision(deadline, rounds[i]) != NoAction
    && forall k: nat :: k < i ==> Decision(deadline, rounds[k]) == NoAction
  }

  predicate Undecided(deadline: uint64, rounds: seq<Round>) {
    forall k: nat :: k < |rounds| ==> Decision(deadline, rounds[k]) == NoAction
  }

  /** Without a clock there is a single look at the child. */
  function DecisionWithoutClock(w: WaitResult): CommandResult {
    match w
    case Reaped(_) => ConsumeStatus(w)
    case WaitFailed => CommandFailed
    case _ => Triggered
  }

  /** `r` is the answer for this start reading and these rounds: that of the first decisive
      round. NoAction stands for a trace that ends before the loop does. */
  ghost predicate Observed(start: uint64, rounds: seq<Round>, r: CommandResult) {
    if start == UINT64_MAX then r == if rounds == [] then NoAction else DecisionWithoutClock(rounds[0].wait)
    else if start + STARTUP_GRACE_MS > UINT64_MAX then r == Triggered
    else
      || (exists i: nat :: DecidesFirst(start + STARTUP_GRACE_MS, rounds, i) && r == Decision(start + STARTUP_GRACE_MS, rounds[i]))
      || (r == NoAction && Undecided(start + STARTUP_GRACE_MS, rounds))
  }

  /** The trace is long enough for the observation to end. */
  predicate Complete(start: uint64, rounds: seq<Round>) {
    if start == UINT64_MAX then rounds != []
    else start + STARTUP_GRACE_MS > UINT64_MAX || !Undecided(start + STARTUP_GRACE_MS, rounds)
  }

  /** The answer is unique, and it is never NoAction once the observation has ended. */
  lemma ObservationDetermined(start: uint64, rounds: seq<Round>, r: CommandResult, r': CommandResult)
    requires Observed(start, rounds, r) && Observed(start, rounds, r')
    ensures r == r'
    ensures r == NoAction <==> !Complete(start, rounds)
  {}

  /** `shutdown_observe_startup`. */
  method ObserveStartup(start: uint64, rounds: seq<Round>) returns (r: CommandResult)
    ensures Observed(start, rounds, r)
  {
    if start == UINT64_MAX {
      if rounds == [] { return NoAction; }
      var result := rounds[0].wait;
      if result == WaitFailed { return CommandFailed; }
      if result == Interrupted { return Triggered; }
      var immediate := ConsumeStatus(result);
      if immediate != NoAction { return immediate; }
      return Triggered;
    }
    if start + STARTUP_GRACE_MS > UINT64_MAX { return Triggered; }
    var deadline: uint64 := start + STARTUP_GRACE_MS;
    var i := 0;
    while i < |rounds|
      invariant 0 <= i <= |rounds| && Undecided(deadline, rounds[..i])
    {
      assert forall k: nat :: k < i ==> rounds[k] == rounds[..i][k];
      var round := rounds[i];
      var child := ConsumeStatus(round.wait);
      assert Decision(deadline, round) != NoAction ==> DecidesFirst(deadline, rounds, i);
      if child != NoAction { return child; }
      if round.wait == WaitFailed { return CommandFailed; }
      if round.wait != Interrupted {
        if round.clock == UINT64_MAX || round.clock >= deadline { return Triggered; }
        if !round.sleepOk { return Triggered; }
      }
      i := i + 1;
    }
    assert rounds[..i] == rounds;
    r := NoAction;
  }

  // ---- What the answer means ----

  /** The child is not known to have ended, the grace period is not over and the host works. */
  predicate LeavesOpen(start: uint64, r: Round) {
    r.wait == Interrupted || (r.wait == StillRunning && r.clock < start + 1000 && r.clock < UINT64_MAX && r.sleepOk)
  }

  /** The answer by the contents of the rounds. The first round that does not leave the question
      open decides: a clean exit, the end of the grace period and a clock or sleep that fails
      mean that the shutdown has started, every other end of the child and a failed wait that
      it has not. */
  lemma ObservedByContents(start: uint64, rounds: seq<Round>, i: nat, r: CommandResult)
    requires start + 1000 <= UINT64_MAX && Observed(start, rounds, r)
    requires i < |rounds| && forall k: nat :: k < i ==> LeavesOpen(start, rounds[k])
    ensures rounds[i].wait == Reaped(ExitCode(0)) ==> r == Triggered
    ensures rounds[i].wait.Reaped? && rounds[i].wait != Reaped(ExitCode(0)) ==> r == CommandFailed
    ensures rounds[i].wait == WaitFailed ==> r == CommandFailed
    ensures rounds[i].wait == StillRunning
            && (rounds[i].clock == UINT64_MAX || rounds[i].clock >= start + 1000 || !rounds[i].sleepOk) ==>
              r == Triggered
    ensures r == NoAction ==> LeavesOpen(start, rounds[i])
  {
    if !LeavesOpen(start, rounds[i]) {
      assert DecidesFirst(start + STARTUP_GRACE_MS, rounds, i);
    }
  }

  /** Without a deadline there is at most one look at the child, and all but a reported failure
      is taken for a start. */
  lemma ObservedWithoutDeadline(start: uint64, rounds: seq<Round>, r: CommandResult)
    requires start + 1000 > UINT64_MAX && Observed(start, rounds, r)
    ensures start < UINT64_MAX ==> r == Triggered
    ensures start == UINT64_MAX && rounds != [] ==>
      r == match rounds[0].wait
           case Reaped(status) => if status == ExitCode(0) then Triggered else CommandFailed
           case WaitFailed => CommandFailed
           case StillRunning => Triggered
           case Interrupted => Triggered
  {}

  /** A child that is seen to fail before anything else decides makes the shutdown fail. */
  lemma ObservedFailureIsReported(deadline: uint64, rounds: seq<Round>, i: nat)
    requires i < |rounds| && rounds[i].wait.Reaped? && rounds[i].wait.status != ExitCode(0)
    requires Undecided(deadline, rounds[..i])
    ensures DecidesFirst(deadline, rounds, i) && Decision(deadline, rounds[i]) == CommandFailed
  {}

  /** An undecided child is believed to have started only after the grace period, unless the
      host itself fails. */
  lemma StartBelievedLate(deadline: uint64, r: Round)
    requires r.wait == StillRunning && r.clock < UINT64_MAX && r.sleepOk
    ensures Decision(deadline, r) == Triggered <==> r.clock >= deadline
  {}

  function Interruptions(rounds: seq<Round>): nat {
    if rounds == [] then 0
    else (if rounds[0].wait == Interrupted then 1 else 0) + Interruptions(rounds[1..])
  }

  /** Every sleep advances the clock: readings in consecutive completed rounds increase. */
  predicate Advancing(last: int, rounds: seq<Round>)
    decreases |rounds|
  {
    rounds == []
    || (if rounds[0].wait == StillRunning then rounds[0].clock > last && Advancing(rounds[0].clock, rounds[1..])
        else Advancing(last, rounds[1..]))
  }

  lemma {:induction false} UndecidedIsShort(deadline: uint64, last: int, rounds: seq<Round>)
    requires last < deadline && Advancing(last, rounds) && Undecided(deadline, rounds)
    ensures |rounds| <= Interruptions(rounds) + (deadline - 1 - last)
    decreases |rounds|
  {
    if rounds != [] {
      assert Decision(deadline, rounds[0]) == NoAction;
      assert forall k: nat :: k < |rounds| - 1 ==> rounds[1..][k] == rounds[k + 1];
      UndecidedIsShort(deadline, if rounds[0].wait == StillRunning then rounds[0].clock else last, rounds[1..]);
    }
  }

  /** Termination: with finitely many interruptions and a clock that every sleep advances, the
      observation decides within interruptions + grace + 1 rounds. */
  lemma ObservationTerminates(start: uint64, rounds: seq<Round>)
    requires start + STARTUP_GRACE_MS <= UINT64_MAX
    requires Advancing(start - 1, rounds)
    requires |rounds| > Interruptions(rounds) + STARTUP_GRACE_MS
    ensures !Undecided(start + STARTUP_GRACE_MS, rounds)
  {
    if Undecided(start + STARTUP_GRACE_MS, rounds) {
      UndecidedIsShort(start + STARTUP_GRACE_MS, start - 1, rounds);
    }
  }

  // ---- Triggering ----

  function ShutdownArguments(useSystemctl: bool): seq<Option<string>> {
    if useSystemctl then [Some("/usr/bin/systemctl"), Some("poweroff"), None, None]
    else [Some("/sbin/shutdown"), Some("-h"), Some("now"), None]
  }

  /** `shutdown_select_argv`: a NULL-terminated argument vector, for true-off mode only. */
  method SelectArgv(mode: ShutdownMode, useSystemctl: bool, argv: array<Option<string>>) returns (ok: bool)
    modifies argv
    ensures ok <==> argv.Length >= ARGV_SIZE && mode == TrueOff
    ensures argv.Length < ARGV_SIZE ==> argv[..] == old(argv[..])
    ensures ok ==> argv[..4] == ShutdownArguments(useSystemctl)
    ensures ok ==> forall i: nat :: ARGV_SIZE <= i < argv.Length ==> argv[i] == None
  {
    if argv.Length < ARGV_SIZE { return false; }
    for i := 0 to argv.Length
      invariant forall k: nat :: k < i ==> argv[k] == None
    {
      argv[i] := None;
    }
    argv[0] := Some(if useSystemctl then "/usr/bin/systemctl" else "/sbin/shutdown");
    if mode != TrueOff { return false; }
    if useSystemctl {
      argv[1] := Some("poweroff");
    } else {
      argv[1] := Some("-h");
      argv[2] := Some("now");
    }
    ok := true;
  }

  /** What a shutdown in the given mode comes to, if its command comes to `command`. */
  function TriggerResult(mode: ShutdownMode, command: CommandResult): CommandResult {
    if mode == TrueOff then command else NoAction
  }

  /** `shutdown_trigger`: `ran` is the command line that was started, if any. */
  method Trigger(mode: ShutdownMode, useSystemctl: bool, spawned: bool, start: uint64, rounds: seq<Round>)
    returns (r: CommandResult, ran: seq<Option<string>>)
    ensures mode != TrueOff ==> r == NoAction && ran == []
    ensures mode == TrueOff && useSystemctl ==> ran == [Some("/usr/bin/systemctl"), Some("poweroff"), None, None]
    ensures mode == TrueOff && !useSystemctl ==> ran == [Some("/sbin/shutdown"), Some("-h"), Some("now"), None]
    ensures mode == TrueOff ==> if spawned then Observed(start, rounds, r) else r == CommandFailed
    ensures forall command: CommandResult ::
      (if spawned then Observed(start, rounds, command) else command == CommandFailed) ==> r == TriggerResult(mode, command)
  {
    ran := [];
    if mode == LogOnly { return NoAction, []; }
    if mode == DryRun { return NoAction, []; }
    var argv := new Option<string>[ARGV_SIZE](_ => None);
    var ok := SelectArgv(mode, useSystemctl, argv);
    ran := argv[..];
    assert argv[..] == argv[..ARGV_SIZE];
    if !spawned { return CommandFailed, ran; }
    r := ObserveStartup(start, rounds);
    forall command | Observed(start, rounds, command) ensures r == command {
      ObservationDetermined(start, rounds, r, command);
    }
  }
}
