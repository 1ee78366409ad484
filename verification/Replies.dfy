/** Replies: what draining the socket does, which ping a reply is credited to, and the packet
    that is on the wire. */
module Replies {
  import opened Machine
  import opened Settings
  import opened Icmp
  import opened Shutdown
  import opened History
  import opened ReactorSpec
  import Lawful
  import opened Refinement
  import opened Runs

  /** Draining looks at inbox[i]: it is within the budget, and everything before it was read
      and ignored. */
  predicate Reaches(c: Setup, s: State, inbox: seq<Arrival>, budget: nat, i: nat) {
    && i < budget && i < |inbox|
    && forall k: nat :: k < i ==> inbox[k].Packet? && !IsMatch(c, s, inbox[k])
  }

  function Credited(s: State, now: uint64): State {
    ClearPing(PingSuccess(s, now, Latency(s.ping.sendTime, now)))
  }

  /** Draining is decided by the first arrival that is not ignorable, if it is within the
      budget; otherwise nothing changes. */
  lemma {:induction false} DrainOutcome(c: Setup, s: State, now: uint64, inbox: seq<Arrival>, budget: nat)
    ensures forall i: nat :: Reaches(c, s, inbox, budget, i) && IsMatch(c, s, inbox[i]) ==>
      Drain(c, s, now, inbox, budget) == (Credited(s, now), Continue)
    ensures forall i: nat :: Reaches(c, s, inbox, budget, i) && inbox[i].ReceiveFault? ==>
      Drain(c, s, now, inbox, budget) == (ClearPing(s), Error)
    ensures (forall i: nat :: Reaches(c, s, inbox, budget, i) ==> !IsMatch(c, s, inbox[i]) && !inbox[i].ReceiveFault?) ==>
      Drain(c, s, now, inbox, budget) == (s, Continue)
    decreases budget
  {
    if budget > 0 && inbox != [] {
      var rest := inbox[1..];
      DrainOutcome(c, s, now, rest, budget - 1);
      if inbox[0].Packet? && !IsMatch(c, s, inbox[0]) {
        forall i: nat | 0 < i ensures Reaches(c, s, inbox, budget, i) <==> Reaches(c, s, rest, budget - 1, i - 1) {
          ReachesRest(c, s, inbox, budget, i);
        }
        forall i: nat | Reaches(c, s, rest, budget - 1, i)
          ensures Reaches(c, s, inbox, budget, i + 1) && inbox[i + 1] == rest[i]
        {
          ReachesRest(c, s, inbox, budget, i + 1);
        }
      } else {
        assert forall i: nat :: Reaches(c, s, inbox, budget, i) ==> i == 0;
        assert Reaches(c, s, inbox, budget, 0);
      }
    }
  }

  lemma ReachesRest(c: Setup, s: State, inbox: seq<Arrival>, budget: nat, i: nat)
    requires budget > 0 && inbox != [] && 0 < i
    requires inbox[0].Packet? && !IsMatch(c, s, inbox[0])
    ensures Reaches(c, s, inbox, budget, i) <==> Reaches(c, s, inbox[1..], budget - 1, i - 1)
  {}

  /** While no ping waits, no packet changes the metrics, the failure count, the countdown or
      the history. */
  lemma {:induction false} UnawaitedPacketsIgnored(c: Setup, s: State, now: uint64, inbox: seq<Arrival>, budget: nat)
    requires !s.ping.waiting
    ensures var s' := Drain(c, s, now, inbox, budget).0;
      s' == s || s' == ClearPing(s)
  {
    if budget > 0 && inbox != [] {
      UnawaitedPacketsIgnored(c, s, now, inbox[1..], budget - 1);
    }
  }

  // ---- The packet on the wire ----

  /** The buffer holds the payload pattern and, once a number has been drawn, a well-formed
      request with the run's id and that number. */
  predicate BufferOk(c: Setup, s: State) {
    && PayloadPattern(s.buffer)
    && (s.sequence != 0 ==> WellFormedRequest(c.dest.family, c.id, s.sequence, s.buffer[..PACKET_SIZE]))
  }

  predicate SamePacket(s: State, s': State) {
    s'.buffer == s.buffer && s'.sequence == s.sequence
  }

  lemma {:induction false} DrainSamePacket(c: Setup, s: State, now: uint64, inbox: seq<Arrival>, budget: nat)
    ensures SamePacket(s, Drain(c, s, now, inbox, budget).0)
  {
    if budget > 0 && inbox != [] {
      DrainSamePacket(c, s, now, inbox[1..], budget - 1);
    }
  }

  lemma CountdownSamePacket(c: Setup, s: State, now: uint64, command: CommandResult)
    ensures SamePacket(s, HandleCountdown(c, s, now, command).0)
  {}

  lemma TimeoutSamePacket(c: Setup, s: State, now: uint64, command: CommandResult)
    ensures SamePacket(s, HandlePingTimeout(c, s, now, command).0)
  {}

  lemma SchedulerBufferOk(c: Setup, s: State, now: uint64, sendOk: bool)
    requires BufferOk(c, s)
    ensures BufferOk(c, HandleScheduler(c, s, now, sendOk).0)
  {
    var s' := HandleScheduler(c, s, now, sendOk).0;
    if !SamePacket(s, s') {
      var number := NextSequence(s.sequence);
      RequestIsWellFormed(c.dest.family, c.id, number, s.buffer);
    }
  }

  lemma DueWorkBufferOk(c: Setup, s: State, t: Tick)
    requires BufferOk(c, s)
    ensures BufferOk(c, RunDueWork(c, s, t).0)
  {
    CountdownSamePacket(c, s, s.now, t.elapseCommand);
    var s2 := HandleWatchdog(HandleCountdown(c, s, s.now, t.elapseCommand).0, s.now, t.watchdogOk);
    assert SamePacket(s, s2);
    TimeoutSamePacket(c, s2, s.now, t.thresholdCommand);
    var s3 := HandlePingTimeout(c, s2, s.now, t.thresholdCommand).0;
    assert BufferOk(c, s3);
    SchedulerBufferOk(c, s3, s.now, t.sendOk);
  }

  lemma StepBufferOk(c: Setup, s: State, t: Tick)
    requires BufferOk(c, s)
    ensures BufferOk(c, Step(c, s, t).0)
  {
    var s0 := s.(now := Refresh(s.now, t.clock));
    assert BufferOk(c, s0);
    DueWorkBufferOk(c, s0, t);
    PollSamePacket(c, RunDueWork(c, s0, t).0, t);
  }

  lemma PollSamePacket(c: Setup, s: State, t: Tick)
    ensures SamePacket(s, HandlePoll(c, s, t).0)
  {
    var s' := s.(now := Refresh(s.now, t.wake), stopFlag := s.stopFlag || t.signal == Terminate);
    DrainSamePacket(c, s', s'.now, t.inbox, MAX_REPLY_DRAIN_PER_TICK);
  }

  /** On every run, and even behind a failed send, the send buffer is a well-formed request. */
  lemma {:induction false} PacketWellFormed(c: Setup, p: Plan, buffer: SendBuffer, trace: seq<Tick>)
    requires PayloadPattern(buffer)
    ensures BufferOk(c, Run(c, p, buffer, trace).0)
  {
    if trace != [] {
      var front := trace[..|trace| - 1];
      PacketWellFormed(c, p, buffer, front);
      StepBufferOk(c, Run(c, p, buffer, front).0, trace[|trace| - 1]);
    }
  }

  // ---- Crediting ----

  lemma SmallPacketsWhole(f: Family, packet: seq<byte>, message: seq<byte>)
    requires Delivers(f, packet, message) && |message| == PACKET_SIZE
    ensures HEADER_SIZE <= |packet| <= RECEIVE_BUFFER_SIZE && Received(packet) == packet
  {}

  /** Late replies go to the right ping: in a run with a ping in flight, the peer's answer to
      ping number j is accepted exactly when j agrees with the number of pings sent so far
      modulo 65535 - so a late answer is mistaken for the current one only if at least 65535
      pings lie between them. */
  lemma ReplyMatchesItsPing(c: Setup, p: Plan, buffer: SendBuffer, trace: seq<Tick>, j: nat,
                            request: seq<byte>, reply: seq<byte>, a: Arrival)
    requires IsRun(c, p, buffer, trace) && Run(c, p, buffer, trace).1 == Running
    requires Run(c, p, buffer, trace).0.ping.waiting
    requires 0 < j && WellFormedRequest(c.dest.family, c.id, SequenceOf(j), request)
    requires IsEchoReplyTo(c.dest.family, reply, request)
    requires a.Packet? && SourceMatches(c.dest, a.source) && Delivers(c.dest.family, a.bytes, reply)
    ensures var s := Run(c, p, buffer, trace).0;
      IsMatch(c, s, a) <==> j % 0xFFFF == Count(s.log, ASend) % 0xFFFF
  {
    var s := Run(c, p, buffer, trace).0;
    RunReplays(c, p, buffer, trace);
    Lawful.TotalsAreCounts(p, s.log);
    SmallPacketsWhole(c.dest.family, a.bytes, reply);
    ReplyRoundTrip(c.dest.family, c.id, SequenceOf(j), request, reply, a.bytes, c.id, s.ping.expected);
    SequenceCollides(j, Count(s.log, ASend));
  }

  /** In a state that replays its history, the peer's answer to the packet in the send buffer is
      the reply waited for. */
  lemma OwnAnswerMatches(c: Setup, p: Plan, s: State, reply: seq<byte>, a: Arrival)
    requires Fits(c, p) && Sensible(p) && Active(p, s) && BufferOk(c, s) && s.ping.waiting
    requires IsEchoReplyTo(c.dest.family, reply, s.buffer[..PACKET_SIZE])
    requires a.Packet? && SourceMatches(c.dest, a.source) && Delivers(c.dest.family, a.bytes, reply)
    ensures IsMatch(c, s, a) && s.ping.sendTime <= s.now
  {
    Lawful.TotalsAreCounts(p, s.log);
    NextOfSequence(LedgerOf(p, s.log).sends - 1);
    SmallPacketsWhole(c.dest.family, a.bytes, reply);
    ReplyRoundTrip(c.dest.family, c.id, s.sequence, s.buffer[..PACKET_SIZE], reply, a.bytes, c.id, s.sequence);
  }

  /** Round trip through the whole reactor: the peer's answer to the packet in the send buffer,
      behind at most 31 packets that are not for us, ends the wait as a success. The countdown
      is cancelled, the failure count is zero and the latency is the time since the send. */
  lemma AnswerIsCredited(c: Setup, p: Plan, buffer: SendBuffer, trace: seq<Tick>, now: uint64,
                         inbox: seq<Arrival>, i: nat, reply: seq<byte>)
    requires IsRun(c, p, buffer, trace) && Run(c, p, buffer, trace).1 == Running
    requires Run(c, p, buffer, trace).0.ping.waiting && Run(c, p, buffer, trace).0.now <= now
    requires Reaches(c, Run(c, p, buffer, trace).0, inbox, 32, i)
    requires IsEchoReplyTo(c.dest.family, reply, Run(c, p, buffer, trace).0.buffer[..PACKET_SIZE])
    requires inbox[i].Packet? && SourceMatches(c.dest, inbox[i].source)
    requires Delivers(c.dest.family, inbox[i].bytes, reply)
    ensures var s := Run(c, p, buffer, trace).0;
      var (s', r) := Drain(c, s, now, inbox, 32);
      r == Continue && IsCredited(s, now, s')
  {
    var s := Run(c, p, buffer, trace).0;
    RunReplays(c, p, buffer, trace);
    PacketWellFormed(c, p, buffer, trace);
    OwnAnswerMatches(c, p, s, reply, inbox[i]);
    DrainOutcome(c, s, now, inbox, 32);
    CreditedState(s, now);
  }

  /** The ping waiting in `s` has ended as a success at `now`. */
  predicate IsCredited(s: State, now: uint64, s': State) {
    && !s'.ping.waiting && !s'.shutdown.pending && s'.fails == 0
    && s'.metrics.total == s.metrics.total + 1
    && s'.metrics.successful == s.metrics.successful + 1
    && s'.metrics.totalLatency == s.metrics.totalLatency + (now - s.ping.sendTime)
    && s'.log != [] && Last(s'.log) == Succeeded(now, Latency(s.ping.sendTime, now))
    && s'.log == s.log + (if s.shutdown.pending then [Cancelled(now)] else []) + [Last(s'.log)]
  }

  lemma CreditedState(s: State, now: uint64)
    requires s.ping.sendTime <= now
    ensures IsCredited(s, now, Credited(s, now))
  {}

  /** The state in which iteration `t` goes to wait, and at what time it wakes up. */
  function Waiting(c: Setup, s: State, t: Tick): State { RunDueWork(c, s.(now := Refresh(s.now, t.clock)), t).0 }

  function WakeTime(s: State, t: Tick): uint64 { Refresh(Refresh(s.now, t.clock), t.wake) }

  /** The same for a whole iteration of a run: if the ping still waits after the due work, the
      host works, and the answer is among the first 32 packets with nothing but packets that are
      not for us in front, then the iteration ends with the ping credited - and the run ends
      only if a signal arrived with it. */
  lemma AnswerEndsWait(c: Setup, p: Plan, buffer: SendBuffer, trace: seq<Tick>, t: Tick, i: nat, reply: seq<byte>)
    requires IsRun(c, p, buffer, trace + [t]) && Run(c, p, buffer, trace).1 == Running
    requires t.pollOk && t.signalFdOk && t.socketFdOk && t.readable
    requires var s0 := Run(c, p, buffer, trace).0; var s := Waiting(c, s0, t);
      && RunDueWork(c, s0.(now := Refresh(s0.now, t.clock)), t).1 == Continue
      && s.ping.waiting
      && i < 32 && i < |t.inbox|
      && (forall k: nat :: k < i ==> t.inbox[k].Packet? && !IsMatch(c, s, t.inbox[k]))
      && t.inbox[i].Packet? && SourceMatches(c.dest, t.inbox[i].source)
      && Delivers(c.dest.family, t.inbox[i].bytes, reply)
      && IsEchoReplyTo(c.dest.family, reply, s.buffer[..PACKET_SIZE])
    ensures var s0, (s', status) := Run(c, p, buffer, trace).0, Run(c, p, buffer, trace + [t]);
      && IsCredited(Waiting(c, s0, t), WakeTime(s0, t), s')
      && status == if t.signal == Terminate then Exited(0) else Running
  {
    RunSnoc(c, p, buffer, trace, t);
    RunReplays(c, p, buffer, trace);
    PacketWellFormed(c, p, buffer, trace);
    var s0 := Run(c, p, buffer, trace).0;
    var s1 := s0.(now := Refresh(s0.now, t.clock));
    assert Active(p, s1) && BufferOk(c, s1);
    DueWorkReplays(c, p, s1, t);
    DueWorkBufferOk(c, s1, t);
    PollCredits(c, p, Waiting(c, s0, t), t, i, reply);
  }

  lemma PollCredits(c: Setup, p: Plan, s: State, t: Tick, i: nat, reply: seq<byte>)
    requires Fits(c, p) && Sensible(p) && Active(p, s) && BufferOk(c, s) && s.ping.waiting && s.now <= t.wake
    requires t.pollOk && t.signalFdOk && t.socketFdOk && t.readable
    requires Reaches(c, s, t.inbox, 32, i)
    requires t.inbox[i].Packet? && SourceMatches(c.dest, t.inbox[i].source)
    requires Delivers(c.dest.family, t.inbox[i].bytes, reply)
    requires IsEchoReplyTo(c.dest.family, reply, s.buffer[..PACKET_SIZE])
    ensures var (s', r) := HandlePoll(c, s, t);
      && r == Continue
      && IsCredited(s, Refresh(s.now, t.wake), s')
      && (s'.stopFlag <==> s.stopFlag || t.signal == Terminate)
  {
    var s2 := s.(now := Refresh(s.now, t.wake), stopFlag := s.stopFlag || t.signal == Terminate);
    assert Active(p, s2) && BufferOk(c, s2);
    OwnAnswerMatches(c, p, s2, reply, t.inbox[i]);
    assert Reaches(c, s2, t.inbox, MAX_REPLY_DRAIN_PER_TICK, i);
    DrainOutcome(c, s2, s2.now, t.inbox, MAX_REPLY_DRAIN_PER_TICK);
    CreditedState(s2, s2.now);
  }

  // ---- Packets from other hosts ----

  /** Nothing there, or a packet from another address. */
  predicate Foreign(c: Setup, a: Arrival) {
    a.WouldBlock? || (a.Packet? && (a.source.family != c.dest.family || a.source.address != c.dest.address))
  }

  /** No packet of the target is among the first 32 to be read. */
  predicate OnlyForeign(c: Setup, inbox: seq<Arrival>) {
    forall i: nat :: i < 32 && i < |inbox| ==> Foreign(c, inbox[i])
  }

  lemma ForeignDrained(c: Setup, s: State, now: uint64, inbox: seq<Arrival>)
    requires OnlyForeign(c, inbox)
    ensures Drain(c, s, now, inbox, MAX_REPLY_DRAIN_PER_TICK) == (s, Continue)
  {
    forall i: nat | Reaches(c, s, inbox, MAX_REPLY_DRAIN_PER_TICK, i)
      ensures !IsMatch(c, s, inbox[i]) && !inbox[i].ReceiveFault?
    {
      assert Foreign(c, inbox[i]);
    }
    DrainOutcome(c, s, now, inbox, MAX_REPLY_DRAIN_PER_TICK);
  }

  /** Packets from other hosts change nothing. An iteration that receives only such packets
      leaves the ping, the countdown, the failure count, the metrics and the history as the due
      work left them. */
  lemma ForeignPacketsChangeNothing(c: Setup, p: Plan, buffer: SendBuffer, trace: seq<Tick>, t: Tick)
    requires Run(c, p, buffer, trace).1 == Running && OnlyForeign(c, t.inbox)
    ensures var s, s' := Waiting(c, Run(c, p, buffer, trace).0, t), Run(c, p, buffer, trace + [t]).0;
      && s'.ping == s.ping && s'.shutdown == s.shutdown && s'.fails == s.fails
      && s'.metrics == s.metrics && s'.log == s.log && s'.nextPing == s.nextPing
  {
    RunSnoc(c, p, buffer, trace, t);
    var s := Waiting(c, Run(c, p, buffer, trace).0, t);
    var s2 := s.(now := Refresh(s.now, t.wake), stopFlag := s.stopFlag || t.signal == Terminate);
    ForeignDrained(c, s2, s2.now, t.inbox);
  }

  /** The iteration as it would be if the packets from other hosts had not arrived. */
  function Screened(c: Setup, t: Tick): Tick {
    if OnlyForeign(c, t.inbox) then t.(readable := false, inbox := []) else t
  }

  /** Noninterference: to a run it makes no difference whether the packets of other hosts arrive
      or not, unless they crowd out a packet of the target. */
  lemma {:induction false} ForeignPacketsInvisible(c: Setup, p: Plan, buffer: SendBuffer, trace: seq<Tick>)
    ensures Run(c, p, buffer, trace)
         == Run(c, p, buffer, seq(|trace|, k requires 0 <= k < |trace| => Screened(c, trace[k])))
  {
    if trace != [] {
      var front, t := trace[..|trace| - 1], trace[|trace| - 1];
      var screened := seq(|trace|, k requires 0 <= k < |trace| => Screened(c, trace[k]));
      ForeignPacketsInvisible(c, p, buffer, front);
      assert screened[..|trace| - 1] == seq(|front|, k requires 0 <= k < |front| => Screened(c, front[k]));
      ScreenedStep(c, Run(c, p, buffer, front).0, t);
    }
  }

  lemma ScreenedStep(c: Setup, s: State, t: Tick)
    ensures Step(c, s, Screened(c, t)) == Step(c, s, t)
  {
    if OnlyForeign(c, t.inbox) {
      var s1 := Waiting(c, s, t);
      var s2 := s1.(now := Refresh(s1.now, t.wake));
      var s3 := if t.signal == Terminate then s2.(stopFlag := true) else s2;
      ForeignDrained(c, s3, s3.now, t.inbox);
    }
  }
}
