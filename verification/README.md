# OpenUPS: a verified model of the monitor

OpenUPS pings one target over ICMP and shuts the host down when enough pings in a row have
failed. This project models its decision-making parts in Dafny and proves what an operator relies
on: when a shutdown may happen, that it does happen, and that a reply is never credited to the
wrong ping.

`dafny verify dfyconfig.toml` checks everything.

## How it is organised

| file | models |
|---|---|
| `Machine.dfy`, `Settings.dfy` | C integer types; configuration, validation, derived durations |
| `Checksum.dfy`, `Icmp.dfy`, `Bpf.dfy` | the Internet checksum, echo requests and replies, the two socket filters |
| `Shutdown.dfy`, `Systemd.dfy` | running the shutdown command; notifications, status cache, watchdog interval |
| `History.dfy` | timestamped histories, what they determine (the *ledger*), and the grammar of legal histories |
| `ReactorSpec.dfy`, `Reactor.dfy` | the reactor as functions on values; the reactor as an object updated in place, proved equal |
| `Refinement.dfy`, `Runs.dfy` | every run has a legal history and the state is its replay; guarantees of whole runs |
| `Lawful.dfy` | counting, ordering and timing laws of legal histories |
| `Timing.dfy`, `Liveness.dfy`, `Replies.dfy` | poll timeouts and watchdog cadence; the exact moment of shutdown; crediting replies and ignoring foreign packets |
| `Exits.dfy` | how runs end: signals, a failing host, the outcome of the shutdown command |

The environment is a trace: each loop iteration (`ReactorSpec.Tick`) is given its clock readings
(UINT64_MAX for a failed one), the result of a shutdown command, of notifications, of the send and
of `poll`, a signal, and the packets in the socket. Nothing is assumed about it except where a
theorem says so; the only standing assumption is that a readable monotonic clock does not run
backwards (`Runs.Monotonic`). `get_monotonic_ms` can fall back from the coarse to the precise
monotonic clock; should that ever make readings step back, the theorems about runs do not apply.

The central argument is a refinement. A history is a sequence of timestamped events (sent,
succeeded, failed, armed, cancelled, elapsed, attempted, ...). `History.Legal` is a grammar that says
which event may come next and which one *must* come at once. `Runs.RunReplays` shows that every run
has a legal history and that the reactor's state is at all times a function of it; everything else
about runs then follows from induction over legal histories.

One place where the code and its documentation differ: the documentation calls the interval the
time between two pings. The catch-up rule of the scheduler keeps that only for a ping that was sent
on time or more than one interval late; `Timing.FullIntervalIff` gives the exact condition and
`Timing.ShortIntervalExample` an input for which it fails. What does hold is `Runs.SendRate`.

## Model

| member | source | states |
|---|---|---|
| Settings.AcceptedExactly | src/config.c:515-564 | a configuration passes validation exactly when all its numbers are in the documented ranges, the timeout is below the interval, and log-only has no delay |
| Settings.ComplaintIsTrue | src/config.c:527-563 | the complaint reported for a rejected configuration is true of it and the first in order; the overflow check is never the reason |
| Settings.AcceptedDurations | src/monitor.c:301-311 | accepted configurations give exact, unsaturated durations: interval neither 0 nor UINT64_MAX, a reply deadline always before the next slot, a positive delay neither 0 nor UINT64_MAX |
| Checksum.Calculate | src/icmp.c:15-34 | the two loops, with the 32-bit accumulator, compute the folded and complemented word sum |
| Checksum.SumWords | src/icmp.c:17-27 | the word loop, with its odd last byte and its 32-bit accumulator, computes the word sum modulo 2^32 |
| Checksum.FoldCarries | src/icmp.c:29-31 | the carry loop ends with the folded sum |
| Checksum.FoldCongruent | src/icmp.c:29-33 | the folded value has 16 bits, is congruent to the sum modulo 65535, and is zero only for a zero sum |
| Checksum.NoOverflow | src/icmp.c:17-27 | up to 65537 words the 32-bit accumulator cannot wrap |
| Checksum.SelfVerifies | src/icmp.c:251-257 | storing the checksum in a zeroed field at an even offset makes the checksum of the whole buffer 0 (section 1 of RFC 1071) |
| Checksum.OnlyChecksumVerifies | src/icmp.c:15-34 | no other word verifies, apart from the other representation of zero |
| Checksum.ByteOrderIndependent | src/icmp.c:12-14 | a big-endian host summing and storing native words writes the same two bytes (section 2(B) of RFC 1071) |
| Checksum.OddTailIsPadded | src/icmp.c:24-27 | an odd last byte counts like the same buffer padded with a zero byte |
| Checksum.StandardExample | src/icmp.c:15-34 | the worked example in section 3 of RFC 1071 gives its sum and its two checksum bytes |
| Icmp.NextOfSequence | src/icmp.c:212-224 | the k-th number of a run is ((k-1) mod 65535)+1 and never 0 |
| Icmp.SequenceCollides | src/icmp.c:213-224 | two pings carry the same number exactly when their indices agree modulo 65535 |
| Icmp.Pinger.AdvanceSequence | src/icmp.c:213-224 | the counter wraps at 16 bits and skips 0 |
| Icmp.Pinger.PreparePacket | src/monitor.c:462-480 | the payload behind the header is the counting pattern and the packet has 64 bytes |
| Icmp.Pinger.SendEcho | src/icmp.c:226-274 | the whole new buffer and counter; nothing changes for an invalid length |
| Icmp.RequestIsWellFormed | src/icmp.c:241-258 | the packet built is an echo request with the given id and number, untouched payload and, for IPv4, a verifying checksum (RFC 792) |
| Icmp.ReplyRoundTrip | src/icmp.c:80-134 | the answer to a request, behind any IPv4 header of 5 to 15 words, is accepted exactly by a pinger waiting for that id and number |
| Icmp.ParseBehindHeader | src/icmp.c:93-111 | behind a valid header of any length, acceptance depends on the message alone |
| Icmp.MatchedExactly | src/icmp.c:80-134 | acceptance means: an ICMP header of 5 to 15 words in front (IPv4), and behind it an echo reply with the id and number waited for |
| Icmp.OwnRequestIgnored | src/icmp.c:101-103 | our own request, looped back, is ignored |
| Icmp.MatchIdentifies | src/icmp.c:80-134 | a packet is accepted for at most one id and number |
| Icmp.ForeignPacketIgnored | src/icmp.c:59-78 | a packet of another address family or another address is ignored, whatever it contains |
| Icmp.ClassifiedExactly | src/icmp.c:276-320 | a packet is accepted exactly if it comes from the target's family and address and its first 1500 bytes parse as the awaited reply |
| Bpf.LowNibble | src/icmp.c:165 | masking with 0x0f gives the header length nibble |
| Bpf.Ipv4FilterAccepts | src/icmp.c:162-173 | the IPv4 filter keeps exactly the packets whose byte behind the IP header exists and is an echo reply type |
| Bpf.Ipv6FilterAccepts | src/icmp.c:182-188 | the IPv6 filter keeps exactly the packets that start with an echo reply type |
| Bpf.FilterAgreesWithParser | src/icmp.c:159-196 | no packet from which the parser would accept a reply, even truncated, is dropped or cut below the receive buffer |
| Bpf.DroppedMeansIgnored | src/icmp.c:305-316 | a dropped packet would have been ignored by the receiver |
| Shutdown.ObserveStartup | src/shutdown.c:129-200 | the answer is that of the first decisive round, with the two special starts; what it means is `Shutdown.ObservedByContents` and `Shutdown.ObservedWithoutDeadline` |
| Shutdown.ObservationDetermined | src/shutdown.c:129-200 | that result is unique, and never "no action" once the loop has ended |
| Shutdown.ObservedByContents | src/shutdown.c:100-199 | a clean exit, the end of 1000 ms, an unreadable clock or a failed sleep mean started; any other end of the child or a failed wait means failed; otherwise the question is open |
| Shutdown.ObservedWithoutDeadline | src/shutdown.c:136-164 | without a clock one look at the child decides, and only a reported failure counts as one; an overflowing deadline means started |
| Shutdown.ObservedFailureIsReported | src/shutdown.c:100-127 | a child seen to fail before anything else decides makes the shutdown fail |
| Shutdown.StartBelievedLate | src/shutdown.c:184-193 | a silent child is believed to run only after the grace period |
| Shutdown.ObservationTerminates | src/shutdown.c:166-199 | with finitely many interruptions and a clock that sleeps advance, the loop decides within interruptions + 1001 rounds |
| Shutdown.SelectArgv | src/shutdown.c:29-52 | the argument vector for true-off mode, NULL-terminated; nothing is written into a vector that is too short |
| Shutdown.Trigger | src/shutdown.c:250-278 | dry-run and log-only run no command; true-off runs the selected command line and reports what was observed of it, which is the outcome the reactor acts on |
| Systemd.MessageCarriesStatus | src/systemd.c:206-208 | the message buffer never shortens the status beyond 239 characters |
| Systemd.ThreeAttempts | src/systemd.c:94-113 | a message goes through at the first, second or third attempt, behind interruptions or congestion only |
| Systemd.Notifier.SendNotify | src/systemd.c:86-116 | success exactly when one of at most three attempts goes through behind retryable errors |
| Systemd.Notifier.Status | src/systemd.c:190-216 | the new cache and result for every text, clock reading and socket behaviour; by `Systemd.CacheIsLastDelivery` that cache is the last delivery |
| Systemd.Notifier.Watchdog | src/systemd.c:222-228 | needs an enabled notifier with a window |
| Systemd.CacheMatchesShown | src/systemd.c:209-214 | over any calls the cached text is the one last delivered |
| Systemd.DedupAgreesWithSending | src/systemd.c:190-216 | whenever a call succeeds the manager shows the requested text cut to 239 characters, with any clock; a failed call changes nothing |
| Systemd.CacheIsLastDelivery | src/systemd.c:190-216 | the cached text and stamp are those of the last delivery, as determined from the list of calls alone; suppressed and failed calls move neither |
| Systemd.DeliveriesSpaced | src/systemd.c:201-204 | consecutive deliveries of one text are 2000 ms apart on a forward clock |
| Systemd.RepeatsSpaced | src/systemd.c:197-204 | on a forward clock a repeated text is sent again exactly when 2000 ms have passed since its last delivery |
| Systemd.WatchdogOffExactly | src/systemd.c:230-234 | the derived interval is 0 exactly for a disabled notifier or an absent window |
| Systemd.TwoIntervalsFitWindow | src/systemd.c:230-241 | two derived intervals fit the window exactly when it is at least 2 ms, and the interval is the largest such |
| Systemd.WindowNeverMissed | src/systemd.c:230-241 | processing and wakeups late by at most one interval in all never make a run miss the window |
| Reactor.Monitor.StateInit | src/monitor.c:148-159 | the state the loop starts from |
| Reactor.Monitor.LoopInit | src/monitor.c:775-810 | fails exactly on an unreadable clock or unusable interval; otherwise the boot state with a prepared packet |
| Reactor.Monitor.RecordSuccessMetrics | src/monitor.c:68-86 | a success enters total, sum and both extremes, and touches no other part of the state; the extremes and the mean are then right by `Lawful.LatencyExtremes` and `Lawful.LatencyTotal` |
| Reactor.Monitor.RecordFailureMetrics | src/monitor.c:88-94 | a failure enters total and failures and touches no other part of the state |
| Reactor.Monitor.PingArm | src/monitor.c:161-175 | arms the reply deadline unless it is out of range |
| Reactor.Monitor.PingClear | src/monitor.c:177-185 | the ping tracker is idle again, with the number 0 that no ping carries; nothing else changes |
| Reactor.Monitor.ShutdownArm | src/monitor.c:205-217 | starts the countdown unless its deadline is out of range |
| Reactor.Monitor.ShutdownClear | src/monitor.c:219-225 | the countdown, and nothing else, is gone |
| Reactor.Monitor.SchedulerAdvance | src/monitor.c:242-257 | moves to the slot bounded by `Timing.AdvanceWithinInterval`, or fails and keeps the old one when that is out of range |
| Reactor.Monitor.StateWaitTimeout | src/monitor.c:273-297 | the poll timeout that `Timing.WaitTimeoutIsNearest` characterises |
| Reactor.Monitor.ExecuteShutdown | src/monitor.c:320-338 | dry-run always stops the loop, true-off only if the command started; its outcome on runs is `Exits.AttemptsReportCommands` and `Exits.FailedCommandsNeverEndRun` |
| Reactor.Monitor.Cancel | src/monitor.c:340-351 | a pending countdown is cancelled, and nothing else |
| Reactor.Monitor.OnThreshold | src/monitor.c:353-392 | the threshold decision in all modes, including both fault branches |
| Reactor.Monitor.OnCountdownTick | src/monitor.c:394-409 | an elapsed countdown is cleared and acted on |
| Reactor.Monitor.OnPingSuccess | src/monitor.c:413-428 | a success zeroes the counter and cancels the countdown before it is recorded |
| Reactor.Monitor.OnPingFailure | src/monitor.c:430-443 | a failure raises the counter by one and is recorded once |
| Reactor.Monitor.OnPingTimeout | src/monitor.c:507-520 | an overdue ping fails, is cleared, and is judged against the threshold |
| Reactor.Monitor.Send | src/monitor.c:522-542 | a send draws a number, writes the packet and arms the deadline |
| Reactor.Monitor.OnScheduler | src/monitor.c:717-736 | a ping is sent when none waits and the slot is due |
| Reactor.Monitor.OnWatchdog | src/monitor.c:703-715 | a due notification that goes out restarts the interval; a failed one stays due |
| Reactor.Monitor.DrainReplies | src/monitor.c:544-572 | the loop over at most 32 packets has the effect that `Replies.DrainOutcome` describes; packets from other hosts have none by `Replies.ForeignPacketsInvisible` |
| Reactor.Monitor.DoDueWork | src/monitor.c:820-840 | countdown before watchdog before ping timeout before scheduler, ended by the first stop or error; nothing is left due by `Timing.DueWorkSettles` |
| Reactor.Monitor.OnPollEvents | src/monitor.c:738-773 | the clock is kept when it cannot be read, descriptor errors precede signals, and signals precede replies; a signal ends the run by `Exits.SignalEndsRun` |
| Reactor.Monitor.Iterate | src/monitor.c:934-954 | one iteration: errors exit with 1, a stop or a signal with 0 |
| Reactor.Monitor.ReactorRun | src/monitor.c:924-957 | the loop computes the run of the specification |
| Reactor.RunMonitor | src/monitor.c:924-957 | a fresh object that has run holds a legal history and has attempted no shutdown early |
| Refinement.BootReplays | src/monitor.c:148-159 | the boot state is the replay of the empty history |
| Refinement.CountdownReplays | src/monitor.c:394-409 | the countdown handler extends the history legally, the state stays its replay |
| Refinement.WatchdogReplays | src/monitor.c:703-715 | the same for the watchdog |
| Refinement.PingTimeoutReplays | src/monitor.c:507-520 | the same for ping timeouts |
| Refinement.ThresholdReplays | src/monitor.c:353-392 | the same for the threshold decision |
| Refinement.SchedulerReplays | src/monitor.c:717-736 | the same for the scheduler |
| Refinement.DrainReplays | src/monitor.c:544-572 | the same for received packets, whatever they contain |
| Refinement.SuccessReplays | src/monitor.c:413-428 | the same for a success |
| Lawful.TimesOrdered | src/monitor.c:617-627 | events are recorded in order of their times |
| Lawful.CounterIsTrailingRun | src/monitor.c:413-443 | the counter is the length of the current run of failures |
| Lawful.LogOnlyWarnings | src/monitor.c:360-365 | in log-only mode it is that length modulo the threshold, and warnings are the sum over all runs of length / threshold |
| Lawful.CountdownsBalance | src/monitor.c:205-235 | countdowns started = cancelled + elapsed + pending |
| Lawful.CountdownHasStart | src/monitor.c:366-392 | a pending deadline was fixed at the start of the countdown and nothing has moved it |
| Lawful.ElapseHasStart | src/monitor.c:394-409 | no success lies between the start and the end of an elapsed countdown |
| Lawful.AttemptNotEarly | src/monitor.c:353-409 | an attempt has threshold failures directly behind it and is not early |
| Lawful.AttemptsSpaced | src/monitor.c:320-338 | two attempts are at least the delay apart, and only failed true-off commands allow a second one |
| Lawful.DutyDischargedAtOnce | src/monitor.c:353-409 | what an event obliges the monitor to do happens next and at the same time |
| Lawful.ThresholdAnswered | src/monitor.c:353-392 | every failure that completes a run of threshold failures is answered at once |
| Lawful.SendNotEarly | src/monitor.c:242-257 | the k-th send is not before start + k * interval |
| Lawful.SendsSpaced | src/monitor.c:242-257 | send b is at least (b - a - 1) intervals after send a |
| Lawful.OnGridIffNeverLate | src/monitor.c:242-257 | the schedule is on the grid exactly when no send was more than one interval late |
| Lawful.SendNumbers | src/icmp.c:213-224 | the k-th send carries the k-th number |
| Lawful.NoFaultBelowLimit | src/monitor.c:372-384 | the reset-on-error branches are unreachable while the clock plus the delay is in range |
| Lawful.TotalsAreCounts | src/monitor.c:68-94 | counters are event counts; every ping sent has one outcome except the one in flight |
| Lawful.LatencyExtremes | src/monitor.c:68-86 | shortest and longest latency are attained bounds of all recorded ones |
| Lawful.LatencyTotal | src/monitor.c:68-86 | min * n <= total <= max * n |
| Runs.StepReplays | src/monitor.c:934-954 | one iteration keeps the history legal and the state its replay |
| Runs.ClockFollowsReadings | src/monitor.c:617-627 | the time of a running reactor is its latest reading that did not fail |
| Runs.RunReplays | src/monitor.c:924-957 | every run has a legal history; without an error its state is the replay; it exits with success exactly through a signal or a final attempt |
| Runs.NoPrematureShutdown | src/monitor.c:353-409 | in every environment, no attempt before start + (threshold-1)*interval + timeout + delay, and only behind threshold failures in a row |
| Runs.NoMissedShutdown | src/monitor.c:353-392 | the converse: reaching the threshold is always acted on at once |
| Runs.CounterRefinesHistory | src/monitor.c:413-443 | the counter, the warnings and the unreachability of faults, on runs |
| Runs.CountersFit | src/monitor.c:430-436 | the counter stays below INT_MAX for INT_MAX - 1 intervals; ping totals always fit 64 bits |
| Runs.PingsConserved | src/monitor.c:68-109 | sent = total + waiting, total = successful + failed, and the mean latency lies between the extremes |
| Runs.CountdownIntegrity | src/monitor.c:340-409 | balance, spacing of attempts, and an undisturbed start for every elapsed countdown |
| Runs.PendingDeadlineFixed | src/monitor.c:366-392 | a pending deadline is the one fixed at the start |
| Runs.SendRate | src/monitor.c:237-257 | rate bound, spacing and exact no-drift condition on runs |
| Runs.HealthyRunNeverFails | src/monitor.c:937-950 | a run fails only if a system call failed or the clock's range is exhausted |
| Exits.RunningMeansUndisturbed | src/monitor.c:738-773 | as long as a run goes on, no SIGINT or SIGTERM was read and no poll or descriptor has failed |
| Exits.SuccessHasReason | src/monitor.c:924-957 | exit code 0 only behind a termination signal or an attempt that ends the run; such an attempt always gives it |
| Exits.HealthyRunEnds | src/monitor.c:924-957 | on a working host the run ends with 0 exactly if a termination signal arrived or an attempt ended it, and goes on otherwise |
| Exits.SignalEndsRun | src/monitor.c:683-686 | a termination signal ends the run with 0 in the iteration in which it arrives |
| Exits.HostFaultEndsRun | src/monitor.c:746-770 | a failed poll, descriptor or receive ends the run with 1, unless an attempt due in the same iteration has ended it |
| Exits.FailedSendEndsRun | src/monitor.c:726-730 | a due ping that cannot be sent ends the run with 1 |
| Exits.AttemptsReportCommands | src/monitor.c:320-338 | every attempt belongs to one iteration, carries the reading at its top, and reports what that iteration's command came to |
| Exits.FailedCommandsNeverEndRun | src/monitor.c:331-335 | in true-off mode a run without a started command and without a signal never exits with 0 |
| Exits.CountSurvivesAttempt | src/monitor.c:331-335 | behind a failed attempt the counter is the count that led to it, at least the threshold, plus the failures since |
| Exits.FailedAttemptContinues | src/monitor.c:331-335 | an iteration whose command fails leaves a true-off run running |
| Exits.StartedCommandEndsRun | src/monitor.c:327-337 | an attempt whose command started, and any attempt in dry-run mode, ends the run with 0 at once |
| Exits.FinalMeansEnded | src/monitor.c:327-337 | the ledger calls a history final exactly if it holds an attempt behind which the program stops |
| Timing.WaitTimeoutIsNearest | src/monitor.c:133-146 | the poll timeout ends at the nearest deadline, cut off at INT_MAX |
| Timing.AdvanceWithinInterval | src/monitor.c:242-257 | the next slot lies in [now, now + interval] |
| Timing.FullIntervalIff | src/monitor.c:249-251 | it is a full interval away exactly for a send on time or more than one interval late |
| Timing.ShortIntervalExample | src/monitor.c:249-251 | a send 500 ms late is followed 500 ms later |
| Timing.DueWorkSettles | src/monitor.c:820-840 | after the due work the timeout passes no deadline and is 0 exactly when a due notification failed |
| Timing.NeverSpinsNorOversleeps | src/monitor.c:934-946 | the same in every iteration of every run |
| Timing.DueWorkWatchdog | src/monitor.c:703-715 | the due work notifies at most once: exactly when the notification is due and goes out; a failed one leaves the stamp alone |
| Timing.WatchdogCadence | src/monitor.c:259-271 | notifications are at least one interval and at most interval + processing + lateness apart |
| Liveness.SilentTargetShutsDown | src/monitor.c:924-957 | with a silent target the run ends with code 0 and an attempt at exactly start + (threshold-1)*interval + timeout + delay |
| Liveness.SilentRunExists | src/monitor.c:924-957 | such runs of every length exist |
| Liveness.StepOnSchedule | src/monitor.c:820-840 | one silent iteration keeps the exact schedule or stops at the exact moment |
| Replies.DrainOutcome | src/monitor.c:551-571 | the first arrival that cannot be ignored decides, if it is among the first 32 |
| Replies.UnawaitedPacketsIgnored | src/monitor.c:565-569 | no packet changes anything while no ping waits |
| Replies.PacketWellFormed | src/icmp.c:241-258 | on every run the send buffer holds a well-formed request with the current number |
| Replies.ReplyMatchesItsPing | src/icmp.c:104-109 | the answer to ping j completes the current ping exactly when they agree modulo 65535 |
| Replies.AnswerIsCredited | src/monitor.c:544-572 | the peer's answer to the packet in the buffer becomes a success with the right latency and cancels the countdown |
| Replies.AnswerEndsWait | src/monitor.c:738-773 | one iteration of a run that finds the answer among the first 32 packets, behind others that are not for us, credits it, and goes on unless a signal came with it |
| Replies.OwnAnswerMatches | src/icmp.c:305-316 | the answer to the packet in the send buffer is the reply the waiting ping expects |
| Replies.ForeignPacketsChangeNothing | src/monitor.c:544-572 | an iteration whose first 32 packets all come from other addresses changes no ping, countdown, counter, metric or history |
| Replies.ForeignPacketsInvisible | src/icmp.c:59-78 | noninterference: whole runs are the same with and without the packets of other hosts, unless they crowd out a packet of the target |

`Reactor.Monitor` contracts give the whole new state of the object, as a function of the old one
from `ReactorSpec`; what those functions guarantee is proved in the modules named above.

## Left out

- Sockets, `poll`, signalfd, `posix_spawn`, `waitpid`, clocks and environment variables: their answers are parameters of the model.
- Logging, statistics output and the formatted status texts; the results of status notifications, which the program discards.
- Option and environment parsing and address literals: string plumbing around library calls; `Settings.Target` stands for what `inet_pton` reports.
- NULL-argument guards and `sendto` on an unopened socket: not part of this model.
- Floating point: latencies are whole milliseconds, as the program computes them, and their mean is a real number without rounding; the success percentage is not modelled.
- READY and STOPPING notifications, which nothing depends on.
- Icmp.Pinger.SendEcho: the destination address and the socket are not modelled, so its contract says nothing about them.
- Shutdown.ObserveStartup: "no action" also stands for a trace that ends before the loop does, because the model's trace is finite.
- Systemd.Notifier.SendNotify: the sleep between two attempts is not modelled.
- Reactor.Monitor.ReactorRun: the signal channel's set-up and the final statistics are not modelled.
- Runs.CountersFit: the counter is unbounded in the model; the bound proved is what keeps the C `int` from overflowing.
