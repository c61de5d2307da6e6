# Mini-PGW: a verified model

The server takes UDP datagrams that carry a subscriber's IMSI in BCD, opens or refreshes a
session for it unless it is blacklisted, answers "created" or "rejected", times sessions out,
shuts them down gradually on request, and writes every event to a CDR log. This project models
that behaviour in Dafny and proves what holds of it in every run.

`dafny verify dfyconfig.toml` checks the whole project.

## How it is built

- `Imsi.dfy`: the IMSI value and the two nibble loops of its BCD form (section 8.3 of 3GPP TS 29.274).
- `Sessions.dfy`: sessions, events, and what each critical section of the session manager does, as functions on values.
- `Machine.dfy`: the session manager as a step machine. A step is one critical section (create_session has two), or one
  turn of the cleanup scan, which holds the lock only shared and so races with activity updates. Clock readings, and the
  choices unordered containers leave open, are part of the step. A run is any sequence of allowed steps.
- `History.dfy`, `Cleanup.dfy`, `Blacklist.dfy`, `Shutdown.dfy`: theorems over all runs of that machine.
- `Manager.dfy`, `Threads.dfy`, `GracefulShutdown.dfy`: the class `SessionManager` with mutable sessions, one method per
  critical section proved to compute the section function. The calls that span several sections (create_session, the
  cleanup pass, the shutdown loop) are methods that take as a script the sections other threads run in between.
- `Cdr.dfy`, `CdrHistory.dfy`: the CDR writer as a class over the text of the file, a parser for that text, and what a
  reader of the file can reconstruct.
- `Gateway.dfy`: the UDP thread, the queue, N workers with their wake-up handshake, and the session machine beneath, as
  one step machine. `Handshake.dfy`, `Progress.dfy`, `Rest.dfy`, `Delivery.dfy`, `EndToEnd.dfy`: theorems over
  all its runs.
- `Server.dfy`: the packet loop and the datagram handler as methods, and the steps of the gateway they amount to.

Times are integer nanoseconds. `at` is a reading of the one non-decreasing steady clock, `wall` of the system clock.

## What is not as documented

Each of these has a lemma that gives the exact condition.

- The handler means to answer "rejected" to a datagram it cannot decode (`src/event_dispatcher.cpp:87-93`), but `from_bcd`
  is `noexcept` and its constructor throws, so the process terminates (`EndToEnd.KillsIffUnacceptable`).
- `shutdown_rate` is documented as sessions per second; integer division makes the pause too short unless the rate
  divides 1000 (`Shutdown.RateHonouredIffDivides1000`).
- `notify_event_available` does not take the mutex. With one worker a notification can be lost and the datagram waits for
  the next one; with two or more it cannot, and queued work can always be got to (`Handshake.StrandsIffFewerThanTwoWorkers`,
  `Progress.ServableIffTwoWorkers`).
- With a timeout of zero the cleanup pass can miss an expired session (`Cleanup.SweepExactIffTimeoutPositive`).
- A ban that falls between the two halves of `create_session`, or on an IMSI with a session, leaves a banned IMSI with a
  session: a ban is effective if and only if its IMSI then has neither a session nor a call past its check
  (`Blacklist.BanIsEffectiveIff`).
- `remove_session` writes no CDR line, so the file alone rebuilds the table only when no session was last ended that way
  (`CdrHistory.FileRebuildsTable`).
- A system clock before the epoch can give a negative millisecond remainder, and then the file cannot be read back
  (`Cdr.FileReadsBackIff`).

## Model

| member | source | states |
|---|---|---|
| Imsi.EncodeBcd | utils/include/pgw_utils/imsi.h:32-47 | the stepping-by-two loop with its tail case fills every octet as section 8.3 of 3GPP TS 29.274 lays it out |
| Imsi.NibbleLayout | utils/include/pgw_utils/imsi.h:32-47 | digit k is nibble k of the encoding, low nibble of each octet first; the one nibble left over, if any, is the filler |
| Imsi.FiveDigits | tests/imsi_test.cpp:30-40 | "12345" is 0x21 0x43 0xF5 and back |
| Imsi.DecodeBcd | utils/include/pgw_utils/imsi.h:49-64 | the appending loop computes the decoded digits, or termination when the IMSI constructor refuses them |
| Imsi.BitwiseNibbles | utils/include/pgw_utils/imsi.h:52-53 | the mask and shift of the source are the remainder and quotient by 16 used here |
| Imsi.DecoderAcceptsExactly | utils/include/pgw_utils/imsi.h:19-22 | for byte strings of any length, decoding succeeds iff all nibbles are digits or high fillers and 2 len minus the fillers is in 1..15 |
| Imsi.DecodeAfterEncode | utils/include/pgw_utils/imsi.h:32-61 | decoding what was encoded returns the digits, for every number of digits |
| Imsi.CodecBijection | utils/include/pgw_utils/imsi.h:32-64 | encoding and decoding are inverse between valid IMSIs and canonical encodings |
| Imsi.ReencodeExactlyCanonical | utils/include/pgw_utils/imsi.h:49-64 | an accepted input re-encodes to itself iff it is canonical, and always to the canonical spelling of the same IMSI |
| Imsi.EncodingInjective | client/udp_client.cpp:49-56 | two subscribers never send the same bytes |
| Sessions.SweepErasesListedExpired | src/session_manager.cpp:143-155 | the erase loop removes exactly the listed keys that are still expired and logs one TIMEOUT for each |
| Machine.TableAlwaysOk | src/session_manager.cpp:44-79 | in every run every key is a valid IMSI filed under its own name and no stamp lies in the future |
| History.ReplayRebuildsTable | src/session_manager.cpp:62-95 | in every run, replaying the emitted events with manual removals gives exactly the keys of the table |
| History.SessionsAreConserved | src/session_manager.cpp:144-155 | live sessions = created - timed out - shut down - manually removed |
| History.EverySessionEndsOnce | src/session_manager.cpp:145-191 | for each IMSI creations and ends strictly alternate, however the two erasing threads race |
| History.EveryEntryHasItsStep | src/session_manager.cpp:44-209 | every entry of the history of any run was logged by a step that accounts for it: rejections by checks of blacklisted IMSIs, creations by updates without a session, timeouts by erasures of listed sessions then expired, shutdowns by erasures of the victim; each stamped with the clocks as that step read them |
| Cleanup.SweepRefinesOneLock | src/session_manager.cpp:129-162 | whatever happens between scan and erase, a pass leaves what one sweep under a single lock would leave at its now, and logs exactly that |
| Cleanup.ZeroTimeoutMissesOne | src/session_manager.cpp:129-162 | a run with timeout zero in which an expired session survives a pass |
| Cleanup.SweepExactIffTimeoutPositive | src/session_manager.cpp:129-162 | passes are exact in all runs iff the timeout is positive |
| Cleanup.IdleBound | src/session_manager.cpp:121-160 | a timed-out session was idle for at least the timeout and less than the timeout plus the gap between passes, and no create or refresh of it came after now - timeout |
| Cleanup.LastTouchIsOnRecord | src/session_manager.cpp:66-70 | a session carries a stamp no older than any create or refresh of it in the run |
| Cleanup.StampsAreItsOwn | src/session_manager.cpp:66-77 | a live session was created by a step of the run at its createdAt and has been there since; its lastActivity is the time of a create or refresh of it, and none was later |
| Cleanup.PassesAreSpaced | src/session_manager.cpp:129-161 | successive cleanup passes sample now at least a second apart |
| Cleanup.PassUsesItsSample | src/session_manager.cpp:132-154 | the now by which a pass decides is the clock at its own sample |
| Cleanup.PassLeavesFresh | src/session_manager.cpp:129-162 | once a pass has ended every session left was created or refreshed less than the timeout before its sample |
| Cleanup.SessionCanTimeOut | src/session_manager.cpp:129-162 | with a positive timeout, from every reachable state the cleanup thread alone can end any session within the timeout or a second, whichever is longer |
| Blacklist.LaterCallsNeverAct | src/session_manager.cpp:53-78 | after a ban with no later unban, a call not already past the check never inserts or refreshes that IMSI |
| Blacklist.BannedNeverCreated | src/session_manager.cpp:53-78 | if no call was in flight at the ban, no session of that IMSI is created while it lasts |
| Blacklist.CanHaveSessionIff | src/session_manager.cpp:53-78 | from a state with x banned some continuation without an unban of x ends with a session of x iff x has one already or a call for x is past its check |
| Blacklist.BannedHasSessionIff | src/session_manager.cpp:53-107 | the same in every reachable state |
| Blacklist.BanIsEffectiveIff | src/session_manager.cpp:97-107 | a ban made in any reachable state keeps its IMSI without a session for as long as it lasts iff at that moment the IMSI has neither a session nor a call past its check |
| Blacklist.StepKeepsClearIff | src/session_manager.cpp:97-107 | while no blacklisted IMSI has a session or a call past its check, a step keeps it so iff it does not ban an IMSI with a session or such a call |
| Blacklist.RunKeepsClear | src/session_manager.cpp:53-107 | a run in which no such ban is made keeps it so, and hence sessions and blacklist disjoint |
| Blacklist.FixedBlacklistHasNoSessions | src/session_manager.cpp:53-78 | with no additions after construction no blacklisted IMSI ever has a session |
| Blacklist.ConfiguredBanHolds | src/session_manager.cpp:53-78 | an IMSI blacklisted by the configuration has no session until it is taken off the list |
| Blacklist.UnbanReadmitsIff | src/session_manager.cpp:97-107 | after an unban in any reachable state the IMSI can have a session, with no further change of the blacklist, iff it is a valid IMSI |
| Blacklist.RacingBanIsMissed | src/session_manager.cpp:53-78 | a run in which a ban between check and update leaves the banned IMSI with a session |
| Shutdown.ShutdownTerminates | src/session_manager.cpp:164-199 | from any reachable state on the shutdown thread looks at the table at most sessions + creates + 1 times, and by then has found it empty and cleared the flag |
| Shutdown.ShutdownProgress | src/session_manager.cpp:167-198 | unless a scan holds the lock the running shutdown thread can always take its next step, and it reaps what it chose |
| Shutdown.ErasuresAreSpaced | src/session_manager.cpp:165-196 | shutdown erasures are at least 1000 / R milliseconds apart in every run |
| Shutdown.WindowBound | src/session_manager.cpp:165-196 | any half-open window w holds at most ceil(w / pause) of them |
| Shutdown.PerSecondBound | src/session_manager.cpp:165-196 | at most 2R in any second, and at most R when R divides 1000 |
| Shutdown.RateHonouredIffDivides1000 | src/session_manager.cpp:165 | no second of any run sees more than R shutdown erasures iff R divides 1000 |
| Manager.SessionManager.constructor | src/session_manager.cpp:8-21 | starts with no session, the configured blacklist, no shutdown in progress and an empty history |
| Manager.SessionManager.EmitEvent | src/session_manager.cpp:201-209 | appends the event to the history and, when there is a writer, to its file |
| Manager.SessionManager.CheckCaller | src/session_manager.cpp:46-60 | lets through exactly the valid IMSIs not blacklisted, and emits REJECTED for exactly the valid ones that are |
| Manager.SessionManager.InsertOrRefresh | src/session_manager.cpp:62-78 | "created" iff the IMSI had no session: one is inserted and CREATED emitted; otherwise the one session is re-stamped in place, keeps its creation time, and nothing is emitted; every other entry is unchanged |
| Manager.SessionManager.CreateSession | src/session_manager.cpp:44-79 | of an undisturbed call: blacklisted, created or already existing as blacklist and table say, and the whole new state |
| Manager.SessionManager.SessionExists | src/session_manager.cpp:81-84 | true iff the IMSI has a session |
| Manager.SessionManager.RemoveSession | src/session_manager.cpp:86-95 | the session is gone and every other unchanged; it says whether there was one |
| Manager.SessionManager.UpdateSessionActivity | src/session_manager.cpp:121-127 | re-stamps the session if there is one, keeps its creation time and every other session, and emits nothing |
| Manager.SessionManager.ScanExpired | src/session_manager.cpp:134-141 | collects exactly the keys expired at now, each once, in the order of the walk |
| Manager.SessionManager.EraseExpired | src/session_manager.cpp:143-155 | the loop with its re-check computes the sweep section |
| Manager.SessionManager.ChooseVictim | src/session_manager.cpp:170-180 | some key of the table, or the active flag cleared when it is empty |
| Manager.SessionManager.ReapVictim | src/session_manager.cpp:184-191 | the victim is gone and every other session unchanged; GRACEFUL_SHUTDOWN is emitted if it was still there |
| Manager.LoopIsScanSteps | src/session_manager.cpp:134-141 | the scan loop is a run of the machine's scan steps |
| Manager.FileTellsHistory | src/cdr_writer.cpp:45-51 | the file behind a manager reads back iff every time stamp in it is printable, then to exactly the events it emitted, and the record counter is their number |
| Threads.ScriptKeeps | src/session_manager.cpp:44-160 | any sequence of other threads' sections leaves the shutdown flag alone, and grows the table by at most one valid IMSI for each insert |
| Threads.ScriptInTurn | src/session_manager.cpp:44-160 | the sections of a script act one after the other |
| Threads.CreateSession | src/session_manager.cpp:44-79 | the verdict is the blacklist's at the check, whatever other threads do before the update; the update acts on the table they leave, says "created" iff the IMSI has no session in it, and leaves it with one stamped now, every other unchanged |
| Threads.StillListed | src/session_manager.cpp:134-148 | after whatever other threads do between scan and erase, every session expired at now is one the scan listed |
| Threads.CleanupPass | src/session_manager.cpp:129-162 | with any sections of other threads between scan and erase the pass leaves what one sweep under one lock would leave of the table as they made it, logs exactly one TIMEOUT for each session erased with the system clock's time, and changes nothing else |
| Threads.SectionIsStep | src/session_manager.cpp:44-160 | what a method does in one critical section the step machine can do in one step whenever the locks let it |
| GracefulShutdown.GracefulShutdownThread | src/session_manager.cpp:164-199 | under any finite script of other threads' sections the loop ends, within sessions + inserts rounds, table empty and flag down; each round chose someone with a session; the history stays true and gains exactly one GRACEFUL_SHUTDOWN, in order, for each victim still there at its turn; undisturbed, that is every session once, in as many rounds, and nothing else |
| GracefulShutdown.RoundsAreBounded | src/session_manager.cpp:167-198 | rounds done + sessions left + inserts to come never exceed what they were at the start |
| GracefulShutdown.RoundsLog | src/session_manager.cpp:183-191 | over any rounds replaying the history still gives the table, and its shutdowns are the victims that were still there |
| GracefulShutdown.QuietShutdown | src/session_manager.cpp:167-198 | undisturbed rounds that empty the table chose every session exactly once |
| GracefulShutdown.TurnIsSteps | src/session_manager.cpp:170-191 | choice, erasure and end of the loop are the machine's steps |
| GracefulShutdown.StartIsStep | src/session_manager.cpp:114-119 | a shutdown not yet started can be started in any state, and raises the flag |
| Cdr.CdrWriter.constructor | src/cdr_writer.cpp:12-27 | the file starts with the header line and no records |
| Cdr.CdrWriter.WriteRecord | src/cdr_writer.cpp:45-51 | appends exactly one line and counts it; the line reads back to who, what and when, to the millisecond |
| Cdr.PaddedToThreeDigits | src/cdr_writer.cpp:83-96 | the millisecond suffix is three digits iff the remainder is not negative, and for which time points that is so |
| Cdr.SecondsAndMillis | src/cdr_writer.cpp:85-88 | whole seconds and milliseconds together are the time point to the millisecond, cut off toward the epoch |
| Cdr.SampleLine | src/cdr_writer.cpp:61-96 | one record line, spelled out |
| Cdr.LineRoundTrip | src/cdr_writer.cpp:61-81 | a record line contains no newline and parses back to its IMSI, its action and a time less than a millisecond from its event's |
| Cdr.SameRecordSameTime | src/cdr_writer.cpp:83-96 | events that leave the same record are the same but for less than a millisecond past the epoch, and less than two around it |
| Cdr.LineReadsBackIff | src/cdr_writer.cpp:83-96 | the line of a valid IMSI can be read back iff its millisecond remainder is not negative, as it is past the epoch |
| Cdr.FileRoundTrip | src/cdr_writer.cpp:45-96 | the whole file parses back to the event list, each record telling who, what and when |
| Cdr.FileReadsBackIff | src/cdr_writer.cpp:83-96 | a file of records of valid IMSIs reads back iff every time stamp in it has a non-negative millisecond remainder |
| CdrHistory.FileRebuildsTable | src/cdr_writer.cpp:45-51 | the file of any run reads back iff every time stamp is legible, then as its events; their replay is the table iff no session was last removed by hand |
| CdrHistory.FileAloneRebuildsTable | src/session_manager.cpp:201-205 | without manual removals a file that reads back rebuilds the table alone |
| Gateway.GatewayRunsSessions | src/event_dispatcher.cpp:55-62 | what workers and others do to the session manager is a run of the session machine |
| Gateway.SessionsRunInGateway | src/event_dispatcher.cpp:55-62 | conversely what other users do to the session manager they can do in any live gateway state |
| Handshake.WorkIsAnnounced | src/event_dispatcher.cpp:14-29 | for any number of workers a non-empty queue implies the flag is set, the UDP thread is about to set it, or a worker is about to poll; Rest.ClearsMatchRaises is its partner |
| Handshake.WorkIsAttended | src/event_dispatcher.cpp:14-40 | with two or more workers queued work always has a busy worker, or a raised flag that a worker or a notification is about to act on |
| Handshake.OneWorkerStrands | src/event_dispatcher.cpp:24-40 | a run in which a lone worker blocks beside a queued datagram |
| Handshake.StrandsIffFewerThanTwoWorkers | src/event_dispatcher.cpp:24-40 | queued work can be left with everyone blocked iff there are fewer than two workers |
| Handshake.WakeUpRecovers | src/event_dispatcher.cpp:25-28 | in such a state the flag is up and a single wake-up makes the worker take the head of the queue |
| Progress.QueuedWorkCanBeTaken | src/event_dispatcher.cpp:14-40 | with two or more workers, from every reachable live state with work queued some run without another packet or spurious wake-up takes the head of the queue, or ends the process on the way |
| Progress.ServableIffTwoWorkers | src/event_dispatcher.cpp:14-40 | that holds in every reachable live state iff there are at least two workers |
| Rest.ClearsMatchRaises | src/event_dispatcher.cpp:24-40 | in every run the flag is cleared no more often than it is raised |
| Rest.ServerComesToRest | src/event_dispatcher.cpp:14-40 | from any reachable state a run without new packets and spurious wake-ups holds at most 7n + 4q + 19 steps of the server, for n workers and q queued datagrams: nobody spins |
| Rest.CanComeToRest | src/event_dispatcher.cpp:14-40 | from every reachable live state with acceptable datagrams such a run blocks every worker and, with two or more of them or nothing queued, empties the queue and leaves every datagram received answered |
| Delivery.ExactlyOnce | src/udp_server.cpp:129-147 | every received datagram is always in exactly one place, held by one worker at most, answered once at most, and only to its own sender |
| Delivery.LeaveInArrivalOrder | src/event_dispatcher.cpp:16-19 | datagrams leave the queue in arrival order and none that was enqueued is skipped |
| EndToEnd.ReplyMeansVerdict | src/event_dispatcher.cpp:55-86 | a datagram that decodes to s is answered to its sender: "rejected" if its try_enqueue failed or s was blacklisted at its check step; "created" if s was not, after a later update step that left s in the table and touched no other key |
| EndToEnd.ClientGetsVerdict | client/udp_client.cpp:49-56 | in particular for what the client sends for s |
| EndToEnd.DecodeSurvivesIff | src/event_dispatcher.cpp:58-94 | decoding keeps the process alive iff the bytes are acceptable; no reply is sent otherwise |
| EndToEnd.AcceptableInputIsSafe | src/event_dispatcher.cpp:58-59 | while all received datagrams are acceptable the process stays alive |
| EndToEnd.OnePacketKills | utils/include/pgw_utils/imsi.h:49-63 | for every unacceptable byte string, a run in which one such packet ends the process unanswered |
| EndToEnd.KillsIffUnacceptable | utils/include/pgw_utils/imsi.h:49-63 | a datagram can terminate the process iff the decoder does not accept it |
| EndToEnd.GatewayFileRebuildsTable | src/cdr_writer.cpp:45-51 | the file theorem for runs of the whole gateway, with no condition on the clock |
| Server.UdpServer.ProcessIncomingPackets | src/udp_server.cpp:111-148 | every packet before the first EAGAIN, and nothing else, is in order either appended to the queue and announced, or answered "rejected" to its sender; for each sender none is lost |
| Server.ArrivalsArePicked | src/udp_server.cpp:115-131 | the packets handled are those read before the first EAGAIN, in order, interruptions skipped |
| Server.OfferAllSorts | src/udp_server.cpp:129-146 | offering packets one by one appends to the queue, in order, those it takes, and sends one refusal, in order, to the sender of each of the others |
| Server.QueuedOrRefused | src/udp_server.cpp:138-146 | for each sender the packets it sent are matched one for one by new queue entries and new refusals sent to it |
| Server.OfferIsProducerSteps | src/udp_server.cpp:138-146 | one turn of the packet loop, as the method computes it on queue, socket and flag, is a run of the gateway's producer steps |
| Server.LoopIsProducerSteps | src/udp_server.cpp:111-148 | so is the whole loop, for any packets and any answers of try_enqueue |
| Server.CheckIsDecodeStep | src/event_dispatcher.cpp:58-86 | the handler up to its check is the worker's Decode step: same survival, same verdict, same session state |
| Server.UpdateIsStoreSteps | src/event_dispatcher.cpp:62-86 | the rest, after any steps of other threads, is the worker's Store and Respond steps: same session state, "created" to the sender |
| Server.ReplyIsRespondStep | src/event_dispatcher.cpp:84-86 | sending the reply is the worker's Respond step |
| Server.EventDispatcher.HandleUdpEvent | src/event_dispatcher.cpp:55-95 | for any bytes, and any sections of other threads between check and update: survival, the one reply, and the whole new session state |

## Left out

- Sockets, epoll and descriptor flags; recvfrom errors other than EAGAIN, EWOULDBLOCK and EINTR; truncation of datagrams at 1024 bytes.
- The HTTP server, configuration loading and logging sinks, including rotation of the CDR file: library plumbing.
- gmtime and strftime: the date text is a parameter, taken to contain no comma and no newline.
- The C++ memory model: `update_session_activity` writes under a shared lock; find and stamp are one step here.
- The window between logging a record and counting it: `write_record` is one step.
- The internals of the queue and of condition variables: the queue is a linearizable FIFO whose `try_enqueue` may fail at any time; notify_one wakes a blocked worker if there is one, and blocked workers may wake by themselves.
- Destructors and `EventDispatcher::stop`: `stop_` never becomes true and `running_` stays true, so threads are not shown to stop.
- A second call of `start_graceful_shutdown`, which would assign over a running thread; a `shutdown_rate` of 0, which divides by zero.
- The worker loop as one method: its steps are those of the gateway machine, where they interleave.
- Manager.SessionManager.CreateSession: one call with no other thread between its two halves; Threads.CreateSession has them.
- Threads.CleanupPass: activity updates during the scan itself, which are the machine's, in Cleanup.SweepRefinesOneLock; with a zero timeout it is stated for an undisturbed pass only, since then it fails otherwise (Cleanup.ZeroTimeoutMissesOne).
- Server.UdpServer.ProcessIncomingPackets: no worker takes from the queue during the loop; the interleaved case is the gateway's, in Delivery.ExactlyOnce.
- GracefulShutdown.GracefulShutdownThread: the length of the pause, which is the machine's, in Shutdown.ErasuresAreSpaced.
- UniqueFd, the IMSI generator, the client's statistics and timeouts: unrelated to the properties above.
