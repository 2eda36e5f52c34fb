# Store-and-forward core of nadi-agent

The agent builds a heartbeat every interval and posts it. What cannot be sent is
kept in a disk-backed queue and retried on a doubling timer. This project models
that core in Dafny and proves what it promises over whole runs: under every send
outcome, every disk fault and every point at which the process can die.

## How it is laid out

| file | holds |
|---|---|
| `LineFile.dfy` | the file format: one payload per line, read back by a line scanner; both round trips |
| `Queue.dfy` | size and eviction on lists, suffixes and subsequences |
| `StoreModel.dfy` | the buffer as a state machine: memory, file bytes, logs of what entered and how it left; one move per operation, fault or death |
| `Durability.dfy` | at-least-once over all runs in which every append writes nothing or succeeds |
| `TornLines.dfy` | what a restart reads back when lines may be torn, and the two ways it fails |
| `EveryFault.dfy` | at-least-once under every fault, each payload followed by its number, with the exact exception |
| `Buffer.dfy` | the classes `Disk` and `Buffer`, updated in place, proved to take the moves of `StoreModel`; crash atomicity |
| `Backoff.dfy`, `GoInt.dfy` | the doubling delay with Go's wrapping integers; closed form and total wait |
| `AgentModel.dfy` | one life of the agent: store, retry timer, every POST with its payload and outcome, and a ledger of every heartbeat's fate |
| `AgentRuns.dfy`, `AgentOrder.dfy`, `AgentTimers.dfy`, `AgentLosses.dfy`, `AgentDurability.dfy` | theorems over whole runs of the agent |
| `AgentPosts.dfy`, `AgentLives.dfy` | at-least-once in terms of acknowledged POSTs: over one life, and over any number of lives under every fault |
| `AgentLoop.dfy` | the classes `Sender`, `Retrier` and `Agent` with the flush and the main loop, proved to take the steps of `AgentModel` |
| `MetricName.dfy`, `DiskMetric.dfy`, `Strings.dfy` | the metric-name expression and its language; mount points as metric names |
| `Turn.dfy` | the early-exit statistics reader |
| `Heartbeat.dfy` | gathering collector results in any order, filtering and capping |

Methods of the classes are specified by the functions of the models; the promises
are lemmas about those functions, over all inputs and all runs.

A disk is a class whose ghost `trail` gains an image at every system call and at
every byte a write puts down. The contracts of `Append`, `WriteAll`, `Load`,
`Persist`, `SendLive`, `OnTick` and `OnRetry` bound every image, so they speak about a
process that dies anywhere inside the call. On the model side a death is a move:
`Crash` between operations or `CrashInAppend` with any number of bytes of the line
written, and every image of a turn is the file of such a death
(`AgentDurability.StepImageIsDeath`).

A payload counts as sent when a POST that carried it was acknowledged. The moves of
`StoreModel` do not mention POSTs; `AgentPosts` and `AgentLives` tie every delivery they
log to one.

## Where the code falls short of its comments

- `internal/buffer/buffer.go:13-15` promises at-least-once. A process that dies, or
  a write that fails, part-way through a line leaves the file without a final
  newline, and the next append glues its payload to that tail. Two things follow.
  - The glued payload is in memory as itself for as long as that process lives
    (`AgentLives.LifeRemembers`), but on disk only at the end of a longer line, and a
    second death loses it (`TornLines.TornAppendLosesTheNext` is such a run). Of the
    payloads still queued a death costs exactly the glued ones: those accepted onto a
    file that did not end in a newline and not rewritten since
    (`EveryFault.DeathCostsTheGlued`, `EveryFault.GluedOnlyOnTornFile`,
    `EveryFault.RewriteUnglues`). For the payload of
    one append: after a death and a restart it is the newest entry exactly when the
    file ended in a newline, or the append itself evicted something and its
    compaction succeeded (`TornLines.AppendSurvivesRestart`).
  - A glued line can be longer than its parts, and a line of 16 MiB or more stops
    every later start, with everything else that was queued
    (`TornLines.GluedLineStopsEveryBoot`). One payload of that size does the same when
    the cap accepts it. A start comes up exactly when every line fits the scanner, and
    an appended line fits exactly when its length and that of the tail it is glued to
    stay below 16 MiB together (`Durability.LongLineStopsBoot`).

  At-least-once itself is proved in full for runs in which every append writes nothing
  or succeeds (`Durability.AtLeastOnce`, `AgentLives.CleanLivesLoseNothing`), and with
  the glued payloads as its exact exception for runs under every fault
  (`EveryFault.AtLeastOnceUnderEveryFault`, `AgentLives.NoLifeLosesData`).
- `internal/agent/agent.go:20-21` says a downed server costs no data.
  `AgentLosses.LosingRun` is a family of runs in which it does: any cap, and any two
  heartbeats that fit it alone but not together. A turn of the loop loses nothing
  exactly when it has room for what it must buffer: the heartbeat is accepted and the
  queue left by the flush grows within the cap (`AgentLosses.StepCostsNothing`). A run
  loses nothing exactly when every turn has room (`AgentLosses.RunCostsNothing`). A
  whole outage whose appends are accepted loses nothing exactly when the queue and
  everything built meanwhile fit the cap together (`AgentLosses.OutageCostsNothing`).
- A live send that succeeds right after a flush that failed overtakes the queue, as in
  `AgentOrder.OvertakingRun`. A run keeps production order at every loop head exactly
  when this never happens in it (`AgentOrder.RunKeepsOrder`).
- The backoff leaves its bounds, by wrapping around, when its cap exceeds half of the
  int64 range, and only then (`Backoff.BoundedIff`).

## Model

| member | source | states |
|---|---|---|
| LineFile.LineEnd | internal/buffer/buffer.go:44-47 | the scanner cuts at the first newline, byte 10: none before it, one at it unless the input ends |
| LineFile.DroppedCR | internal/buffer/buffer.go:44-47 | of every scanned line exactly one trailing carriage return, byte 13, is stripped, if it has one |
| LineFile.AppendExact | internal/buffer/buffer.go:74-84 | one appended line decodes to the old list plus the payload if and only if the file ended in a newline |
| LineFile.TornAppend | internal/buffer/buffer.go:78-81 | an append stopped after any byte leaves the old lines, then at most one line that is a prefix of the payload |
| LineFile.DecodeEncode | internal/buffer/buffer.go:44-53 | reading back what the rewrite wrote returns the same list if and only if every entry is non-empty, has no newline and no trailing carriage return |
| LineFile.EncodeDecode | internal/buffer/buffer.go:161-166 | rewriting what was read reproduces the file if and only if it is newline-terminated and no line is empty or ends in a carriage return |
| LineFile.ReadableEncode | internal/buffer/buffer.go:45 | entries shorter than the token buffer never stop the scanner |
| LineFile.Complete | internal/buffer/buffer.go:46-53 | the longest newline-terminated prefix of a file, with no newline after it |
| LineFile.GluedStorable | internal/buffer/buffer.go:74-84 | an appended line decodes to the complete lines that were there and the payload glued behind the unterminated tail |
| LineFile.ReadableAppend | internal/buffer/buffer.go:45 | a file with one more line can be scanned if and only if its complete lines can and the tail and the payload together have fewer than 16,777,216 bytes |
| LineFile.LineLimit | internal/buffer/buffer.go:45 | a line stops the scanner if and only if it has 16,777,216 bytes or more, its newline not counted |
| Queue.SizeIsFileLength | internal/buffer/buffer.go:21 | the running size is the length of the file a rewrite would write |
| Queue.TrimFits | internal/buffer/buffer.go:141-151 | eviction keeps a suffix that meets the cap, or nothing |
| Queue.TrimIsLongestFit | internal/buffer/buffer.go:141-151 | no longer suffix would have met the cap: the fewest oldest entries go |
| Queue.TrimKeepsFittingSuffix | internal/buffer/buffer.go:58-60 | any suffix that fits survives eviction: stale lines in front never push out live ones |
| Queue.TrimGrown | internal/buffer/buffer.go:86-90 | one more entry makes eviction drop something if and only if it takes the queue over the cap |
| Queue.TrimLast | internal/buffer/buffer.go:141-151 | the newest entry survives if and only if it fits on its own; otherwise nothing does |
| Durability.MoveKeepsDurable | internal/buffer/buffer.go:34-125 | every operation, rewrite fault, death and restart keeps the durability invariant, provided appends write nothing or succeed |
| Durability.RunKeepsDurable | internal/buffer/buffer.go:10-22 | so does every run in which every append writes nothing or succeeds |
| Durability.AtLeastOnce | internal/buffer/buffer.go:13-15 | after any run in which every append writes nothing or succeeds, every accepted payload was popped after its acknowledgement, evicted by the cap, or is still held in its place; memory is a suffix of the lines on disk and those of everything accepted |
| Durability.RestartKeepsQueue | internal/buffer/buffer.go:13-15 | killing and restarting at any state reached while every append wrote nothing or succeeded brings back the whole queue, behind one contiguous block of accepted payloads just older than it, all of which had already left |
| Durability.ReloadedQueue | internal/buffer/buffer.go:44-61 | loading a file of stale lines followed by live ones, then evicting, keeps all live ones |
| Durability.RestartAfterAppendCrash | internal/buffer/buffer.go:74-92 | a death inside an append, after any byte, keeps the queue up to what the cap evicts anyway, behind payloads that had left and followed by what the append left; the payload counts as accepted exactly when its whole line was written |
| Durability.TornPart | internal/buffer/buffer.go:78-81 | what a cut append can leave is at most one line, a prefix of the payload no longer than what was written, and the payload itself once all of it was |
| Durability.LongLineStopsBoot | internal/buffer/buffer.go:45 | any file with one more line can be loaded if and only if its complete lines can and the unterminated tail and the new line together have fewer than 16,777,216 bytes |
| Durability.Restarts | internal/buffer/buffer.go:33-62 | a restart with nothing failing comes up if and only if every line fits the scanner, and then holds all lines the cap allows |
| TornLines.MoveKeepsTracked | internal/buffer/buffer.go:66-93 | under every fault and every cut, entries with a line of their own stay, in order, among the complete lines on disk |
| TornLines.RunKeepsTracked | internal/buffer/buffer.go:13-15 | so they do over every run |
| TornLines.SolidEntriesAreReadBack | internal/buffer/buffer.go:33-62 | after any run a restart comes up if and only if every line fits the scanner, loads all entries with a line of their own, in order and still with one, and then applies the cap |
| TornLines.RewriteHeals | internal/buffer/buffer.go:119-125 | a completed rewrite puts memory on disk exactly, line by line, whatever was torn before |
| TornLines.CleanRunIsSolid | internal/buffer/buffer.go:66-93 | in a run whose appends write nothing or succeed every entry has a line of its own, so both durability results speak of the same entries |
| TornLines.RestartAfterTornAppend | internal/buffer/buffer.go:44-62 | after a death inside an append to a terminated file, after any byte, a restart comes up if and only if the old file could be read, with the old lines and what the append left, up to the cap |
| TornLines.AppendSurvivesRestart | internal/buffer/buffer.go:66-93 | for every accepted append: the restart comes up if and only if the file can be read, and then the payload is the newest entry if and only if the file ended in a newline, or the append evicted and its compaction succeeded |
| TornLines.GluedLineStopsEveryBoot | internal/buffer/buffer.go:44-56 | two payloads that together reach 16 MiB, the first cut before its newline, leave a file that no later start can load |
| TornLines.TornAppendLosesTheNext | internal/buffer/buffer.go:74-87 | a concrete run, at the smallest cap the configuration allows, in which an accepted payload is neither acknowledged, evicted nor queued |
| EveryFault.MoveKeepsSound | internal/buffer/buffer.go:34-125 | under every fault and every cut the numbers carried by entries and lines name the payloads they stand for, and every accepted payload is gone, on disk as itself, or glued: at the end of a longer line that is on disk or went out |
| EveryFault.RunKeepsSound | internal/buffer/buffer.go:10-22 | so it is over every run |
| EveryFault.AtLeastOnceUnderEveryFault | internal/buffer/buffer.go:13-15 | at-least-once in any run under any fault: every accepted payload is popped after its acknowledgement, evicted, on disk as a line of its own and in memory while a process runs, or glued, and then at the end of a longer line that went out or is on disk |
| EveryFault.DeathCostsTheGlued | internal/buffer/buffer.go:13-15 | of the payloads not yet gone, a restart of a readable file has as themselves, or evicts for the cap, exactly those that are not glued; a glued one comes back only at the end of a longer line, unless that line went out |
| EveryFault.GluedOnlyOnTornFile | internal/buffer/buffer.go:74-87 | a payload becomes glued only when it is accepted onto a file without a final newline |
| EveryFault.RewriteUnglues | internal/buffer/buffer.go:155-174 | a completed rewrite while it is in memory gives a glued payload a line of its own: it stands among the complete lines of the new file and is no longer glued |
| EveryFault.RunKeepsRecent | internal/buffer/buffer.go:66-117 | a running process holds, as itself, every payload it accepted that has not left the queue, glued or not |
| EveryFault.HowPayloadsGo | internal/buffer/buffer.go:86-151 | a payload counts as delivered only when it was the oldest entry and was popped, and as evicted only when an append or a restart had it in a queue in which it and everything newer exceeded the cap; the same for a line that ends in it |
| EveryFault.CleanRunGluesNothing | internal/buffer/buffer.go:66-93 | in a run whose appends write nothing or succeed nothing is ever glued |
| Buffer.Disk.WriteMain | internal/buffer/buffer.go:78 | every image of a write is the old file followed by a prefix of the data |
| Buffer.Disk.Rename | internal/buffer/buffer.go:170 | the rename is one step: the path holds the temp bytes |
| Buffer.Buffer.constructor | internal/buffer/buffer.go:25-27 | the cap is the megabyte product in int64 arithmetic, wrap-around included |
| Buffer.New | internal/buffer/buffer.go:25-31 | construction then load is a reconfiguration and a boot; it fails exactly when the boot does |
| Buffer.Buffer.Load | internal/buffer/buffer.go:34-62 | loading takes the boot move, a missing file being a fresh start; it succeeds if and only if the file opens, every line fits the scanner, and a compaction, if the cap evicts anything, succeeds; the file is then what is queued, and untouched otherwise; every image is the old file or the compacted one |
| Buffer.Buffer.Scan | internal/buffer/buffer.go:46-56 | the scanning loop yields exactly the kept lines and their size, and fails exactly when a line has 16,777,216 bytes or more |
| Buffer.Buffer.DropOldestToFit | internal/buffer/buffer.go:143-151 | the loop leaves exactly the longest fitting suffix, keeps the running size true, and reports whether it dropped anything |
| Buffer.Buffer.WriteAll | internal/buffer/buffer.go:155-174 | crash atomicity: at every instant the path holds the old bytes or all the new ones; a failed open, a failed write, a failed close or a failed rename of the temp file is an error that leaves the path alone |
| Buffer.Buffer.WriteEntries | internal/buffer/buffer.go:161-166 | the writing loop never touches the buffer path and ends with the encoded queue in the temp file |
| Buffer.Buffer.Append | internal/buffer/buffer.go:66-93 | takes the append move; errors exactly as the code does; every image is part of the new line behind the old file, or the compacted queue |
| Buffer.Buffer.AppendLine | internal/buffer/buffer.go:74-84 | on any file error memory is unchanged; on success the whole line is on disk |
| Buffer.Buffer.Peek | internal/buffer/buffer.go:96-103 | the oldest entry, if there is one |
| Buffer.Buffer.Pop | internal/buffer/buffer.go:107-117 | removes exactly the oldest entry from memory, keeping size and log true |
| Buffer.Buffer.Persist | internal/buffer/buffer.go:121-125 | takes the persist move; every image is the old file or the compacted one |
| Buffer.Buffer.Len | internal/buffer/buffer.go:128-132 | the number of queued entries |
| Buffer.TransientBound | internal/buffer/buffer.go:70-92 | while file and memory agree, an append never makes the file larger than twice the cap, at any instant |
| Buffer.LoadSizeBound | internal/buffer/buffer.go:46-57 | while a file is loaded the running size is at most its length plus one |
| Buffer.AppendCases | internal/buffer/buffer.go:86-92 | an append that wrote its line evicts exactly when the grown queue exceeds the cap, and rewrites exactly then |
| Backoff.Backoff.constructor | internal/backoff/backoff.go:15-22 | starts at min, with the cap raised to min if it is smaller |
| Backoff.Backoff.Next | internal/backoff/backoff.go:26-34 | hands out the current delay, then doubles it in int64 arithmetic up to the cap |
| Backoff.AdvanceIs | internal/backoff/backoff.go:26-34 | while the cap is at most half of the int64 range the delay is doubled, up to the cap |
| GoInt.Int64Wraps | internal/backoff/backoff.go:28 | arithmetic wraps: the result fits 64 bits and is congruent modulo 2 to the 64 |
| Backoff.Backoff.Reset | internal/backoff/backoff.go:37-39 | back to min |
| Backoff.ClosedForm | internal/backoff/backoff.go:5-8 | after any calls the delay is min doubled once per Next since the last Reset, capped, and always between min and the cap |
| Backoff.DoubledIs | internal/backoff/backoff.go:28 | k doublings multiply by two to the k |
| Backoff.BoundedIff | internal/backoff/backoff.go:24-34 | the delay stays between min and the cap for ever if and only if the cap can be doubled in an int64 |
| Backoff.ScheduleAt | internal/backoff/backoff.go:24-34 | the i-th delay handed out after a reset is min doubled i times, cut off at the cap |
| Backoff.Ramp | internal/backoff/backoff.go:28-32 | the least number of doublings that reaches the cap |
| Backoff.TotalWaitIs | internal/backoff/backoff.go:5-8 | the first n delays past the ramp k add up to exactly min*(2^k - 1) + (n - k)*cap |
| Backoff.RetriesThatFit | internal/backoff/backoff.go:5-8 | at most the ramp plus one retry per cap length fit in a wait |
| AgentModel.AckCountIsLongest | internal/agent/agent.go:83-93 | the count of sends in a flush is the longest run of successes |
| AgentRuns.FlushExact | internal/agent/agent.go:79-100 | a flush removes exactly the acknowledged prefix, logs exactly it as delivered, and rewrites the file, to exactly what is left, only if something was sent |
| AgentRuns.FlushSendsExact | internal/agent/agent.go:83-93 | a flush posts exactly the entries it then removes, each acknowledged, and after them, if any is left, the next one, not acknowledged |
| AgentRuns.StepPostsExact | internal/agent/agent.go:38-74 | the POSTs of every turn in order: a tick tries the queue until a failure and then, however that went, the new heartbeat; a retry tries the queue; a build error or a cancellation posts nothing and touches neither buffer nor ledger |
| AgentRuns.StepKeepsHonest | internal/agent/agent.go:51-62 | every step keeps the ledger's acknowledgements equal to the acknowledged POSTs, payload by payload |
| AgentRuns.RunConserves | internal/buffer/buffer.go:66-117 | first in, first out over every crash-free run from any state under every disk fault: departures in turn, then the queue, make up the starting queue and what was accepted |
| AgentRuns.RunKeepsAccounted | internal/agent/agent.go:31-75 | over every run the queue of numbers names the payloads in memory, the five fates partition all heartbeats built, and the acknowledgements are the acknowledged POSTs |
| AgentRuns.ExactlyOneFate | internal/agent/agent.go:20-21 | over every crash-free life, from whatever it loaded: each heartbeat is live, drained, queued, evicted or rejected, in exactly one of them exactly once, is acknowledged at most once, and each acknowledgement is a POST that carried that heartbeat's payload |
| AgentRuns.AcceptedTrims | internal/buffer/buffer.go:86-92 | an accepted append never evicts the payload it just accepted |
| AgentLosses.StepCostsNothing | internal/agent/agent.go:53-58 | a step loses no heartbeat to this process if and only if, should the live send fail, the heartbeat is accepted and the queue left by the flush has room for it |
| AgentLosses.RunCostsNothing | internal/agent/agent.go:20-21 | a run loses no heartbeat if and only if every step of it has that room |
| AgentLosses.OutageCostsNothing | internal/agent/agent.go:20-21 | over a whole outage whose appends are accepted nothing is rejected, and nothing is evicted if and only if the queue and everything built meanwhile fit the cap together |
| AgentLosses.LosingRun | internal/agent/agent.go:20-21 | for every cap, and every two heartbeats that fit it alone but not together, two failing ticks an interval apart lose a heartbeat |
| AgentOrder.StepKeepsOrder | internal/agent/agent.go:51-62 | a step keeps acknowledgements in production order and older than the queue if and only if no live send overtakes the queue |
| AgentOrder.RunKeepsOrder | internal/agent/agent.go:15-21 | a run keeps that order at every loop head if and only if no live send in it overtakes |
| AgentOrder.LifeInOrder | internal/agent/agent.go:15-21 | both order results for every life of the agent, from whatever it loaded |
| AgentOrder.OvertakingRun | internal/agent/agent.go:51-62 | a concrete run from a fresh start, at the smallest cap the configuration allows, in which the second heartbeat is acknowledged before the first |
| AgentOrder.RunKeepsBufferOrder | internal/agent/agent.go:79-93 | in every run the deliveries from the buffer alone are in production order and older than everything queued |
| AgentTimers.ArmedIffLastSendBad | internal/agent/agent.go:111-143 | at every loop head the timer is armed exactly when the last completed send was a failed live send or a retry that left entries |
| AgentTimers.StepKeepsWork | internal/agent/agent.go:53-58 | an armed timer has something queued, and a step breaks that if and only if it is a failing tick whose heartbeat was rejected with nothing else queued |
| AgentTimers.RunKeepsWork | internal/agent/agent.go:53-74 | an armed timer has something queued at every loop head of a run if and only if no step of it is such a tick |
| AgentTimers.StepTimer | internal/agent/agent.go:53-74 | what every turn does to the timer: a live send that succeeds and a retry that leaves nothing reset it, a failing tick leaves a pending timer alone, a retry that leaves entries is due again after the delay the timer was at, whatever it sent, and that delay doubles up to the cap |
| AgentTimers.OutageStep | internal/agent/agent.go:53-74 | a tick whose live send fails and a retry that leaves entries move the timer as TimerStep says, whatever they sent before failing |
| AgentTimers.TimerPacing | internal/agent/agent.go:120-131 | over any on-time sequence of failing turns delays follow the schedule, one per retry and one pending, and the waits they impose have passed |
| AgentTimers.OutagePacing | internal/agent/agent.go:15-23 | over any run of failing ticks and retries that leave entries, whatever they sent, from a fresh timer: the delays are exactly the schedule of doublings, one per retry and at most one pending, so no reset happens; the delays used have passed, the pending one is due no later than scheduled, and retries are bounded by the ramp plus one per cap length |
| AgentTimers.NewTimerIsFresh | internal/agent/agent.go:23 | the agent's timer starts at 1,000,000,000 nanoseconds and is capped at the interval, or at that if the interval is shorter |
| AgentTimers.CatchesUp | internal/agent/agent.go:51-71 | from any state one tick or retry whose sends all succeed empties the queue, disarms the timer and resets the backoff, and empties the file when something was sent and the compaction succeeds |
| AgentDurability.StepIsMoves | internal/agent/agent.go:38-74 | a step changes the store by its sequence of buffer moves and nothing else |
| AgentDurability.LifeIsDurable | internal/agent/agent.go:32-76 | the durability invariant over every life of the agent in which every append writes nothing or succeeds |
| AgentDurability.AgentSurvivesCrash | internal/agent/agent.go:20-21 | killing the agent after any life, and any part of one more step, in which every append writes nothing or succeeds, and restarting it, brings back everything queued at that point |
| AgentDurability.AgentSurvivesAppendCrash | internal/agent/agent.go:53-58 | so does a death inside the append of a failing tick, after any byte: the queue the flush left comes back, up to what the cap evicts anyway, followed by what the append left, and the heartbeat is accepted exactly when its whole line was written |
| AgentDurability.StepImageIsDeath | internal/agent/agent.go:51-74 | whatever the buffer path can hold at any instant of a turn is the file of a modelled death: some of the turn's moves, then a crash or a crash inside its append |
| AgentPosts.DeliveredWasPosted | internal/agent/agent.go:83-93 | over every run under every fault, whatever the log calls delivered is a payload the server acknowledged in a POST |
| AgentPosts.LifeLosesNothing | internal/buffer/buffer.go:13-15 | over a life in which every append writes nothing or succeeds, every accepted payload had left before it began, was acknowledged in a POST, evicted, or is held in its place |
| AgentLives.RunIsMoves | internal/agent/agent.go:31-76 | a whole run changes the store by the buffer moves of its turns and nothing else |
| AgentLives.LifePostsAre | internal/agent/agent.go:83-93 | the POSTs of a life are those of its turns and, for the turn it died in, those whose entries it had popped |
| AgentLives.HistoryConcat | internal/agent/agent.go:31-76 | a history of lives can be cut anywhere: its moves and POSTs are those of the first lives and then those of the rest |
| AgentLives.AllPosted | internal/agent/agent.go:83-93 | over any lives, each killed anywhere under any fault, whatever was popped was acknowledged in a POST of one of them |
| AgentLives.HistoryIsRun | internal/agent/agent.go:31-76 | the numbered payloads of any history of lives are those of the store that the moves of all its turns leave |
| AgentLives.NoLifeLosesData | internal/buffer/buffer.go:13-15 | at-least-once for the agent over any lives, each started, run and killed at any point under any fault: every payload that entered the buffer was acknowledged in a POST, was evicted, is on disk as itself and in memory while a process runs, or is glued, and then at the end of a longer line that went out or is on disk |
| AgentLives.LifeRemembers | internal/agent/agent.go:53-58 | a running agent holds, as itself, everything it accepted in this life that was not popped or evicted |
| AgentLives.CleanLivesLoseNothing | internal/agent/agent.go:20-21 | the same over any lives in which every append writes nothing or succeeds, with no exception |
| AgentLoop.Retrier.Arm | internal/agent/agent.go:120-127 | arms once: a pending timer is left alone, otherwise the next delay is taken |
| AgentLoop.Retrier.Reset | internal/agent/agent.go:140-143 | disarms and resets the backoff |
| AgentLoop.Sender.SendRaw | internal/sender/sender.go:63-83 | one POST carrying this payload, with the outcome the environment decides |
| AgentLoop.Agent.SendOldest | internal/agent/agent.go:81-93 | the flush loop over the send outcomes, with the queue length as its measure; what it posts is the model's flush, payload by payload |
| AgentLoop.Agent.FlushBuffer | internal/agent/agent.go:81-100 | the flush of the model; every disk image is the old file or the encoded rest |
| AgentLoop.Agent.SendLive | internal/agent/agent.go:53-62 | posts the new heartbeat, then buffers it and arms the timer, or resets it; bounds every disk image of the append |
| AgentLoop.Agent.OnTick | internal/agent/agent.go:38-64 | the tick case is the model's step, and bounds every disk image a death inside it can leave |
| AgentLoop.Agent.OnRetry | internal/agent/agent.go:66-74 | the retry case is the model's step, whose timer StepTimer states, with the same bound |
| AgentLoop.Agent.Run | internal/agent/agent.go:31-76 | the main loop is the model's run |
| MetricName.WordChars | internal/payload/payload.go:37 | the characters of a segment are exactly a to z, 0 to 9 and the underscore |
| MetricName.NameLanguage | internal/payload/payload.go:37 | the expression accepts exactly the strings of two or more dot-separated non-empty segments over those characters |
| MetricName.ValidNames | internal/payload/payload.go:41-43 | a name is valid if and only if it is in that language and has at most 64 characters |
| MetricName.ValidNamesAre | internal/payload/payload.go:37-43 | character by character: a name is valid if and only if it has at most 64 characters, each of them in [a-z0-9_.], with at least one dot, none at either end and no two together |
| DiskMetric.SanitizePart | internal/collector/disk.go:83-94 | the building loop maps every character on its own |
| DiskMetric.Sanitize | internal/collector/disk.go:72-81 | the replacing loop computes the tag of the mount point, which TagSpells, SlashesOnlySeparate and TagIsRoot determine |
| DiskMetric.TagSpells | internal/collector/disk.go:70-81 | below the root the tag is the path lower-cased, character by character, with everything outside [a-z0-9_], slashes included, turned into an underscore |
| DiskMetric.SlashesOnlySeparate | internal/collector/disk.go:73 | leading, trailing and doubled slashes do not change the tag |
| DiskMetric.TagIsRoot | internal/collector/disk.go:74-76 | the tag is root if and only if the mount point is all slashes, or has one field and it lower-cases to root |
| DiskMetric.TagIsSegment | internal/collector/disk.go:70-81 | for any mount point the tag is one non-empty segment, no longer than the mount point or the word root |
| DiskMetric.TagIsFixed | internal/collector/disk.go:70-81 | sanitizing a tag changes nothing |
| DiskMetric.DiskMetricValid | internal/collector/disk.go:50 | the reported metric name is valid if and only if its tag has at most 45 characters, which holds for every mount point of at most 45 |
| Turn.ReadNumber | internal/collector/turn_stats.go:76-91 | the index loop reads the first maximal run of digits and dots |
| Turn.ParseCoturnStats | internal/collector/turn_stats.go:54-72 | the loop with its found flags computes the statistics: the sessions are the number on the first line that contains "session" and has one, the bytes likewise with "byte", zero if there is none, and ok exactly when both exist |
| Turn.ParsedIs | internal/collector/turn_stats.go:50-72 | the same by index: the least line in which the word occurs somewhere and a number parses decides each value |
| Turn.NumberAt | internal/collector/turn_stats.go:76-91 | the number on a line is the parse of the characters from its first digit to the end of the run of digits and dots there |
| Turn.ReadCoturnStats | internal/collector/turn_stats.go:36-47 | stopping at the first success gives the same values and flag as draining every line |
| Turn.ParsedStable | internal/collector/turn_stats.go:18-22 | once both values are found no further line changes the result |
| Turn.SplitText | internal/collector/turn_stats.go:40-42 | splitting the built text gives back the lines read and one empty piece |
| Strings.SplitJoined | internal/collector/turn_stats.go:56 | splitting cuts at every separator and loses nothing: the pieces have none and join to the input |
| Heartbeat.Collect | internal/collector/registry.go:87-114 | the loop gathers the successes in order and ends with the failure count if there is one |
| Heartbeat.CollectedAt | internal/collector/registry.go:90-109 | each success contributes exactly its metrics, behind those of the runs before it, and every other run nothing |
| Heartbeat.FailuresAre | internal/collector/registry.go:92-104 | the failures are the runs that failed; no data and a cancelled run are none |
| Heartbeat.GatheredEnds | internal/collector/registry.go:110-112 | behind the collected metrics comes agent.collector_errors_count, with the number of failed runs and the unit count, if and only if some run failed |
| Heartbeat.AnyOrder | internal/collector/registry.go:90 | the order in which the map is walked changes neither the metrics gathered nor the failure count |
| Heartbeat.GatheredAnyOrder | internal/collector/registry.go:110-113 | two walks give the same multiset and end in the same failure count |
| Heartbeat.BuildMetrics | internal/sender/sender.go:101-112 | the loop with its skip and stop yields exactly the first 100 valid metrics in order |
| Heartbeat.FilterExact | internal/sender/sender.go:103-106 | filtering keeps each valid metric as often as it occurs, drops every invalid one and does not reorder |
| Heartbeat.ErrorsReported | internal/collector/registry.go:110-112 | the failure count reaches the payload if and only if there were failures and fewer than 100 valid metrics were gathered |
| Heartbeat.HeartbeatAnyOrder | internal/sender/sender.go:101-112 | below the cap the payload carries the same metrics whatever the order of the walk |

## Left out

- HTTP, JSON and YAML: a send is an acknowledgement or a failure decided by the environment, and a failed one may still have reached the server, so "acknowledged at most once" is not "received at most once". Payloads are byte strings meeting the encoder's contract.
- Real file systems: completed writes and renames survive the death of the process; nothing is said about power loss, since the code never syncs.
- Two processes on one buffer file, and the mutex: the buffer is used from the agent's one goroutine, as the agent does; `Peek` then `Pop` is only safe there.
- The running size is an unbounded integer: between operations it is at most the cap, and within an append at most twice the cap. Loading counts the whole file before it evicts, at most its length plus one (`Buffer.LoadSizeBound`); a file whose compactions keep failing has no bound in terms of the cap, so there the size fits an int64 only as far as the file's own length does.
- A death inside a rewrite that was not renamed is the same move as a death before it, and one after the rename the same as a death after it; the contracts of `WriteAll` and `Load` are what justifies that.
- Durability.RestartKeepsQueue: stated for a restart whose open and compaction succeed with an unchanged cap; a failing start leaves the store as it was, and the invariant holds across any number of them and across changes of the cap.
- TornLines.SolidEntriesAreReadBack: payloads contain no raw carriage return at all, which the JSON encoder guarantees; the results of `Durability` need only that they do not end in one.
- EveryFault.AtLeastOnceUnderEveryFault: the same condition on payloads; the acknowledgement of an entry and its removal from memory are one move there, and `AgentLives.NoLifeLosesData` is what ties that move to a POST.
- AgentLives.NoLifeLosesData: a POST in flight when the process dies counts as not acknowledged, so its payload is still queued.
- AgentTimers.OutagePacing: time is abstract; a timer never fires early, but a long flush may delay it, so the bound is on how many retries happen, not on how late they are.
- `nextInterval` and the tick timer, the cancelled context inside a send, logging, the mock server, configuration and `main`: their validated bounds appear as preconditions only.
- `shouldReport`, `NewRegistry`, `Names`, `Register` and the goroutine and timeout of `runCollector`: a collector's run is success, no data, cancelled or failed.
- Platform collectors: thin readings of system interfaces.
- Lower-casing and number parsing of the libraries are parameters; a lower-casing is assumed to map character to character, for `DiskMetric.TagIsFixed` to leave [a-z0-9_] alone, and for `DiskMetric.TagSpells`, `SlashesOnlySeparate` and `TagIsRoot` to neither make nor remove a slash.
