# amane: the data plane, verified

amane is a multipath tunnel. Its data plane is a set of small state machines that do no I/O.
This project models them in Dafny and proves what each one keeps over every sequence of calls,
whatever the network loses, delays, repeats or reorders.

| modules | component | main theorems |
|---|---|---|
| `BlockWindow` | block bitmaps of `replay.Window` and of the reorder buffer's `markSeen`, one generic window with 32 and 128 blocks | exactly when an accepted counter is accepted again and a new one refused; equal to the set-based window on clean runs |
| `ReorderSpec`, `ReorderRuns`, `ReorderOnce`, `ReorderProgress`, `ReorderDeadline`, `Reorder` | the 8192-slot reorder ring as a refinement of a plain map | conservation, emission order, exactly when a number is emitted twice, no gaps without skips, progress, exactly when a gap times out |
| `FecEncoderSpec`, `FecGrouping`, `FecEncoder`, `FecDecoderSpec`, `FecRecovery`, `FecEndToEnd`, `FecRepetition`, `FecCompleteness`, `FecDecoder`, `ErasureCodes`, `Wire` | forward error correction | the encoder partitions the stream, exactly when it closes a group and with how much parity; every recovered packet is the one sent; recovery is eager; exactly which call returns which packet; K shards that arrive in time give the whole group; sound and at-most-once delivery through decoder and reorder buffer together |
| `ProberSpec`, `ProberTiming`, `ProberNetwork`, `Pmtud`, `PathMtu` | path MTU discovery in the style of sections 5.2 and 5.3 of RFC 8899 | precision, termination bound for every round, exactly when results stay below the ceiling, soundness against an adversarial network, and what that means for the datagrams sent |
| `SchedSpec`, `SchedRuns`, `SchedShares`, `SchedLimits`, `Sched` | stride scheduler | weighted fairness, in effective and in plain weights, bounded spread, bounded waiting, exactly which paths can be starved, and what path MTU limits leave of the spread |
| `RekeySpec`, `RekeySafety`, `RekeyPruning`, `RekeyHearing`, `RekeyProgress`, `Rekey` | the rekey protocol as steps of two parties and a network | safety over every interleaving; attempts that are answered succeed; exactly which epochs are never pruned, and exactly when the client cannot open what the server sends |
| `PtbSpec`, `PtbReading`, `Ptb` | ICMP "packet too big" replies | what the receiver reads, checksums over the real bytes, exactly which packets are answered, no reply to a reply |

Each imperative component is written twice: a specification on values, about which the
theorems are proved, and a class or method with the program's own fields, arrays and loops,
whose contract equates its new state with the specification of its old state.

## What the code does differently from its comments

- The bitmaps have exactly as many blocks as the window, without the spare block that section 2
  of RFC 6479 relies on. A counter whose block is exactly 32 (128) blocks behind the newest
  shares its word with the newest block. There it is accepted exactly one more time
  (`BlockWindow.AcceptedAgainIff`), and accepting it makes the window refuse the number one span
  later although that was never seen, which is the only way a new counter that is not too old is
  refused (`BlockWindow.FreshRefusedIff`, `BlockWindow.AliasingRun`).
- For the same reason the reorder buffer can emit a number twice (`ReorderProgress.EmittedTwice`)
  and reach its occupied-slot branch, `internal/reorder/buffer.go:176`
  (`ReorderProgress.OccupiedSlotReached`). Both happen exactly when a number emitted or held
  before is pushed again from that block while the bit it maps to is clear
  (`ReorderOnce.RepeatsIff`, `ReorderOnce.HeldAgain`). Conservation is proved with that branch live.
- The decoder can return a packet more than once. A call returns a packet exactly when it brings
  the packet's group to K usable shards and the ring lacks the packet (`FecRepetition.CallReturns`).
  After a recovery the group is forgotten, so as many further shards as packets are missing, the
  same or others, return them again (`FecRepetition.RecoveredAgain`,
  `FecRepetition.ReturnedTwice`). At-most-once delivery is the reorder buffer's.
- A newcomer to the scheduler starts level with the highest pass, but a tie goes to the lower
  index. Path 0, removed and added again before every packet, takes all of them from any other
  path (`SchedRuns.StarvedFromStart`). Path 0 itself cannot be starved
  (`SchedRuns.FirstIsNeverStarved`), and any other path waits no longer than a fixed bound plus
  the additions of lower indices (`SchedRuns.WaitIsBounded`).
- Not every old epoch is pruned. Once grace periods are over, an epoch that neither sends nor is
  pending is kept exactly when some handshake was accepted while it was pending
  (`RekeyPruning.KeptIffOverwritten`), and then it is kept for ever
  (`RekeySafety.OverwrittenForever`).
- The client cannot always open what the server sends: not before it has the server's first epoch,
  and not after it has pruned one that the server still sends under because nothing under a newer
  one arrived (`RekeyHearing.HeardAfterRun`, `RekeyHearing.FirstIsUnheard`,
  `RekeyHearing.PrunedIsUnheard`).
- A path that its MTU limit excludes from large packets falls behind without bound
  (`SchedLimits.ExclusionBreaksSpread`). No path gets more than one stride ahead of one that is at
  least as wide (`SchedLimits.WiderSpreadStays`).
- FEC headers carry 48 bits of the base number; a header comes back from the wire exactly when its
  base fits (`Wire.ParseMarshal`).
- The checksum of a reply is computed in 32-bit arithmetic. That gives the internet checksum for
  every IP packet; beyond 128 KiB the sum can wrap around, and it then verifies exactly when it
  wrapped a multiple of 65535 times (`PtbSpec.Seal32VerifiesIff`, `PtbSpec.WrapBreaksChecksum`).
- Rekey safety needs neither increasing timestamps nor distinct receiver ids at the client.
- With a ceiling below 1200 the prober searches up to 1200. Its results stay at or below the
  ceiling, whatever the network does, exactly when the ceiling is at least 1195
  (`ProberSpec.CeilingHoldsIff`); a lower one is exceeded by the run of `ProberSpec.Overshoots`.
- The branch of the encoder that merges two closed groups, and the fallback in the prober's
  `nextSize`, cannot be reached (`FecEncoder.Encoder.Add`, `ProberSpec.LaunchKeeps`).

## Model

| member | source | states |
|---|---|---|
| `BlockWindow.RunTracks` | internal/replay/replay.go:27-58 | after every run each accepted counter has its own mark or, once its block is `blocks` or more behind, possibly only the one a span above; and every mark was left by an accepted counter, itself or the one a span below |
| `BlockWindow.RunAttributes` | internal/replay/replay.go:27-58 | over every run the marks are accepted counters' own, or one span above a counter accepted from the aliased block of its time, and each of those left that mark |
| `BlockWindow.AcceptedAgainIff` | internal/replay/replay.go:27-58 | over every run an accepted counter is accepted again if and only if it lies in the partial block exactly `blocks` back and was not accepted from there before, which is when the bit it aliases to is clear; hence it is refused while its block is nearer, or once it is a span or more behind |
| `BlockWindow.FreshRefusedIff` | internal/replay/replay.go:27-58 | over every run a counter never accepted is refused if and only if it is too old or, outside the aliased block, the number one span earlier was accepted from the aliased block of its time; in the aliased block a new counter is always accepted |
| `BlockWindow.CleanRunIsIdeal` | internal/replay/replay.go:17-58 | on runs that present no counter from the aliased block, marks, highest and the accepted set are those of the set-based window |
| `BlockWindow.NextAnswerIsIdealIff` | internal/replay/replay.go:27-58 | after a clean run the next answer agrees with the set-based window if and only if it is not an accepted counter from the aliased block |
| `BlockWindow.AliasingRun` | internal/replay/replay.go:41-57 | tightness at every size: 1, span, 1 are all accepted, and span + 1 is then refused unseen |
| `BlockWindow.AliasingInUse` | internal/reorder/buffer.go:105-136 | the same run at 2048 and at 8192 |
| `BlockWindow.Bitmap.constructor` | internal/replay/replay.go:19-24 | an empty window of the given number of words |
| `BlockWindow.Bitmap.Check` | internal/replay/replay.go:27-58 | the word array with its clearing loop answers and moves exactly as the window on marks |
| `BlockWindow.Bitmap.Advance` | internal/replay/replay.go:36-47 | moving the highest counter clears precisely the words that change owner: no mark of the newest blocks is lost or gained |
| `ReorderSpec.PushKeeps` | internal/reorder/buffer.go:140-195 | Push keeps the buffer's invariant: held numbers within (next, next + 8192), deadline armed exactly when something is held, at most maxHold held; the bitmap moves by one Check |
| `ReorderSpec.FlushKeeps` | internal/reorder/buffer.go:200-209 | FlushExpired keeps it too and leaves the bitmap alone |
| `ReorderSpec.MakeRoomKeeps` | internal/reorder/buffer.go:155-161 | after an overflow the buffer is empty, next is the new number, and the number fits |
| `ReorderRuns.RunInv` | internal/reorder/buffer.go:140-209 | over every run the invariant holds and the bitmap is the window over the pushed numbers |
| `ReorderRuns.Conservation` | internal/reorder/buffer.go:140-305 | over every run the multiset of pushed packets is the disjoint sum of emitted, released and held, the occupied-slot branch included |
| `ReorderRuns.OccupyLog` | internal/reorder/buffer.go:174-182 | the occupant of a slot is released as the newcomer is stored: nothing is lost and no number is counted twice |
| `ReorderRuns.EmissionOrder` | internal/reorder/buffer.go:150-182 | a packet not passed late is above everything emitted before it, and everything emitted is below next |
| `ReorderRuns.AtMostOnce` | internal/reorder/buffer.go:105-148 | a condition on the pushed numbers alone: if none is exactly 128 blocks behind the highest seen, no number is emitted twice and none emitted is held; the exact condition is `ReorderOnce.RepeatsIff` |
| `ReorderOnce.PushedAgain` | internal/reorder/buffer.go:140-172 | after every run, pushing a number emitted before appends it once more, as a late pass, if and only if it comes from the block exactly 128 back and the bit it maps to is clear; otherwise the emitted log stays as it is |
| `ReorderOnce.RepeatsIff` | internal/reorder/buffer.go:105-195 | over every run of pushes and flushes some number is emitted twice if and only if one of the pushes is of that kind |
| `ReorderOnce.HeldAgain` | internal/reorder/buffer.go:174-182 | after every run, pushing a number that is held finds its slot occupied, releases the occupant and stores the newcomer if and only if the same condition holds; otherwise the newcomer is dropped as a duplicate |
| `ReorderRuns.NoSkipIsGapless` | internal/reorder/buffer.go:219-305 | on runs without timeout, hold-limit or overflow skip the packets not passed late are exactly first, first + 1, ..., next - 1 |
| `ReorderProgress.FlushEmitsLowestRun` | internal/reorder/buffer.go:200-263 | an expired flush emits exactly the whole lowest consecutive run held, in order, and keeps the rest |
| `ReorderProgress.FlushDropsOneRun` | internal/reorder/buffer.go:241-263 | each expired flush lowers the number of maximal runs by exactly one |
| `ReorderProgress.FlushesToEmpty` | internal/reorder/buffer.go:200-209 | as many expired flushes as there are maximal runs empty the buffer and disarm the deadline |
| `ReorderProgress.SortedMeans` | internal/reorder/buffer.go:267-305 | the reference order of an advance: strictly ascending, all and only the held packets below the target |
| `ReorderProgress.EmitBelowSorts` | internal/reorder/buffer.go:267-305 | advancing emits exactly that order |
| `ReorderProgress.OverflowEmitsAll` | internal/reorder/buffer.go:155-161 | a number beyond the ring's span emits everything held, lowest first, and leaves the buffer empty and disarmed |
| `ReorderProgress.EmittedTwice` | internal/reorder/buffer.go:105-136 | pushing 1, 8192, 1 emits number 1 twice and drops no duplicate |
| `ReorderProgress.OccupiedSlotReached` | internal/reorder/buffer.go:174-182 | pushing 0, 2, 8192, 2 reaches the occupied slot: the first packet 2 is released, the second held |
| `ReorderDeadline.StepDeadline` | internal/reorder/buffer.go:140-263 | a push or flush after which packets are held sets the deadline to its clock plus timeout if nothing was held before or it gave up on a gap, and otherwise leaves it; without held packets there is none |
| `ReorderDeadline.DeadlineIs` | internal/reorder/buffer.go:184-189 | over every run the deadline is clock plus timeout of the event with which the wait for the pending gap began, and of no later one |
| `ReorderDeadline.TimesOutIff` | internal/reorder/buffer.go:200-209 | hence exactly the flushes at or after that time give up on the gap; earlier ones change nothing |
| `ReorderDeadline.StreamDoesNotPostpone` | internal/reorder/buffer.go:184-189 | a stream behind one lost packet does not move its deadline: 0 and 2 at time 0, 3 at time 8, and the flush at time 10 emits 2 and 3 |
| `ReorderDeadline.PushCounts` | internal/reorder/buffer.go:140-195 | which counter each kind of push moves, by exactly one, and that the hold limit gives up exactly when more than maxHold packets would be held |
| `Reorder.Buffer.constructor` | internal/reorder/buffer.go:88-100 | an empty buffer |
| `Reorder.Buffer.Push` | internal/reorder/buffer.go:140-195 | the ring refines the map: every used slot sits at its own index, `held` counts the used slots, and the new state is the map-based Push of the old one |
| `Reorder.Buffer.FlushExpired` | internal/reorder/buffer.go:200-209 | the same for FlushExpired, which returns the deadline now armed |
| `Reorder.Buffer.DrainRing` | internal/reorder/buffer.go:219-237 | the draining loop emits the run at next and rearms or disarms the deadline |
| `Reorder.Buffer.GiveUpInRing` | internal/reorder/buffer.go:241-263 | scanning the slots for the lowest number skips the gap as the map-based form does |
| `Reorder.Buffer.AdvanceRing` | internal/reorder/buffer.go:267-305 | both strategies, selection and walk, come to the same advance of the map |
| `Reorder.Buffer.AdvanceBySelection` | internal/reorder/buffer.go:268-292 | repeated selection of the lowest slot leaves nothing below the target and does not change the outcome of the advance |
| `Reorder.Buffer.AdvanceByWalk` | internal/reorder/buffer.go:293-305 | walking the numbers does the same |
| `Reorder.Buffer.HoldPacket` | internal/reorder/buffer.go:174-194 | storing, arming the deadline and giving up at the hold limit |
| `ProberSpec.StepKeeps` | internal/pmtud/pmtud.go:80-227 | every tick, ack, send error and restart keeps: a search has hi - lo > 8, the size in flight strictly between, results in range |
| `ProberSpec.LaunchKeeps` | internal/pmtud/pmtud.go:115-135 | a next size is always found when a probe is due, so the fallback that finishes instead is unreachable |
| `ProberSpec.DiscoveredInRange` | internal/pmtud/pmtud.go:138-208 | over every run a positive result is between 576 and the larger of ceiling and 1200 |
| `ProberSpec.CeilingHoldsIff` | internal/pmtud/pmtud.go:138-194 | every result of every run stays at or below the ceiling if and only if the ceiling is at least 1195 |
| `ProberSpec.Overshoots` | internal/pmtud/pmtud.go:152-159 | for every ceiling up to 1200 a run that reports 1195: the ceiling probe cannot be sent, all others come back |
| `ProberSpec.ResultsAreExact` | internal/pmtud/pmtud.go:80-208 | on a path that carries exactly probes of at most L, every result ever reported is the ceiling if L reaches it, -1 if L < 576, else D with D <= L < D + 8 |
| `ProberSpec.StepShrinks` | internal/pmtud/pmtud.go:80-208 | whatever the network does, each tick ends the round or lowers a bound on the ticks left, and no other event raises it |
| `ProberSpec.RoundEnds` | internal/pmtud/pmtud.go:80-208 | without restart a round reaches done or dead within that many ticks |
| `ProberSpec.RoundBound` | internal/pmtud/pmtud.go:80-135 | the tick bound of `ProberSpec.RoundEnds` in closed form, from any point of any round: at most the wait, one tick and 15 ticks for each of 3 + m sizes, where max(ceil - 1200, 624) <= 8 * 2^m |
| `ProberSpec.RoundSizes` | internal/pmtud/pmtud.go:80-208 | over every run of a round, whatever the network does: the ticks that start probing a size are at most 3 + m until it is settled, and at most m once the search has begun |
| `ProberSpec.FirstRoundBound` | internal/pmtud/pmtud.go:71-135 | the same for a new prober: at most 6 ticks and 15 for each of 3 + m sizes |
| `ProberSpec.RevalidationEnds` | internal/pmtud/pmtud.go:80-135 | every later round too: a settled prober opens a round with a ceiling probe when its wait is over, and that is settled again within the same bound, whatever the network does |
| `ProberSpec.DiscoveryIsPrecise` | internal/pmtud/pmtud.go:80-208 | on such a path discovery does end, and with the exact result |
| `ProberTiming.SixthTickProbes` | internal/pmtud/pmtud.go:220-227 | after a restart the result is unknown, five ticks are silent and the sixth sends a probe of the ceiling |
| `ProberTiming.NewProbesAtSixth` | internal/pmtud/pmtud.go:71-76 | likewise a new prober, with the ceiling raised to 576 |
| `ProberTiming.Unanswered` | internal/pmtud/pmtud.go:84-94 | a probe that stays unanswered is repeated in the same size with the fifth and the tenth tick, and nothing else is sent |
| `ProberTiming.FifteenthTickGivesUp` | internal/pmtud/pmtud.go:84-97 | the fifteenth tick gives up on its size |
| `ProberTiming.SettlesFor3000` | internal/pmtud/pmtud.go:186-208 | a round that ends waits 3000 ticks, one of which is already used if it ended with a timeout |
| `ProberNetwork.RunBacks` | internal/pmtud/pmtud.go:138-227 | with loss, delay, repetition and stale acknowledgements, the lower end of a search and every result are sizes of probes sent since the last restart that arrived |
| `ProberNetwork.ResultWasProbed` | internal/pmtud/pmtud.go:138-227 | a positive result is the size of a probe sent since the last restart that reached the peer |
| `Pmtud.Prober.constructor` | internal/pmtud/pmtud.go:71-76 | a new prober with its ceiling raised to the floor |
| `Pmtud.Prober.Tick` | internal/pmtud/pmtud.go:80-112 | field updates agree with the specified tick, and with them everything above |
| `Pmtud.Prober.NextSize` | internal/pmtud/pmtud.go:115-135 | likewise the choice of the next size |
| `Pmtud.Prober.OnAck` | internal/pmtud/pmtud.go:138-160 | likewise an acknowledgement; any id but the one in flight changes nothing |
| `Pmtud.Prober.OnSendError` | internal/pmtud/pmtud.go:165-173 | likewise a send error |
| `Pmtud.Prober.Fail` | internal/pmtud/pmtud.go:176-194 | likewise a failed size |
| `Pmtud.Prober.Restart` | internal/pmtud/pmtud.go:220-227 | likewise a restart |
| `PathMtu.LimitIsExact` | internal/wire/mtu.go:43-57 | a probe fills its wire size exactly; the limit derived from a result admits a data or parity datagram if and only if its outer size is at most the result |
| `PathMtu.LimitsInUse` | internal/engine/session.go:658-675 | in numbers: 68 bytes around an inner packet over IPv4 and 88 over IPv6, no limit while nothing is known, one byte on a dead path |
| `PathMtu.AdmittedWasProbed` | internal/engine/session.go:658-675 | over every network behaviour, what the applied limit admits is no larger on the wire than a probe that was sent since the last restart and arrived; a dead path admits one byte |
| `PathMtu.CarriedWasProbed` | internal/engine/session.go:317-346 | composed with the scheduler's eligibility in every mode and with the parity guard: every datagram sent over a path is no larger than a probe that was sent since the last restart and arrived |
| `PathMtu.FindCandidates` | internal/engine/session.go:325-338 | the loop collects exactly the active paths that admit the shard's length, each once |
| `PathMtu.DealShards` | internal/engine/session.go:339-345 | the n-th shard goes to the n-th candidate, going round; none without candidates |
| `PathMtu.DealtFits` | internal/engine/session.go:332-345 | a shard only goes to an active path that admits it |
| `PathMtu.DealtInTurn` | internal/engine/session.go:342-345 | no path gets a second shard before every candidate has one |
| `PathMtu.DealtToLeastUsed` | internal/engine/session.go:337-345 | a candidate that gets no shard carried at least as many packets of the group as any that gets one |
| `PathMtu.DeadPathCarriesNothing` | internal/sched/sched.go:294-324 | a path applied as dead is eligible in no mode, never the pick and never dealt parity, for lengths of 20 bytes or more |
| `SchedSpec.PickIsLowest` | internal/sched/sched.go:306-324 | the pick is an eligible path of lowest pass, the lowest index on a tie; none exactly when none is eligible |
| `SchedSpec.DefaultIsValid` | internal/sched/sched.go:91-107 | the program's own configuration meets what is asked of one |
| `SchedSpec.MaxPassIsHighest` | internal/sched/sched.go:150-170 | a newcomer's pass is an upper bound of all present passes and attained |
| `SchedSpec.WeightInRange` | internal/sched/sched.go:224-275 | every weight update lands between the configured bounds |
| `SchedShares.WeightMoves` | internal/sched/sched.go:231-258 | without inflated round trips: how loss and delivery rate move a weight, case by case, and when it stays |
| `SchedShares.BloatShrinks` | internal/sched/sched.go:255-258 | a round trip above the given multiple of the lowest one takes the weight down by the bloat factor |
| `SchedShares.FastestIsLeast` | internal/sched/sched.go:262-268 | the round trip others are compared with is the least positive one of a present active path |
| `SchedShares.CappedIff` | internal/sched/sched.go:259-274 | after a report a present path is capped if and only if some active path's round trip is shorter by more than the allowed spread |
| `SchedShares.NewcomerIs` | internal/sched/sched.go:150-170 | a path that joins is active, level with the highest pass and keeps its limit; its weight is the slow-start one, the hint or the initial one |
| `SchedShares.UpdatesAre` | internal/sched/sched.go:172-220 | removal leaves nothing behind, a limit outlives a later join, absent paths have no state or metrics, and no update touches another path |
| `SchedSpec.EffectiveInRange` | internal/sched/sched.go:277-289 | effective weights stay between fixed positive bounds, degraded and capped paths included |
| `SchedRuns.SpreadIsBounded` | internal/sched/sched.go:150-324 | any interleaving of assignments, metrics, additions, removals and state changes keeps every present pass within Lmax / wmin of every usable one |
| `SchedRuns.StrideIsFair` | internal/sched/sched.go:277-324 | from equal passes, at every point of every sequence of packet lengths, bytes over weight of two usable paths differ by at most Lmax over the smaller weight |
| `SchedShares.DegradedShare` | internal/sched/sched.go:277-324 | from level passes a degraded path carries degradedFraction of the bytes of an active one of the same weight and capping, give or take one packet, at every point of every run |
| `SchedShares.CappedShare` | internal/sched/sched.go:277-324 | likewise a capped path and spreadCap |
| `SchedShares.ActiveShare` | internal/sched/sched.go:277-324 | active paths that are not capped share in proportion to their plain weights, give or take one packet |
| `SchedRuns.WaitIsPaid` | internal/sched/sched.go:294-324 | each non-empty packet that passes a usable path over uses up one of finitely many credits; only the addition of a path with a lower index brings a new one |
| `SchedRuns.WaitIsBounded` | internal/sched/sched.go:150-324 | from every reachable state a usable path is passed over by at most a fixed number of non-empty packets plus one per addition meanwhile of a path with a lower index |
| `SchedRuns.FirstIsNeverStarved` | internal/sched/sched.go:294-324 | so path 0 is passed over by at most that fixed number, whatever is added and removed |
| `SchedRuns.ChurnStarves` | internal/sched/sched.go:150-170 | path 0, removed and added before each of n packets, takes all n from any other path that is alone with it |
| `SchedRuns.StarvedFromStart` | internal/sched/sched.go:150-170 | for every other index this is reached from an empty scheduler, so only path 0 has a bound without counting additions |
| `SchedLimits.WiderSpreadStays` | internal/sched/sched.go:294-324 | with packets excluded from any paths by their limits, over every run without additions and limit changes: no path gets more than one maximal stride ahead of a usable one that admits at least the same packets, so paths with equal limits stay together |
| `SchedLimits.ExclusionBreaksSpread` | internal/sched/sched.go:306-324 | for every bound a run from an empty scheduler in which an excluded path falls further behind than that |
| `Sched.Scheduler.constructor` | internal/sched/sched.go:130-132 | an empty table |
| `Sched.Scheduler.Assign` | internal/sched/sched.go:294-324 | redundant mode: all and only the eligible paths, each once and in order, nothing charged; otherwise the pick alone, and it is charged |
| `Sched.Scheduler.AddPath` | internal/sched/sched.go:150-170 | the table update of the specification, by scanning for the highest pass |
| `Sched.Scheduler.RemovePath` | internal/sched/sched.go:207-211 | the entry is cleared, others untouched |
| `Sched.Scheduler.SetState` | internal/sched/sched.go:214-220 | the state of a present path changes, nothing else |
| `Sched.Scheduler.SetPathMTU` | internal/sched/sched.go:175-179 | the limit of one path changes, nothing else |
| `Sched.Scheduler.OnMetrics` | internal/sched/sched.go:224-275 | the weight update and the recapping of all paths against the fastest |
| `RekeySafety.StepKeeps` | internal/engine/session.go:139-178 | every protocol step, pruning and foreign sessions included, keeps the joint invariant of client, server, index and network |
| `RekeySafety.RekeyIsSafe` | internal/engine/server.go:143-174 | after every interleaving: the client's send epoch is indexed and not superseded at the server; each side still holds its own send epoch unsuperseded; the server's is its first or one the client adopted; no handshake was accepted twice |
| `RekeySafety.ClientEpochIsLive` | internal/engine/client.go:356-407 | in every state of the invariant the client's send epoch is indexed and live at the server |
| `RekeySafety.AcceptedOnce` | internal/engine/server.go:143-153 | an init that passes the timestamp check was never accepted before |
| `RekeySafety.ServerMovesForward` | internal/engine/session.go:474-479 | whenever a step changes the server's send epoch, the new one was accepted later than the old |
| `RekeySafety.ServerNeverGoesBack` | internal/engine/session.go:474-479 | over every continuation of a run the server's send epoch is one accepted no earlier than the one before |
| `RekeySafety.OverwrittenForever` | internal/engine/server.go:166-174 | an epoch overwritten while pending stays indexed and unsuperseded through every later run |
| `RekeySafety.OverwrittenHappens` | internal/engine/server.go:166-174 | such an epoch is reachable |
| `RekeyPruning.BecomesOverwrittenIff` | internal/engine/server.go:143-174 | a step makes an accepted epoch overwritten if and only if it accepts a handshake while that epoch is pending |
| `RekeyPruning.OverwrittenIff` | internal/engine/server.go:143-174 | over every run an epoch ends up overwritten if and only if some step did that |
| `RekeyPruning.PruneLeavesIff` | internal/engine/session.go:166-178 | once grace periods are over, pruning leaves exactly the send epoch, the pending one and the overwritten ones |
| `RekeyPruning.KeptIffOverwritten` | internal/engine/session.go:166-178 | so over every run any other epoch is kept if and only if some handshake was accepted while it was pending |
| `RekeyHearing.HeardIff` | internal/engine/client.go:292-298 | one step: what the server sends stays readable for the client unless the step is the server's first acceptance, the pruning of that epoch after its grace period or the adoption of another one under the same id; and becomes readable exactly when the client adopts that epoch or the server moves on |
| `RekeyHearing.PromotedIsClients` | internal/engine/session.go:474-479 | the epoch the server moves to is the one the client sends under, and the client holds it |
| `RekeyHearing.HeardAfterRun` | internal/engine/session.go:139-178 | after every run the client can open what the server sends exactly unless such a silencing step was not followed by a restoring one; and always while both send under the same epoch |
| `RekeyHearing.FirstIsUnheard` | internal/engine/server.go:168-174 | a run after which the server sends under an epoch the client never got |
| `RekeyHearing.PrunedIsUnheard` | internal/engine/session.go:166-178 | a run after which the server sends under an epoch the client adopted and has pruned |
| `RekeyProgress.AttemptGoesOn` | internal/engine/client.go:381-390 | an attempt under way survives everything but its own response, giving up and a new attempt; stale responses under other ids in particular |
| `RekeyProgress.AttemptCompletes` | internal/engine/client.go:356-407 | so when its response arrives, after any such steps, the client sends under that epoch, holds it, has adopted it last and the attempt is over |
| `RekeyProgress.OtherResponses` | internal/engine/client.go:387-394 | a response under another id changes nothing; one under this id that does not belong to the attempt ends it without an epoch |
| `RekeyProgress.RekeySucceeds` | internal/engine/server.go:143-174 | from every reachable state an advancing timestamp, an unused id and four messages that arrive make both sides send under the new epoch |
| `RekeyProgress.NotAcceptedLater` | internal/engine/server.go:143-160 | an init once looked at, answered or not, is accepted in no later state |
| `RekeyProgress.ServerSupersedes` | internal/engine/session.go:139-151 | the moment the server moves on its former send epoch is marked superseded |
| `RekeyProgress.ServerGrace` | internal/engine/session.go:164-178 | an epoch superseded at t still opens what arrives at the server over every run that prunes no later than t + 90, and is gone after a pruning beyond |
| `RekeyProgress.ClientGrace` | internal/engine/session.go:164-178 | likewise at the client while it adopts no other epoch under that id |
| `RekeyProgress.IndexIsSession` | internal/engine/server.go:209-215 | after every run, with the pruned ids removed, the server's index resolves exactly the epochs the session files |
| `Rekey.Session.RegisterEpoch` | internal/engine/session.go:139-151 | the former send epoch is marked superseded at this time, the new one is filed and sends |
| `Rekey.Session.PruneEpochs` | internal/engine/session.go:166-178 | exactly the epochs superseded longer ago than the grace period go, and exactly their ids are returned |
| `Rekey.Session.Receive` | internal/engine/session.go:464-479 | a datagram is taken if and only if the epoch it was sealed under is filed under the id in its header and the replay window has not seen its counter; then that epoch stays filed and, if it was pending, sends from now on; otherwise nothing changes but the window |
| `Rekey.Session.OnReceive` | internal/engine/session.go:474-479 | a packet under the pending epoch promotes it, any other changes nothing |
| `Rekey.Session.HandshakeOnce` | internal/engine/client.go:379-407 | of the responses that arrive the first one under the attempt's id decides: adopted if and only if it belongs to the attempt; stale ones before it are passed over |
| `Rekey.Endpoint.AllocRxID` | internal/engine/server.go:197-206 | the id drawn is unused; none is found only if every draw was in use |
| `Rekey.Endpoint.UnindexRxIDs` | internal/engine/server.go:209-215 | exactly these ids leave the index |
| `Rekey.Endpoint.HandleHandshakeInit` | internal/engine/server.go:128-174 | answered if and only if the timestamp advances and an unused id is drawn, and then fields and index become those of the protocol step that accepts the handshake; otherwise at most the timestamp moves |
| `Rekey.Endpoint.HandleDatagram` | internal/engine/server.go:114-121 | taken if and only if the index resolves its id to the epoch it was sealed under and the replay window has not seen its counter; then the session becomes what the protocol step makes it, otherwise it stays |
| `Wire.ParseMarshal` | internal/wire/fec.go:46-76 | parsing a marshalled header with its shard gives both back, the base cut to 48 bits; so the header comes back if and only if it is valid |
| `Wire.MarshalParse` | internal/wire/fec.go:46-76 | everything parsed is valid and marshals back to the same bytes but for the reserved nibble |
| `Wire.PaddingIsStripped` | internal/wire/fec.go:84-109 | the length a packet declares, by its bytes, survives zero padding, so cutting to it gives the packet back |
| `Wire.InnerLengthIff` | internal/wire/fec.go:84-109 | a length n is read from a buffer if and only if its first n bytes are an IP packet: version 4 with total length n, or version 6 with payload length n - 40 |
| `Wire.OtherVersionsHaveNone` | internal/wire/fec.go:84-109 | no length is read from other versions or an empty buffer |
| `Wire.HeaderLayout` | internal/wire/fec.go:46-57 | the header byte by byte: little-endian base, K and R as nibbles, the index in the high nibble |
| `ErasureCodes.XorRebuilds` | internal/fec/fec.go:30-41 | from any K of the K + 1 shards of single XOR parity the data shards come back |
| `ErasureCodes.XorIsErasureCode` | internal/fec/fec.go:30-41 | so the any-K-of-K+R hypothesis on the code is satisfiable for every K |
| `FecEncoderSpec.ParityCountInRange` | internal/fec/fec.go:169-190 | between 1 and min(4, K) parity shards for every loss estimate |
| `FecGrouping.FixedParity` | internal/fec/fec.go:169-190 | a fixed count within range is used, a higher one cut to four and to K |
| `FecGrouping.AdaptiveParity` | internal/fec/fec.go:170-182 | an adaptive encoder sends more than n shards if and only if 2 * K * loss + 0.5 >= n, up to four and K |
| `FecGrouping.MoreLossMoreParity` | internal/fec/fec.go:169-190 | the count never falls as the loss grows |
| `FecGrouping.FixedOverRuns` | internal/fec/fec.go:91-113 | over every run every group gets the fixed count, or K if that is less |
| `FecEncoderSpec.MaxLenIsLongest` | internal/fec/fec.go:194-210 | the shard size is the length of a longest member |
| `FecEncoderSpec.EncoderPartitions` | internal/fec/fec.go:119-237 | over every run closed groups and the open one split the packets added, in order, into blocks of consecutive numbers, with 1 <= K <= k and 1 <= R <= min(4, K) |
| `FecGrouping.GroupsAreFull` | internal/fec/fec.go:119-156 | over every run of consecutive packets the i-th group holds exactly the k packets from first + k * i on, k being the configured size within 2 and 15 |
| `FecGrouping.StartedIs` | internal/fec/fec.go:132-136 | over every run the open group's age counts from the packet that opened it |
| `FecGrouping.FlushDueIff` | internal/fec/fec.go:159-166 | a flush closes the open group if and only if that packet lies flushAfter or more back |
| `FecGrouping.Unprotected` | internal/fec/fec.go:119-223 | packets above 2048 bytes are passed over and a group of empty packets ends without parity |
| `FecEncoderSpec.PathCountsSum` | internal/fec/fec.go:119-156 | path counts of a group sum to K |
| `FecGrouping.CountPathIs` | internal/fec/fec.go:142-143 | each path count is the number of members sent on that path |
| `FecEncoder.Encoder.constructor` | internal/fec/fec.go:91-113 | an empty encoder with k clamped |
| `FecEncoder.Encoder.Add` | internal/fec/fec.go:119-156 | shard buffers, lengths and counts hold the open group; at most one group closes per call, as specified, and goes out with its padded shards encoded |
| `FecEncoder.Encoder.FlushExpired` | internal/fec/fec.go:159-166 | the same for the flush timer |
| `FecEncoder.Encoder.FlushLocked` | internal/fec/fec.go:194-237 | closing zeroes the stale tail of every reused buffer, so the code sees the members zero-padded to the longest |
| `FecRecovery.ReconstructIsExact` | internal/fec/decoder.go:133-201 | a tracked group short of K shards is kept untouched; any other is dropped, and exactly the packets of it missing from the ring are returned, as sent |
| `FecRecovery.AddDataKeeps` | internal/fec/decoder.go:70-97 | every data packet keeps: each tracked group short of shards, `got` its parity count, at most 64 groups; and returns only what was sent |
| `FecRecovery.AddParityKeeps` | internal/fec/decoder.go:100-129 | so does every parity shard |
| `FecEndToEnd.EncoderIsHonest` | internal/fec/fec.go:119-237 | every encoder run over increasing numbers and self-describing packets gives disjoint groups that carry what was sent |
| `FecEndToEnd.RecoveryIsAuthentic` | internal/fec/decoder.go:70-201 | under any loss, reordering and repetition every (number, packet) returned is byte for byte what the sender added; after every call each group is short and the table holds at most 64 |
| `FecEndToEnd.WireCarries` | internal/wire/fec.go:46-76 | a parity packet that is marshalled and parsed is the shard it carries, while numbers fit into 48 bits |
| `FecEndToEnd.RecoveryOverTheWire` | internal/fec/decoder.go:100-201 | the same from bytes to bytes: parity packets marshalled, lost, repeated, reordered and parsed give back only what was sent |
| `FecEndToEnd.XorCorrects` | internal/fec/fec.go:194-237 | with one fixed parity shard XOR meets the code hypothesis on every encoder run |
| `FecRepetition.ParityYields` | internal/fec/decoder.go:100-201 | a genuine shard returns every missing packet of its group if that now has K usable shards, counting ring, stored parity and this shard if new, and nothing otherwise; the group stays tracked exactly in the second case |
| `FecRepetition.DataYields` | internal/fec/decoder.go:70-97 | likewise for a data packet and the tracked group it belongs to |
| `FecRepetition.CallReturns` | internal/fec/decoder.go:70-201 | for every call and every packet of a closed group: the call returns the packet if and only if it brings the group to K usable shards and the ring lacks the packet |
| `FecRepetition.ParityCompletes` | internal/fec/decoder.go:100-150 | after a parity shard its group is tracked and short, or every packet of it is in the ring or just returned |
| `FecRepetition.DataCompletes` | internal/fec/decoder.go:70-97 | likewise after a data packet of a tracked group |
| `FecRepetition.ShardsReturn` | internal/fec/decoder.go:100-201 | shards of an untracked group with any number of packets missing: nothing comes back until there are as many different shards as missing packets, and that one returns them all and leaves the group untracked |
| `FecRepetition.RecoveredAgain` | internal/fec/decoder.go:184-201 | hence a second batch of as many shards, the same or others, returns the same packets again |
| `FecRepetition.ReturnedTwice` | internal/fec/decoder.go:184-201 | a run from a new decoder with the XOR code: one of two packets is lost, the parity shard arrives twice, and the lost packet is returned both times |
| `FecCompleteness.RunCompletes` | internal/fec/decoder.go:70-236 | over every run: if K different shards of a closed group arrive, data or parity, and no call pushes its packets out of the ring or prunes or evicts it before it is complete, every packet of it was there, came or was returned |
| `FecCompleteness.NearIsUntouched` | internal/fec/decoder.go:205-236 | no call does that while packet numbers stay within a ring's length of the group and a new group finds room in the table or an older one to replace |
| `FecCompleteness.CalmRunCompletes` | internal/fec/decoder.go:70-236 | hence the same from a new decoder under that condition on the inputs |
| `FecCompleteness.ForgottenIff` | internal/fec/decoder.go:205-218 | a group is pruned if and only if it begins more than 241 numbers below the highest packet, once that is at least 256; each counts as failed |
| `FecCompleteness.EvictsLowest` | internal/fec/decoder.go:221-236 | a new group in a full table of 64 replaces exactly the one with the lowest base |
| `FecCompleteness.HighestIs` | internal/fec/decoder.go:77-90 | the highest packet seen |
| `FecCompleteness.MisfitsIgnored` | internal/fec/decoder.go:100-129 | a shard that disagrees with its group about K, R or size changes nothing, nor does anything above 2048 bytes |
| `FecCompleteness.LongPacketBlocks` | internal/fec/decoder.go:133-170 | nothing is rebuilt while a packet on hand is longer than the group's shards |
| `FecEndToEnd.DeliveryIsSoundAndOnce` | internal/engine/session.go:496-535 | data packets in FEC mode and outside it and everything recovered, pushed into the reorder buffer: only what was sent is emitted; a number is emitted twice if and only if a push of it slips through as in `ReorderOnce.RepeatsIff`, so never on clean runs |
| `FecDecoder.Decoder.constructor` | internal/fec/decoder.go:63-67 | an empty ring and table |
| `FecDecoder.Decoder.AddData` | internal/fec/decoder.go:70-97 | the array-and-map decoder does what the specification allows, whichever covering group the map iteration meets first |
| `FecDecoder.Decoder.AddParity` | internal/fec/decoder.go:100-129 | likewise for a parity shard |
| `FecDecoder.Decoder.Reconstruct` | internal/fec/decoder.go:133-201 | shard assembly, the code and the harvest loop give the specified reconstruction |
| `FecDecoder.Decoder.PruneStale` | internal/fec/decoder.go:205-218 | exactly the groups that lie too far behind are removed and counted as failed |
| `FecDecoder.Decoder.Evict` | internal/fec/decoder.go:221-236 | exactly the group with the lowest base is removed |
| `PtbSpec.FoldKeepsResidue` | internal/pmtunotify/pmtunotify.go:186-199 | folding ends below 2^16, keeps the sum modulo 2^16 - 1, and is zero only for zero |
| `PtbSpec.SealVerifies` | internal/pmtunotify/pmtunotify.go:186-199 | with the checksum filled in at an even offset, recomputing gives zero, for all bytes and any pseudo-header sum |
| `PtbSpec.Seal32VerifiesIff` | internal/pmtunotify/pmtunotify.go:186-199 | computed in 32-bit arithmetic it verifies if and only if the number of times the sum wrapped around is a multiple of 65535 |
| `PtbSpec.WrapBreaksChecksum` | internal/pmtunotify/pmtunotify.go:186-199 | a body of more than 128 KiB whose checksum is wrong |
| `PtbSpec.WrittenIsReply` | internal/pmtunotify/pmtunotify.go:32-43 | what is written in 32-bit arithmetic is the reply for every packet up to 96 KiB, and so for every IP packet |
| `PtbSpec.Reply4IsSound` | internal/pmtunotify/pmtunotify.go:45-119 | IPv4 replies: header and ICMP checksums verify, length at most maxOuter, the packet quoted exactly, and never answered |
| `PtbSpec.Reply6IsSound` | internal/pmtunotify/pmtunotify.go:121-183 | IPv6 replies: the checksum with the pseudo-header read from the reply verifies, length at most maxOuter and 1280, never answered |
| `PtbSpec.RepliesAreNotAnswered` | internal/pmtunotify/pmtunotify.go:32-43 | no reply provokes a reply, whoever would answer and with whatever limits |
| `PtbReading.Reading4` | internal/pmtunotify/pmtunotify.go:45-119 | what the addressee of an IPv4 reply reads: length, protocol, both addresses, type 3 code 4, the MTU between 576 and 65535, the start of its packet, and two checksums that verify |
| `PtbReading.Reading6` | internal/pmtunotify/pmtunotify.go:121-183 | what the addressee of an IPv6 reply reads: payload length, next header 58, both addresses, type 2 code 0, the MTU of at least 1280, the start of its packet, and a checksum that verifies over the bytes of the pseudo-header |
| `PtbReading.Answered4Iff` | internal/pmtunotify/pmtunotify.go:45-85 | which IPv4 packets are answered, as an if-and-only-if over their bytes |
| `PtbReading.Answered6Iff` | internal/pmtunotify/pmtunotify.go:121-155 | which IPv6 packets are answered, as an if-and-only-if over their bytes |
| `PtbReading.AnsweredVersions` | internal/pmtunotify/pmtunotify.go:32-43 | only packets of these versions are answered, each by its own kind |
| `PtbReading.SumPadsWithZero` | internal/pmtunotify/pmtunotify.go:186-199 | an odd last byte is summed as if a zero byte followed |
| `Ptb.Accumulate` | internal/pmtunotify/pmtunotify.go:187-194 | the summing loop computes the sum of 16-bit words modulo 2^32 |
| `Ptb.FoldCarries` | internal/pmtunotify/pmtunotify.go:195-197 | the folding loop terminates with the folded sum |
| `Ptb.Checksum1071` | internal/pmtunotify/pmtunotify.go:186-199 | the checksum in 32-bit arithmetic, which up to 96 KiB is the internet checksum |
| `Ptb.ChecksumV6` | internal/pmtunotify/pmtunotify.go:203-226 | the checksum with the pseudo-header |
| `Ptb.BuildPTB` | internal/pmtunotify/pmtunotify.go:32-43 | the reply, as computed in 32-bit arithmetic, stands at the front of the buffer and nothing else changed; without a reply, or room for it, the buffer is untouched |
| `Ptb.BuildV4` | internal/pmtunotify/pmtunotify.go:45-119 | likewise for IPv4: answered exactly when all checks pass and the reply fits |
| `Ptb.BuildV6` | internal/pmtunotify/pmtunotify.go:121-183 | likewise for IPv6 |

## Left out

- Noise handshakes, HKDF and ChaCha20-Poly1305: opening succeeds exactly for what the peer sealed under that epoch.
- The Reed-Solomon library: any K of K + R shards determine the data is a hypothesis (`ErasureCode`); the XOR code meets it.
- TUN, UDP, netlink, routing, NAT, the control socket, the CLI and configuration loading: I/O.
- Clocks, timeouts, loss estimates and random ids are parameters; floating point is modelled over the reals.
- Locks and goroutines: each mutex-protected method is one atomic step.
- Sequence numbers and counters are unbounded: wrap-around of 64-bit counters, and of the 48-bit numbers in data headers, is not modelled.
- Bitmap words are sets of bit positions rather than 64-bit integers.
- `internal/path` metrics: smoothing heuristics; they enter the scheduler as arbitrary values.
- `MinUsableInner`, `PathWeight`, `WeightBps` and statistics snapshots (`gapSince`, `HeldOldestMs`): read-only views.
- The ICMP limiter: tokens are not refilled before its sweep, so it has no clear reaping guarantee.
- Header round trips in `packet.go`, `probe.go` and `handshake.go`: easy members.
- Reuse of scratch buffers by encoder and decoder beyond the encoder's data shards: shards handed out are values.
- PathMtu.DealShards: the library sort between collecting candidates and dealing shards is the relation `DealingOrder`, with ties in any order.
- The size check of `injectRecovered`.
- `registerEpoch` without making the epoch the sender: no caller does that.
- ProberNetwork.ResultWasProbed: for runs that send fewer than 2^32 probes, since probe ids wrap around there; likewise ProberNetwork.RunBacks and what builds on it.
- Rekey.Endpoint.AllocRxID: the random numbers drawn are a finite sequence; the program draws until an id is unused.
- SchedRuns.WaitIsBounded: counts additions of lower indices, because without them the claim is false (`SchedRuns.StarvedFromStart`).
- ReorderRuns.AtMostOnce: a sufficient condition that needs no knowledge of the buffer; `ReorderOnce.RepeatsIff` is the exact one.
