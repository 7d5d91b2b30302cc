# Verified models of the event, thread and buffer code

This project models, in Dafny, the parts of the repository whose correctness is hard to see by reading them: the
inline state machines of the bundled network library headers under `include/`, and the device polling worker of the
Qt application. Each component has its own module; the whole project is checked by

    dafny verify dfyconfig.toml

Three kinds of modules occur.

* **In place.** Code that updates fields or arrays is a class with those fields. In `HRingBufModule`, `HVLBufModule`,
  `Reconnect`, `LineReader`, `DeviceWorker`, `LoadBalance` and `TimerLoop` the methods are proved against specification
  functions, and the promises are theorems about these. The classes of `EventPosting`, `ObjectPool` and
  `HThreadPoolCode` carry the state of the interleaving machine beside their fields; their methods are proved to take
  the machine's steps, so its theorems hold for them. `TcpServerLoop` is the server with a single loop.
* **Interleaved.** Code run by several threads is a state machine whose actions are single atomic accesses, lockings
  and unlockings (`ThreadPool*`, `TcpServer`, `EventPosting`, `ObjectPool`). A run is any sequence of enabled actions
  of any number of threads, and the theorems hold after every run.
* **Meaning.** A reference definition that the code is compared with: a queue of blocks laid out in memory
  (`RingBuf`, `RingFifo`), a byte deque (`HVLBufModule`), a positional value and a recursive encoding (`Varint`), the
  documented delay schedule (`Reconnect`), "normalise the line ends, then split" (`LineReader`), a table of repeat
  counts with its history (`Timers`).

The main results:

* **HRingBuf** refines a bounded FIFO of byte strings over every run, although `free` must infer from a length alone
  whether `alloc` skipped the end of the memory; `alloc` fails exactly when it has to, except on a ring that holds
  nothing, where the exact condition is proved instead.
* **HVLBuf** is a byte deque over every run, a stream in both directions, with capacity at most twice the peak (or the
  initial one) and no more bytes copied by reallocations than the capacity has grown by.
* **HThreadPool**: tasks are conserved, leave the queue in push order and finish at most once, through stops and
  restarts; the counters mean what they say; the minimum is kept over every run; the two mutexes and the nested join in
  `delThread` cannot deadlock, and whoever holds a lock releases it within a known number of steps; `wait` on a fixed
  pool is sound; a pause lets at most one task per live worker slip through, and lasts exactly when no start is under
  way; one worker alone serves the whole queue in order, and `commit` creates a thread exactly when it should.
* **TcpServer**: every loop serves its connections in the order they were accepted; the connection limit is overshot by
  at most (loops - 1), and this bound is attained for every limit and every number of loops; a loop's counter never
  gives back the connections it turned away, in any continuation of any run.
* **EventLoop**: callbacks run once each in push order for every order of wakeups, the pop never meets an empty queue;
  a timer nobody kills fires as often as `setTimer` was asked plus once per revival, and one set with no repeats fires
  for ever exactly when it fires before it is reset.
* **HObjectPool** never hands out an object twice, its count is exact in every interleaving, it lends objects first
  returned first, and who creates, waits or gives up is settled by the state it finds.
* **Varint, reconnect back-off, readline, load balancing and device polling** follow their reference definitions, with
  the exact condition wherever a promise only holds conditionally.

Where code and expectation disagree, the code is modelled and the difference is a theorem:

* `alloc` on an empty but used ring can fail although the whole memory is free (`RingBuf.EmptyAllocCanFail`).
* `max_retry_cnt` N allows N-1 retries between connects (`Reconnect.RetryLimit`), and only as long as fewer than 2^32
  closes come in a row (`Reconnect.RetryLimitExactly`): then the counter wraps and N more are allowed, again and again
  (`Reconnect.RetryCountExactly`).
* The delay schedule documented at `include/hloop.h:586-594` can collapse through 32-bit overflow
  (`Reconnect.DoublingCanCollapse`); exactly when it does not is `Reconnect.LinearFollowsExactly` for linear growth and
  `Reconnect.GrowthFollowsExactly` for any factor.
* A rejected connection is counted in `connectionNum` for ever (`TcpServer.RejectedForever`,
  `TcpServer.RejectionsNeverGivenBack`), and such runs exist for every limit (`TcpServerTight.RejectionLeaks`).
* A timer set with zero repeats wraps to INFINITE at its first firing and then never leaves, unless a reset comes before
  that firing and gives it one repeat (`Timers.ZeroRepeatsExactly`, `Timers.ZeroRepeatsBothWays`).
* `start` tests and stores `status` in two steps, so the second of two clients that start a stopped pool can undo a
  pause without any resume (`ThreadPoolTheorems.StartRaceEndsPause`); a pause lasts exactly when no client is between
  the two steps (`ThreadPoolTheorems.PauseLastsExactly`).
* `readline` takes a CR and the LF of an empty line behind it for one line end; only then does it lose a line
  (`LineReader.ReadsBackExactly`).
* The index loop of `slotDelDev` skips an element after each removal; it is right only because no two devices of one
  category are on line (`DeviceWorker.LoopRemovesAllExactly`, `DeviceWorker.DeleteIsExact`).

## Model

| member | source | states |
|---|---|---|
| RingBuf.AllocReturnsFreeRun | include/hbuf.h:210-233 | the bytes handed out are inside the memory, in no live block and not in the skipped end gap |
| RingBuf.AllocFailsExactly | include/hbuf.h:210-233 | on a ring that holds bytes, null is returned if and only if no contiguous free run of the length exists |
| RingBuf.EmptyAllocFailsExactly | include/hbuf.h:212-223 | on a ring that holds nothing all memory is free, yet null is returned exactly when the length exceeds both the part left of head and the part right of it |
| RingBuf.EmptyAllocCanFail | include/hbuf.h:210-244 | a concrete ring, reached by one alloc and one free, on which alloc fails although every byte is free |
| RingBuf.FreshAllocFailsExactly | include/hbuf.h:206-223 | a ring that has not been used hands out its memory from the start, up to all of it |
| RingBuf.AllocKeepsLayout | include/hbuf.h:210-233 | a successful alloc appends one block to the queue of blocks the offsets stand for |
| RingBuf.AllocSound | include/hbuf.h:210-233 | one allocation in full: where it fails, on a ring that holds bytes and on one that does not, where it puts the block, and blocks in bounds and pairwise disjoint before and after |
| RingBuf.FreeKeepsLayout | include/hbuf.h:235-244 | free removes exactly the oldest block, although it only learns its length |
| RingBuf.LayoutSafe | include/hbuf.h:204-254 | live blocks lie in the memory and never overlap |
| RingBuf.LayoutSize | include/hbuf.h:212-226 | size counts exactly the live bytes, tells the two shapes apart as alloc assumes, and head equals tail when nothing is live |
| RingFifo.PutStep | include/hbuf.h:210-233 | allocating and filling a block appends its bytes to the FIFO, or changes nothing when there is no room |
| RingFifo.PutKeeps | include/hbuf.h:210-233 | filling a new block leaves the bytes of every other live block unchanged |
| RingFifo.TakeStep | include/hbuf.h:235-244 | freeing the oldest block removes the oldest byte string, the others stay |
| RingFifo.RunConserves | include/hbuf.h:210-244 | over any run, held + put in = taken out + still held, in order and byte for byte |
| RingFifo.RunIsFifo | include/hbuf.h:204-254 | every run from a new ring is a FIFO, with disjoint in-bounds blocks, an exact size, and head = tail when empty |
| HRingBufModule.HRingBuf.constructor | include/hbuf.h:206-207 | a new ring is the empty queue |
| HRingBufModule.HRingBuf.Alloc | include/hbuf.h:210-233 | the method does what the specification says, in place, with the free-run, failure and disjointness guarantees |
| HRingBufModule.HRingBuf.Place | include/hbuf.h:210-233 | the branches of alloc on the three fields, null base included |
| HRingBufModule.HRingBuf.Free | include/hbuf.h:235-244 | drops exactly the oldest block |
| HRingBufModule.HRingBuf.Clear | include/hbuf.h:246 | forgets every block from any state |
| HVLBufModule.HVLBuf.constructor | include/hbuf.h:122 | a new buffer is the empty deque |
| HVLBufModule.HVLBuf.Over | include/hbuf.h:121 | a buffer over existing bytes holds exactly these |
| HVLBufModule.HVLBuf.Resize | include/hbuf.h:91-102 | the common prefix of bytes survives, nothing happens for an equal size, the cost is the old length |
| HVLBufModule.HVLBuf.Reserve | include/hbuf.h:129-132 | contents survive growth, and afterwards there is room, also behind the contents |
| HVLBufModule.HVLBuf.Move | include/hbuf.h:134-138 | an overlapping move inside the allocation keeps the contents |
| HVLBufModule.HVLBuf.CopyBefore | include/hbuf.h:140-142 | bytes written in front become the front of the contents |
| HVLBufModule.HVLBuf.CopyAfter | include/hbuf.h:155-156 | bytes written behind become the back of the contents |
| HVLBufModule.HVLBuf.PushFront | include/hbuf.h:128-143 | contents become the pushed bytes followed by the old contents; all writes in bounds; the capacity doubles the larger of itself and the pushed length exactly when room is missing |
| HVLBufModule.HVLBuf.PushBack | include/hbuf.h:145-157 | contents become the old contents followed by the pushed bytes; all writes in bounds; the same growth |
| HVLBufModule.HVLBuf.PopFront | include/hbuf.h:159-168 | the front bytes are handed back and removed; too long a pop does nothing |
| HVLBufModule.HVLBuf.PopBack | include/hbuf.h:170-177 | the back bytes are handed back and removed; too long a pop does nothing |
| HVLBufModule.HVLBuf.Clear | include/hbuf.h:179-181 | the empty deque, at offset 0 |
| HVLBufModule.HVLBuf.Perform | include/hbuf.h:128-177 | one operation: deque step, capacity bound and copying cost together |
| HVLBufModule.HVLBuf.Run | include/hbuf.h:91-177 | any mix of operations refines the byte deque; capacity at most max(initial, 2 x peak); bytes copied by resizes at most the growth of the capacity |
| HVLBufModule.StreamOrder | include/hbuf.h:145-168 | filled at the back and drained at the front, all bytes come out in the order they went in |
| HVLBufModule.StreamOrderBackwards | include/hbuf.h:128-177 | filled at the front and drained at the back, all bytes come out in the order they went in |
| HVLBufModule.PushThenPop | include/hbuf.h:128-177 | pushing and popping the same length at one end hands the bytes back and restores the contents, at either end |
| HVLBufModule.NothingLost | include/hbuf.h:128-177 | for any mix of ends, bytes handed back and bytes held are together exactly the bytes put in |
| Varint.Encode | include/hmath.h:28-39 | the loop writes exactly the encoding and touches no byte behind it |
| Varint.EncodingShortest | include/hmath.h:28-39 | k is the least number of groups with v < 128^k, and at most 9 below 2^63 |
| Varint.EncodingLead | include/hmath.h:34-37 | all bytes but the last have the continuation bit, whatever follows |
| Varint.EncodingValue | include/hmath.h:31-38 | the seven-bit groups add up to the value |
| Varint.EncodingLast | include/hmath.h:34-38 | the last group is empty only for zero |
| Varint.OrIsPlus | include/hmath.h:52 | or of disjoint bit ranges is addition |
| Varint.OrByteIsValue | include/hmath.h:52 | one accumulation step in 64 bits is positional value modulo 2^64, the tenth byte included |
| Varint.OrByte | include/hmath.h:52 | the statement itself, against the positional value |
| Varint.Decode | include/hmath.h:42-66 | the loop returns what the format says: value and length, 0 for too few bytes, -1 for no end in ten |
| Varint.ToInt64 | include/hmath.h:42-66 | the signed reading of 64 bits: in range, and the same or 2^64 less |
| Varint.DecodeEnds | include/hmath.h:47-65 | each of the three exits of the loop against the format |
| Varint.RoundTrip | include/hmath.h:28-66 | decoding an encoding, with anything behind it and with or without a limit, gives the value and its length |
| Varint.PrefixAsksForMore | include/hmath.h:47-51 | every non-empty strict prefix of an encoding is reported as not enough |
| Varint.TenContinuationBytes | include/hmath.h:61-65 | -1 is reported if and only if the first ten readable bytes all continue |
| Varint.ReencodeExactly | include/hmath.h:28-66 | re-encoding a decoded value gives the same bytes if and only if they were at most nine and not padded with empty groups |
| Varint.Canonical | include/hmath.h:28-66 | every well-formed unpadded byte string is the encoding of its value |
| Varint.StreamRoundTrip | include/hmath.h:28-66 | a concatenation of encodings decodes back to the same list |
| Reconnect.ReconnSetting.constructor | include/hloop.h:612-620 | the default setting: 1 s to 60 s, doubling, retries without end, at the beginning of its schedule |
| Reconnect.DefaultSchedule | include/hloop.h:612-647 | the default setting really gives 1, 2, 4, 8, 16, 32 and then 60 s for ever |
| Reconnect.ReconnSetting.Reset | include/hloop.h:622-625 | delay and retry count go back to zero |
| Reconnect.ReconnSetting.CanRetry | include/hloop.h:627-631 | counts the retry in 32 bits and allows it below the limit, or always for INFINITE |
| Reconnect.ReconnSetting.CalcDelay | include/hloop.h:633-647 | the next delay in 32-bit arithmetic, stored and returned |
| Reconnect.IdealStep | include/hloop.h:586-594 | the documented schedule obeys the step rule when nothing overflows |
| Reconnect.StepFollowsExactly | include/hloop.h:633-647 | a computed step follows the schedule if and only if it does not overflow, or overflows where clamping hides it |
| Reconnect.FollowsExactly | include/hloop.h:586-647 | all delays follow the schedule if and only if every step of the schedule is harmless |
| Reconnect.FixedFollows | include/hloop.h:634-636 | policy 0 always follows the schedule |
| Reconnect.LinearFollowsExactly | include/hloop.h:637-646 | policy 1 follows it for ever if and only if max + min < 2^32 or min >= max |
| Reconnect.GrowthFollowsExactly | include/hloop.h:640-646 | any factor p >= 2 follows it for ever if and only if min = 0, or min >= max, or two steps known beforehand are harmless: from the last delay below max, and from max |
| Reconnect.ReachesTop | include/hloop.h:640-646 | a growing schedule gets to that last delay, and from there to max |
| Reconnect.DoublingFollowsExactly | include/hloop.h:640-646 | policy 2 follows it for ever if and only if 2 max < 2^32, or min >= max, or min = 0 |
| Reconnect.GrowthFollows | include/hloop.h:640-646 | max p < 2^32 is enough for any factor p |
| Reconnect.DoublingCanCollapse | include/hloop.h:640-646 | from a reset, the 32nd delay of a concrete setting is 2^31 ms and the 33rd is 1 ms |
| Reconnect.IdealMonotone | include/hloop.h:586-594 | the schedule never decreases and stays between the bounds |
| Reconnect.RetryLimit | include/hloop.h:627-631 | a limit N >= 1 allows exactly the first N-1 retries, 0 none, INFINITE all |
| Reconnect.RetryLimitExactly | include/hloop.h:627-631 | the limit N >= 1 is kept if and only if fewer than 2^32 closes have come in a row |
| Reconnect.RetryCountExactly | include/hloop.h:627-631 | after q 2^32 + r closes in a row there have been q N + min(r, N-1) retries |
| Reconnect.RetryCounterWraps | include/hloop.h:627-631 | a close and the one 2^32 closes later are answered alike |
| Reconnect.NextClose | include/hloop.h:627-647 | one more close keeps count and delay on the schedule: the delay moves on exactly when the close is answered |
| Reconnect.TcpClient.constructor | include/TcpClient.h:210-219 | without a setting nothing is counted |
| Reconnect.TcpClient.SetReconnect | include/TcpClient.h:210-219 | a null setting switches reconnecting off, any other is copied, which starts the schedule at its beginning exactly if it has zero delay and count |
| Reconnect.TcpClient.OnConnect | include/TcpClient.h:127-138 | a successful connect starts the schedule again, whatever was copied in |
| Reconnect.TcpClient.OnClose | include/TcpClient.h:149-157 | the n-th close since the schedule started sets a timer if and only if it is allowed a retry, with the delay of that retry, which is the n-th before the counter wraps |
| Reconnect.TcpClient.StartReconnect | include/TcpClient.h:161-170 | no delay is computed when the retry is refused |
| LineReader.HFile.Fread | include/hfile.h:100 | one byte and one position, or the end of the file |
| LineReader.HFile.Readline | include/hfile.h:97-117 | line, bytes consumed and result as the scan says, for LF, CR LF and CR |
| LineReader.ScanNormalizes | include/hfile.h:97-117 | what one call consumes is one line of the normalised text |
| LineReader.ScanIsFirstLine | include/hfile.h:97-117 | one call takes exactly the first line off the file, and fails exactly when there is none |
| LineReader.HFile.ReadAllLines | include/hfile.h:97-117 | calling until it fails gives the lines of the normalised text |
| LineReader.LinesKeepEverything | include/hfile.h:97-117 | the lines joined by LF are the normalised text up to a missing last LF |
| LineReader.NormalizeFixes | include/hfile.h:105-112 | normalising leaves no CR and changes nothing without one |
| LineReader.ReadsBackExactly | include/hfile.h:97-117 | whatever mixture of LF, CR LF and CR ends the lines of a file, reading gives exactly these lines if and only if no line ended by CR is followed by an empty one ended by LF |
| LineReader.ReadFirst | include/hfile.h:97-117 | the first line comes off, and with it the LF behind its CR |
| LineReader.NoMoreLines | include/hfile.h:97-117 | reading never gives more lines than were written |
| DeviceWorker.KnownDevices | ashuerdevive.cpp:28-120 | the five device names, and which of them exclude each other |
| DeviceWorker.KnownCommands | ashuerdevive.cpp:122-145 | the queries the devices get; the RD3000B gets the one of the MWS600 |
| DeviceWorker.Worker.Allow2Create | utisDeviceWorker.cpp:56-69 | yes if and only if no device on line shares type or category |
| DeviceWorker.Worker.SlotAddDev | utisDeviceWorker.cpp:109-122 | the answer and the new list; categories stay pairwise distinct |
| DeviceWorker.Worker.SlotDelDev | utisDeviceWorker.cpp:124-136 | the device of the name goes from its place, all others stay in order, one answer each |
| DeviceWorker.Worker.DeleteLoop | utisDeviceWorker.cpp:128-135 | the loop on any list, stepping over the element after a removed one |
| DeviceWorker.LoopStepsOver | utisDeviceWorker.cpp:128-135 | the index loop equals its recursive description from every index |
| DeviceWorker.LoopRemovesAllExactly | utisDeviceWorker.cpp:128-135 | the loop removes every match if and only if no two matches are neighbours |
| DeviceWorker.DeleteIsExact | utisDeviceWorker.cpp:124-136 | under the exclusion rule the loop removes exactly the matches and keeps the rule |
| DeviceWorker.AtMostThree | utisDeviceWorker.cpp:56-69 | pairwise distinct categories leave at most three devices |
| DeviceWorker.Worker.GetLatestData | utisDeviceWorker.cpp:38-45 | an active timer is left alone, otherwise the commands of the list in order |
| DeviceWorker.Worker.OnTimeout | utisDeviceWorker.cpp:25-34 | the first command goes out, or the timer stops and readiness is signalled |
| PollRounds.StepKeepsInv | utisDeviceWorker.cpp:22-45 | every event keeps the round invariant, and a poll request finds the timer inactive |
| PollRounds.RunKeepsInv | utisDeviceWorker.cpp:22-45 | the same over every run |
| PollRounds.PollNeverMeetsRound | widget.cpp:103-110 | at every ten-second request the previous round is complete: sent in order, ready once, 500 ms per command and one more after its start, so within two seconds, and a new one starts over the present list |
| PollRounds.RoundsSendTheirSnapshot | utisDeviceWorker.cpp:22-45 | at every moment the commands sent are a prefix of the round's snapshot; an idle timer means an empty command list |
| PollRounds.RoundCompletes | utisDeviceWorker.cpp:22-45 | a round under way comes to its end by time alone, everything sent and readiness signalled |
| PollRounds.PollComes | widget.cpp:103-110 | time alone brings the next request, at the next ten seconds |
| LoadBalance.EventLoopThreadPool.constructor | include/EventLoopThreadPool.h:31-34 | all counters zero |
| LoadBalance.EventLoopThreadPool.Scan | include/EventLoopThreadPool.h:41-45 | the first loop with the fewest connections |
| LoadBalance.EventLoopThreadPool.NextLoop | include/EventLoopThreadPool.h:31-50 | the choice of every strategy, and null exactly without loops |
| LoadBalance.EventLoopThreadPool.OnAccept | include/TcpServer.h:241-251 | the chosen loop, and no other, is charged |
| LoadBalance.LeastConnectionsBalances | include/EventLoopThreadPool.h:40-45 | any number of least-connections accepts keeps counters within one of each other |
| LoadBalance.RoundRobinServes | include/EventLoopThreadPool.h:35-37 | after k = q n + r accepts the first r loops in cyclic order have q + 1 new connections, the others q |
| LoadBalance.RoundRobinBalances | include/EventLoopThreadPool.h:35-37 | from equal counters and any cursor, no two loops are ever more than one apart |
| LoadBalance.RoundRobinRounds | include/EventLoopThreadPool.h:35-37 | full rounds give every loop the same number |
| TcpServer.OvershootBound | include/TcpServer.h:192-205 | in every interleaving the channel map holds at most max_connections + loops - 1 |
| TcpServer.CounterMeaning | include/TcpServer.h:192-251 | a loop's counter is its live channels + connections handed over and unprocessed + those it rejected |
| TcpServer.CounterExactOnlyWithoutRejects | include/TcpServer.h:194-198 | with nothing on its way the counter equals the live channels if and only if none was rejected |
| TcpServer.RejectedForever | include/TcpServer.h:194-198 | a rejected connection stays rejected in every continuation |
| TcpServer.RejectionsNeverGivenBack | include/TcpServer.h:192-251 | in every continuation a loop's counter stays above its live channels by at least the rejections there were |
| TcpServer.StepKeepsBounded | include/TcpServer.h:194-205 | channels and passed checks together keep the bound in every step |
| TcpServer.StepKeepsAccounts | include/TcpServer.h:218-251 | every step keeps the meaning of all counters |
| TcpServer.StepKeepsShape | include/TcpServer.h:192-251 | every step keeps who is accepting, queued, in a callback and in the map consistent |
| TcpServer.ServedInAcceptOrder | include/TcpServer.h:241-251 | in every run, the connections a loop has begun, then its queue, then the one being handed over, are exactly those accepted for it, in the order of the accepts |
| TcpServer.RunInOrder | include/TcpServer.h:241-251 | the same from any sound state |
| TcpServer.ServesNext | include/TcpServer.h:192-206 | undisturbed, a loop registers the first connection of its queue when there is room, and turns it away when there is none |
| TcpServer.ClosesLive | include/TcpServer.h:218-230 | a live connection of an idle loop can close: the map and the counter lose it |
| TcpServerTight.Fill | include/TcpServer.h:192-251 | a run that registers any number of connections below the limit |
| TcpServerTight.Race | include/TcpServer.h:194-205 | a run in which all loops pass the check before any of them inserts |
| TcpServerTight.BoundReached | include/TcpServer.h:194-205 | for every limit >= 1 and every number of loops some run attains the bound |
| TcpServerTight.TurnAway | include/TcpServer.h:194-251 | at the limit the next connection is counted and then rejected |
| TcpServerTight.RejectionLeaks | include/TcpServer.h:194-251 | for every limit and every number of loops some run ends with a counter that stays above the live channels for ever |
| TcpServerLoop.SingleLoopServer.OnAccept | include/TcpServer.h:241-251 | one more connection counted and posted |
| TcpServerLoop.SingleLoopServer.NewConnEvent | include/TcpServer.h:192-206 | registered exactly below the limit, which is never exceeded with one loop |
| TcpServerLoop.SingleLoopServer.OnClose | include/TcpServer.h:218-230 | counter and map both lose the connection |
| EventPosting.NeverPopsEmpty | include/EventLoop.h:216-222 | a delivered wakeup always finds an event |
| EventPosting.StepKeepsInv | include/EventLoop.h:176-225 | queue length = undelivered wakeups + posters between push and post, in every step |
| EventPosting.SchedulesNeverPopEmpty | include/EventLoop.h:176-225 | the same over every schedule, without assuming that pops succeed |
| EventPosting.CallbacksRunInPushOrder | include/EventLoop.h:176-225 | for any threads and any order of wakeups callbacks run once each in push order, and all of them once nothing is pending |
| EventPosting.EverythingRuns | include/EventLoop.h:176-225 | once nothing more is pushed, every event pushed runs, within a known number of steps |
| EventPosting.SomeStep | include/EventLoop.h:176-225 | while anything is under way some step is possible |
| EventPosting.EventLoop.constructor | include/EventLoop.h:228-235 | a new loop is the machine's initial state |
| EventPosting.EventLoop.PushEvent | include/EventLoop.h:183-185 | the poster's critical section is the machine's push and keeps its invariant |
| EventPosting.EventLoop.PopEvent | include/EventLoop.h:219-222 | the delivery's critical section is the machine's delivery; that there is an event to pop is proved, not asked for |
| EventPosting.EventLoop.OnCustomEvent | include/EventLoop.h:216-225 | whichever wakeup it is, the event that runs is the next one in the order of all pushes |
| Timers.CallbackOnSelf | include/EventLoop.h:125-146 | what any callback does to the timer that is firing: gone if killed, revived if reset before that |
| Timers.CallbackOnOther | include/EventLoop.h:125-146 | any other timer stays as it is unless it is killed |
| Timers.FireOnSelf | include/EventLoop.h:195-214 | the timer stays if and only if its callback did not kill it and repeats are left or it was revived; if it leaves on its own it has fired as often as asked plus its revivals |
| Timers.FireOnOther | include/EventLoop.h:195-214 | a firing changes no other timer it does not kill |
| Timers.FireKeepsGood | include/EventLoop.h:195-214 | after a firing every timer in the map has repeats left and a correct account, new ones included |
| Timers.RunKeepsGood | include/EventLoop.h:90-214 | the same after every run, so the count-down never wraps |
| Timers.SetKeepsGoodExactly | include/EventLoop.h:90-103 | a new timer keeps this if and only if it asks for at least one repeat |
| Timers.SparedStep | include/EventLoop.h:90-214 | one event in the life of any timer that is not killed, whatever its repeats and the other timers |
| Timers.ZeroRepeatsExactly | include/EventLoop.h:136-146 | over every run without a kill, a timer set with no repeats ends at INFINITE if and only if the first event that touches it is a firing, and then every firing runs its callback; otherwise it never has more than one repeat |
| Timers.ZeroRepeatsBothWays | include/EventLoop.h:136-214 | both kinds of runs: fired first it stays for ever, reset first it leaves at its first firing |
| Timers.InfiniteStays | include/EventLoop.h:202-213 | a timer at INFINITE stays there and its callback runs at every firing |
| Timers.LifeStep | include/EventLoop.h:90-214 | one event in the life of a timer nobody kills |
| Timers.LifeOfTimer | include/EventLoop.h:90-214 | in any run without a kill, firings + repeats left at the end = repeats left at the start + revivals |
| Timers.GoneStays | include/EventLoop.h:195-214 | a timer that left never fires again |
| Timers.LifeAfterSet | include/EventLoop.h:90-103 | over every run after setTimer(n) without a kill, firings + repeats left = n + revivals; without a revival the callback runs at the first n firings, and then the timer is gone |
| Timers.FiringsUntilGone | include/EventLoop.h:195-214 | the same from any sound table |
| Timers.IntervalGoesOn | include/EventLoop.h:119-122 | after setInterval, without a kill, every firing runs the callback |
| Timers.KilledForGood | include/EventLoop.h:124-133 | killTimer takes its timer out of the map, no other, and it never fires again |
| TimerLoop.EventLoop.SetTimer | include/EventLoop.h:90-103 | a new timer object under the id, with the number of repeats asked for |
| TimerLoop.EventLoop.KillTimer | include/EventLoop.h:125-133 | the id leaves the map, if it was there |
| TimerLoop.EventLoop.ResetTimer | include/EventLoop.h:136-146 | only a timer at zero gets one more repeat |
| TimerLoop.EventLoop.RunScript | include/EventLoop.h:207-208 | any callback, acting on the map and on the shared object the caller still holds |
| TimerLoop.EventLoop.CountDown | include/EventLoop.h:202-205 | one repeat less unless INFINITE, wrapping from zero, seen through the map as well |
| TimerLoop.EventLoop.OnTimer | include/EventLoop.h:195-214 | the whole firing on shared objects equals its meaning, also when the callback kills its own timer |
| ObjectPool.PoolIsSafe | include/hobjectpool.h:28-126 | in every interleaving _object_num = idle + held + being created <= _max_num, and no object is idle twice or idle and held |
| ObjectPool.RunKeepsInv | include/hobjectpool.h:50-132 | the same from any sound pool |
| ObjectPool.StepKeepsExclusive | include/hobjectpool.h:50-132 | every step keeps objects either idle once or held |
| ObjectPool.StepKeepsCounted | include/hobjectpool.h:50-132 | every step keeps the count exact and below the maximum, a failed creation included |
| ObjectPool.NeverHandedOutTwice | include/hobjectpool.h:50-92 | an object given to a client was held by nobody and is no longer idle; other holders keep theirs |
| ObjectPool.NothingHandedOut | include/hobjectpool.h:60-132 | a step that hands out nothing gives nobody an object |
| ObjectPool.ReturnNeedsHeld | include/hobjectpool.h:94-99 | Return keeps the pool sound if and only if the object was borrowed |
| ObjectPool.AddNeedsForeign | include/hobjectpool.h:101-110 | Add keeps the pool sound if and only if the pool is full or the object is not its own |
| ObjectPool.ClearNeedsQuiet | include/hobjectpool.h:128-132 | Clear keeps the pool sound if and only if nothing is out and nothing is being created |
| ObjectPool.BorrowerDecides | include/hobjectpool.h:66-91 | a borrower without an idle object creates one if and only if there is room, waits if and only if the pool is full and the timeout positive, and then leaves only by timing out or being woken |
| ObjectPool.NobodyWaitsInVain | include/hobjectpool.h:77-91 | over every run a client waits only if the timeout is positive |
| ObjectPool.WaitsOn | include/hobjectpool.h:77-91 | a waiting client stays where it is until it times out or is woken |
| ObjectPool.AfterTheWait | include/hobjectpool.h:79-91 | who is woken takes the front idle object, if any; who timed out takes nothing |
| ObjectPool.NobodyIsStuck | include/hobjectpool.h:50-99 | wherever a client is in Borrow, its next step is possible |
| ObjectPool.IdleIsFifo | include/hobjectpool.h:50-110 | over any run without removals objects are lent in the order in which they became idle |
| ObjectPool.WithoutFirstFacts | include/hobjectpool.h:112-126 | Remove takes out exactly the one object |
| ObjectPool.HObjectPool.constructor | include/hobjectpool.h:28-42 | the machine's initial state with the objects the factory delivered; sound if and only if they are distinct and no more than the maximum |
| ObjectPool.HObjectPool.TryBorrow | include/hobjectpool.h:50-64 | the machine's borrowing step, and the object it hands out |
| ObjectPool.HObjectPool.Reserve | include/hobjectpool.h:66-77 | a place is reserved exactly below the maximum, and a full pool is waited for exactly with a positive timeout |
| ObjectPool.HObjectPool.Settle | include/hobjectpool.h:71-75 | the machine's end of a creation: the object is held, or its place is given back |
| ObjectPool.HObjectPool.AfterWait | include/hobjectpool.h:77-91 | the machine's step after the wait, timed out or not |
| ObjectPool.HObjectPool.Borrow | include/hobjectpool.h:60-92 | undisturbed: the front idle object, else a new one while there is room, else a wait exactly if the timeout is positive |
| ObjectPool.HObjectPool.Return | include/hobjectpool.h:94-99 | for any object; a sound pool stays sound if and only if it was a borrowed one |
| ObjectPool.HObjectPool.Add | include/hobjectpool.h:101-110 | for any object; a sound pool stays sound if and only if it was full or the object foreign |
| ObjectPool.HObjectPool.Remove | include/hobjectpool.h:112-126 | the erase loop is the machine's removal, and tells whether the object was idle |
| ObjectPool.HObjectPool.Clear | include/hobjectpool.h:128-132 | the machine's clear |
| ObjectPool.HObjectPool.Perform | include/hobjectpool.h:50-132 | every action of the machine is carried out by a critical section |
| ObjectPool.HObjectPool.Run | include/hobjectpool.h:50-132 | any interleaving of critical sections is a run of the machine, and a sound pool stays sound |
| ThreadPoolLocks.StepKeepsLocks | include/hthreadpool.h:127-219 | both mutexes exclude, and their holder is the one whose place in the code says so |
| ThreadPoolTasks.StepKeepsTasks | include/hthreadpool.h:127-183 | every step keeps the queue, the tasks in hand and the finished ones apart |
| ThreadPoolCounts.WorkerKeepsCounts | include/hthreadpool.h:171-178 | every worker step keeps idle = cur - busy up to the pair of updates under way |
| ThreadPoolCounts.FloorHolds | include/hthreadpool.h:164-168 | no step but the reset of stop takes the number of threads below the minimum |
| ThreadPoolList.JoinedHoldsNoLock | include/hthreadpool.h:199-219 | a worker joined in delThread holds neither mutex and is not the joiner |
| ThreadPoolList.WorkerKeepsRoster | include/hthreadpool.h:185-219 | list, stop marks and threads not yet listed stay consistent |
| ThreadPoolRuns.StepKeepsInv | include/hthreadpool.h:70-219 | every atomic step of every agent keeps the whole invariant |
| ThreadPoolRuns.RunKeepsInv | include/hthreadpool.h:70-219 | so does every run |
| ThreadPoolRuns.JoinsCoverAll | include/hthreadpool.h:81-94 | when the joins of stop are through every worker has exited |
| ThreadPoolRuns.TasksConserved | include/hthreadpool.h:127-183 | at every moment every pushed task is exactly one of queued, in one worker's hands and finished once; the queue is the untaken suffix in push order |
| ThreadPoolRuns.StoppedPoolIsQuiet | include/hthreadpool.h:81-94 | after stop nothing is mid-run, every taken task is finished, the queue is the untaken suffix, both counters are zero |
| ThreadPoolRuns.IdleIsCurLessBusy | include/hthreadpool.h:171-204 | idle_thread_num = cur_thread_num - busy workers whenever no paired update is under way |
| ThreadPoolRuns.MinimumIsKept | include/hthreadpool.h:164-168 | once the minimum is reached every run without a stop keeps it |
| ThreadPoolRuns.NeverPopsEmpty | include/hthreadpool.h:171-173 | a worker about to pop finds a task |
| ThreadPoolRuns.RetirementJoinsAreSafe | include/hthreadpool.h:206-211 | in every reachable state the nested join waits only for a worker past both critical sections, never for itself |
| ThreadPoolTheorems.AllIdleMeansFinished | include/hthreadpool.h:110-118 | in a fixed pool a full idle counter means that every task taken is finished |
| ThreadPoolTheorems.WaitMeansFinished | include/hthreadpool.h:110-118 | when wait breaks out of its loop every task pushed before the call has finished, its three reads interleaved with everything else and the counters read in either order |
| ThreadPoolTheorems.PauseThenResume | include/hthreadpool.h:96-108 | pause stops a running pool only, resume a paused one only, and one after the other gives back the same state |
| ThreadPoolTheorems.ResumeWakes | include/hthreadpool.h:103-108 | a worker waiting for the end of a pause can go on exactly when there is none, so at once after a resume |
| ThreadPoolTheorems.PauseLastsExactly | include/hthreadpool.h:70-108 | from a pause, every run without resume and stop stays paused if and only if no client is between the test and the store of start |
| ThreadPoolTheorems.StartRaceEndsPause | include/hthreadpool.h:71-72 | such a state is reachable: two starts race, a pause comes in between, and the second store ends it |
| ThreadPoolTheorems.PauseOverrun | include/hthreadpool.h:96-108 | from a pause to the next resume or stop, with no start under way, only workers past the check at the pause start a task, each at most one, and later workers none |
| ThreadPoolTheorems.PauseOverrunBound | include/hthreadpool.h:96-108 | so the overrun is at most the number of workers alive at the pause |
| ThreadPoolProgress.LocksNeverDeadlock | include/hthreadpool.h:158-219 | whenever a mutex is held, its holder, the holder of the other one, or the very worker that is being joined can step |
| ThreadPoolProgress.FreeingLeavesLess | include/hthreadpool.h:158-219 | every such step lowers a bound on the work left until both locks are free, whatever the clock says |
| ThreadPoolProgress.WorkMeansLock | include/hthreadpool.h:158-219 | the bound is zero if and only if both locks are free |
| ThreadPoolProgress.LocksAreReleased | include/hthreadpool.h:158-219 | from every reachable state the lock holders and the workers they join release both locks by themselves within the bound |
| ThreadPoolProgress.StopDrainsWorkers | include/hthreadpool.h:81-89 | during stop every worker step brings that worker nearer to its exit |
| ThreadPoolProgress.StopNeverHangs | include/hthreadpool.h:81-89 | and while one has not exited some worker can step |
| ThreadPoolService.ServesFront | include/hthreadpool.h:151-179 | left alone, a worker of a running pool takes the front task, finishes it and is idle again |
| ThreadPoolService.ServesAll | include/hthreadpool.h:151-179 | left alone, one worker serves the whole queue in order, and workers, counters and list are then as before |
| ThreadPoolService.LeavesOrWaits | include/hthreadpool.h:152-155 | at the top of its loop a worker of a stopped pool leaves, and one of a paused pool waits |
| ThreadPool.ClampMeans | include/hthreadpool.h:73-74 | a number of threads between the limits is taken as it is, any other is moved to the nearer limit |
| HThreadPoolCode.HThreadPool.constructor | include/hthreadpool.h:29-38 | the fields are those of the machine's initial state |
| HThreadPoolCode.HThreadPool.Pause | include/hthreadpool.h:96-101 | a running pool is paused, any other left alone; the machine's pause |
| HThreadPoolCode.HThreadPool.Resume | include/hthreadpool.h:103-108 | a paused pool runs, any other is left alone; the machine's resume |
| HThreadPoolCode.HThreadPool.PushTask | include/hthreadpool.h:137-142 | a client's steps from the lock to the unlock: its task is the last of the queue, and the client is through |
| HThreadPoolCode.HThreadPool.TakeTask | include/hthreadpool.h:171-174 | a worker's steps from the count to the unlock; that there is a task is proved, not asked for |
| HThreadPoolCode.HThreadPool.FinishTask | include/hthreadpool.h:175-178 | a worker's steps from the task to the count: its ticket is finished |
| HThreadPoolCode.HThreadPool.AddThread | include/hthreadpool.h:185-197 | a client's four steps under thread_mutex, and nothing else changes |
| HThreadPoolCode.HThreadPool.CreateThread | include/hthreadpool.h:149-151 | a client's steps: a thread at the top of its loop, started and registered, exactly below the maximum |
| HThreadPoolCode.HThreadPool.CreateThreads | include/hthreadpool.h:75-77 | the loop of start creates the number asked for, by steps of this client only |
| HThreadPoolCode.HThreadPool.Start | include/hthreadpool.h:70-79 | undisturbed, a stopped pool runs with the number of threads asked for, moved to the nearer limit, all idle; a started pool is left alone |
| HThreadPoolCode.HThreadPool.StartIfStopped | include/hthreadpool.h:129 | commit starts a stopped pool with the minimum, and no other |
| HThreadPoolCode.HThreadPool.Grow | include/hthreadpool.h:130-132 | one more thread exactly when no more threads are idle than tasks wait and there is room for one |
| HThreadPoolCode.HThreadPool.Commit | include/hthreadpool.h:127-146 | undisturbed, from the call to the return: start, growth, and the task at the end of the queue |
| HThreadPoolCode.HThreadPool.SweepThreads | include/hthreadpool.h:204-217 | the erasing loop equals the recursive pass |
| HThreadPoolCode.SweepOne | include/hthreadpool.h:206-215 | a thread that stopped before now is dropped, the retiring one is marked with the time, any other kept |
| HThreadPoolCode.SweepConcat | include/hthreadpool.h:205-217 | and every thread's fate is its own, in the order of the list |
| HThreadPoolCode.HThreadPool.DelThread | include/hthreadpool.h:199-219 | a retiring worker's steps from lock to unlock; apart from it only threads it joins have moved, and they have ended |
| HThreadPoolCode.HThreadPool.TakeTurn | include/hthreadpool.h:158-174 | a worker's whole turn: which way it ends, with both locks free and the fields those of a run |
| HThreadPoolCode.HThreadPool.BeginStop | include/hthreadpool.h:81-84 | the machine's stop, or nothing on a stopped pool |
| HThreadPoolCode.HThreadPool.EndStop | include/hthreadpool.h:85-93 | all threads having ended, the machine's joins and resets |
| HThreadPoolCode.ScanningIsSweep | include/hthreadpool.h:204-217 | the inspecting steps of the interleaved machine, its joins waiting for threads that are still returning, do exactly what the loop does |
| HThreadPoolCode.StoppedAreJoinable | include/hthreadpool.h:206-208 | in every reachable state a worker that enters delThread finds only threads marked as stopped that have nothing left to do |

## Left out

- Varint.Encode: negative values, for which the loop at include/hmath.h:32-38 does not come to an end.
- Reconnect.TcpClient.OnClose: after a setting with a delay or count of its own the schedule is stated from the next connect on.
- HThreadPoolCode.HThreadPool.CreateThread: undisturbed; how thread start and registration interleave with others is in ThreadPool.
- HThreadPoolCode.HThreadPool.DelThread: clock readings are parameters, constant over one pass.
- ThreadPoolTheorems.WaitMeansFinished: for a pool of fixed size; while it grows or shrinks the two counter reads of wait are not atomic.
- ThreadPoolProgress.LocksNeverDeadlock: for workers listed before they may retire, and no stop during a retirement.
- ThreadPoolProgress.LocksAreReleased: under the same two assumptions.
- HThreadPool: cur_thread_num <= max_thread_num under concurrent commits, which check and increment do not guarantee.
- HThreadPool: stop racing with commit, start or a retiring worker; changing the limits while running; thread ids used again. Pause and resume, a test and a store each, are one step, because one controller calls them and stop, and the only other store is that of RUNNING by start.
- HThreadPool: notifications of the condition variable; a waiting worker may wake up at any time, as after a timeout.
- HThreadPool: the futures and return values of tasks, tasks that throw, and memory ordering weaker than sequential consistency.
- HBuf: reallocating memory it does not own, `copy` and `cleanup`, direct calls of `resize` on an HVLBuf, overflow of size_t, failing allocations.
- HRingBuf: freeing anything but the oldest block, which the class cannot detect.
- HObjectPool: liveness; a return between TryBorrow and the wait can be missed, and a timed-out Borrow does not look again. Clear while objects are out, null objects, and the copies of a returned pointer a caller keeps.
- EventLoop: the library's own loop; each posted wakeup is delivered once, and when a timer fires is up to the environment. Start, stop, and calls from other threads before the loop runs.
- EventLoop timers: the code behind the library's timer handles, and ids used again, which setTimer with a caller's own id allows.
- TcpServer: sockets, TLS, the user's callbacks, `hio_id` being unique, the 32-bit width of connectionNum, starting and stopping the server.
- EventLoopThreadPool: balance of random choices; the two hash strategies, which the source does not implement.
- TcpClient: `closesocket` as a promise of no more connects, since a reconnect timer already started still fires.
- HFile: everything but readline; read errors.
- utisDeviceWorker: the UDP socket, what the commands mean, `parseData` (never called), null devices; PollRounds lets a due timer fire before time passes it.
- Widgets, signals and slots, the ini file and the HTTP service (`widget.cpp` but for its period, `devicestatewidget.cpp`, `myhttpserver.cpp`): input and output only.
- Everything declared in `include/` whose body is in the prebuilt library: HTTP parsing, WebSocket framing, hashes, URL parsing and the like.
- ConnPool, serialisation, powers of two, tables of names: easy members.
