# Proofs about a two-wheel robot's firmware, its console and its core library

The robot runs on a Teensy 4. A console on a PC fetches its log files, and the bundled
Teensy core library supplies timers, events, an EEPROM emulation, audio blocks, serial
ports, clocks and text conversion. This project models the parts of that code with the
most state and arithmetic and proves what they keep, over all inputs, all runs and all
reachable states.

| file | what it is about |
|---|---|
| `Transfer.dfy` | the log-file transfer as two machines and a network that loses, repeats, delays and reorders messages: an invariant of every run and what follows from it |
| `TransferRecovery.dfy` | what both machines answer, and how a transfer gets over spoiled packets |
| `TransferMachines.dfy` | the code of both machines, tied to those values, and the bytes on the wire |
| `MillisTimer.dfy` | the millisecond timers: a doubly linked list of wait differences that has to agree with one countdown per timer, and the exact firing schedule |
| `EventQueue.dfy` | event responders and their two queues |
| `Eeprom.dfy` | a log-structured byte store over erase-once flash |
| `AudioPool.dfy` | a bitmap allocator with a hint, and reference counts |
| `PatchCords.dfy` | the graph of audio streams and patch cords |
| `SerialRing.dfy` | serial ring buffers with the interrupt handler between the program's loads and stores |
| `LogWriter.dfy` | whole messages through a ring into a series of files |
| `ClockSpeed.dfy` | the search for clock multiplier and dividers |
| `Calendar.dfy` | seconds to calendar fields and back |
| `MotorRamp.dfy` | the linear motor ramp, over real numbers |
| `NumberText.dfy`, `IpText.dfy` | printing and reading numbers and IP addresses |
| `Sequences.dfy` | sequences without repetition, shared by the lists above |

Code that changes objects step by step is a class whose methods are proved against
functions on values; the results about whole runs are lemmas about those functions. Lists
threaded through objects by pointers (timers, event responders, patch cords, streams) are
objects with pointers here too; responders, cords and streams are mirrored by a ghost
table of values, so that the reasoning about lists and counts is done on values.

What the proofs turned up:

* A transfer declared complete is correct if and only if the file is shorter than 2^31
  bytes: its size travels through an `int` (`Transfer.CompletionIsCorrectIff`); every longer
  file does complete wrongly in some run (`Transfer.CanCompleteWrongly`).
* The console's byte counter can overflow its `int` for exactly the files of 2^32 bytes and
  more whose size modulo 2^32 lies within 1007 bytes below 2^31 (`Transfer.OverflowIff`).
* A transfer gets over up to four spoiled packets in a row, for every block
  (`TransferRecovery.SpoiledStillCompletes`), and a fifth ends it on both sides
  (`TransferRecovery.GivenUp`).
* An empty file is refused but left open, and the next request finds a file open
  (`TransferMachines.LogSender.LfGetFile`).
* While a packet is put together, the loop of up to five waits never uses more than the
  first; with a packet larger than the buffer it spins for ever as soon as more bytes wait
  than fit (`TransferWire.Reassemble`).
* Rebuilding the EEPROM index is right after every run exactly if the highest address is
  below 252 bytes a sector plus 3; the compile-time check allows 255 bytes a sector
  (`EepromRuns.AlwaysRebuiltIff`).
* Disconnecting a cord puts a stream to sleep that other cords still touch if and only if
  the one-byte connection counter passes zero on the way (`CordTables.AwakeAfterIff`). It
  needs 257 ends at one stream (`CordTables.UncrowdedSleepsWell`), and those can be had
  (`PatchCords.CrowdAndUnplug`). Results 5 and 6 of `connect` cannot occur.
* A block offered to inputs keeps a right reference count if and only if it ends up with at
  most 255 owners, which can be told before (`AudioPool.Pool.Transmit`, `AudioPool.OfferEverywhere`).
* Attaching a responder that has a pending trigger breaks the queue it is attached to; no
  other operation breaks a queue (`EventQueues.Responders.Attach`, `EventQueues.AttachTwice`).
  Taking that trigger back can empty the queue for others (`EventQueues.ClearAttachedTwice`).
* Once a card error leaves a log in the error state while it is being written, neither
  stopping nor starting nor anything else changes it any more
  (`LogWriter.LogFile.PerformAll`). The error state is entered exactly when the card fails
  while one file replaces another (`LogValues.ErrorIff`, `LogWriter.GetStuck`).
* The comment at Time.cpp:36 wants a year counted from 1970, the call at line 115 passes one
  counted from 1900: `makeTime` is off by a day from March on in leap years and in years 70
  before one (`Calendar.MadeOffByOneDay`, `Calendar.RoundTripFails`).
* Requests within 6 MHz of 2^32 Hz are clamped to the wrong end of the clock range
  (`ClockSpeed.SetArmClock`).
* Disabling the motors leaves the PWM pin alone while the target is matched, however long
  (`MotorRamp.Motor.ProcessOutput`, `MotorRamp.RunsOnDisabled`).
* Numbers printed in a base above 249 can be mistaken for others
  (`NumberText.NumeralsDifferIff`); reading back a number within 48 of the end of the
  32-bit range overflows an intermediate result (`NumberStreams.PrintedFitsIff`).

## Model

| member | source | states |
|---|---|---|
| Transfer.InvStep | src/logsend.cpp:148-249 | every step of robot, console or network, in any order, keeps the invariant that ties both counters, the blocks sent, the bytes stored and every message in flight |
| Transfer.InvRun | src/logsend.cpp:148-249 | the invariant holds in every state of every run, whatever the previous transfer left in the packet buffer and the repeat counter |
| Transfer.AdvanceIsInStep | src/logsend.cpp:200-211 | an acknowledgement the robot acts on carries its own counter, and there is data left to read |
| Transfer.InvBlockSent | src/logsend.cpp:200-216 | reading and sending the next block keeps the invariant |
| Transfer.InvNoBlockSent | src/logsend.cpp:152-249 | finishing, repeating, giving up and ignoring a stale acknowledgement keep the invariant |
| Transfer.StoredIsSent | console/eth_client.cpp:255-270 | a packet the console stores is exactly the block with the expected number, so the resynchronisation at 129-131 is never taken |
| Transfer.InvStored | console/eth_client.cpp:267-320 | storing a packet, finishing and acknowledging keep the invariant |
| Transfer.InvNotStored | console/eth_client.cpp:258-265 | skipped packets, bad packets and the answer to "get" keep the invariant |
| Transfer.ReceivedIsPrefix | console/eth_client.cpp:255-320 | in every state of every run the console's file is a prefix of the robot's file |
| Transfer.CompletionIsCorrectIff | console/eth_client.cpp:283-294 | for a file of any size, completion declared by byte count means the exact file if and only if the size survives the `int` it is announced in |
| Transfer.CountersInStep | console/eth_client.cpp:127-132 | the robot's counter is the console's expected number or one less; no acknowledgement and no packet in flight is ahead of it |
| Transfer.NoUnexpectedEof | src/logsend.cpp:210-222 | the "unexpected EOF" branch is never reached |
| Transfer.ReceivedFits | console/eth_client.cpp:270 | the console's byte counter never overflows its `int`, unless the size is one of those named below |
| Transfer.CanOverflow | console/eth_client.cpp:270 | for each of those sizes a run in which it does |
| Transfer.OverflowIff | console/eth_client.cpp:270 | some run overflows the counter if and only if the size is at least 2^32 and, modulo 2^32, within 1007 below 2^31 |
| Transfer.CountersFit | src/logsend.cpp:212 | nor does either packet counter |
| Transfer.CanComplete | src/logsend.cpp:200-234 | for every nonempty file some run completes, so nothing above holds for want of runs |
| Transfer.CanCompleteWrongly | console/eth_client.cpp:283-294 | for every file from 2^31 bytes on some run completes with a different file |
| TransferRecovery.OpenIff | src/logsend.cpp:148-249 | in every run the robot's transfer is open exactly until the console ends it or asks for a repetition for the fifth time since the last acknowledgement |
| TransferRecovery.StepOpens | src/logsend.cpp:148-249 | what one request is answered by: nothing if it is stale, the end message if it closes the transfer, otherwise the newest block under its number, also when it is repeated |
| TransferRecovery.NothingRead | src/logsend.cpp:217-222 | a file that ends early ends the transfer |
| TransferRecovery.ConsolePhases | console/eth_client.cpp:207-357 | when the console waits, reads, stops and is done, and which single answer it gives: the first or next acknowledgement, the end twice, or one repeat request for the packet it expects |
| TransferRecovery.BadIsCounted | console/eth_client.cpp:258-264 | over any run its two error counters count exactly the unusable packets and the distance of the stale ones |
| TransferRecovery.OffStays | console/eth_client.cpp:207-357 | a console that has stopped stays as it is for the rest of the run |
| TransferRecovery.RepeatServed | console/eth_client.cpp:335-352 | noise in place of a packet leads to exactly one repeat request and back to the same packet, which is sent again |
| TransferRecovery.SpoiledTimes | src/logsend.cpp:235-249 | so do several in a row, up to four |
| TransferRecovery.GivenUp | src/logsend.cpp:235-244 | the fifth one ends the transfer on both sides, incomplete |
| TransferRecovery.SpoiledStillCompletes | src/logsend.cpp:235-249 | for every nonempty file and every choice of up to four spoilings for each block there is a run in which exactly those happen, nothing else is lost, and the transfer completes and closes |
| TransferMachines.LogSender.LfGetFile | src/logsend.cpp:63-101 | result code, reply and state for every answer of the card and every earlier state; refusals change nothing else; an empty file stays open, and the next request then fails the check of line 77 |
| TransferMachines.LogSender.Complete | src/logsend.cpp:103-124 | closes the transfer and answers with the end message |
| TransferMachines.LogSender.Handle | src/logsend.cpp:148-249 | the request handler has exactly the effect and the output used in the protocol proofs |
| TransferMachines.EthClient.Request | console/eth_client.cpp:150-158 | a new "get" makes the console wait for an answer, whatever the last transfer left |
| TransferMachines.EthClient.ReadingTheFile | console/eth_client.cpp:207-357 | the console's reader has exactly the effect and the output used in the protocol proofs |
| TransferMachines.EthClient.Answered | console/eth_client.cpp:212-253 | its reaction to the answer of the robot, with the file that cannot be opened and the socket that takes nothing |
| TransferMachines.EthClient.Accepted | console/eth_client.cpp:127-320 | its reaction to a checked packet: resynchronise, skip, store, finish, acknowledge |
| TransferWire.RequestUnderstood | src/eth.cpp:155-168 | every request of the console is dispatched as what it is, also with more bytes behind it |
| TransferWire.OnlyRequestsUnderstood | src/eth.cpp:155-168 | and nothing else is: 16 bytes at least, beginning with one of three words |
| TransferWire.RequestLayout | console/eth_client.cpp:309-312 | where the number is in a request |
| TransferWire.FrameUnderstood | console/eth_client.cpp:62-126 | every packet the robot builds passes the check and yields its counter and payload |
| TransferWire.FrameLayout | src/logsend.cpp:132-142 | where size, number and checksum are in a packet, lowest byte first |
| TransferWire.OnlyFramesUnderstood | src/logsend.cpp:132-142 | whatever passes the check begins with exactly the bytes the robot would have built |
| TransferWire.ReadWaiting | console/eth_client.cpp:88-102 | one round of reading never takes more than is needed or fits, and spins exactly if more bytes wait than fit while the packet is incomplete |
| TransferWire.Reassemble | console/eth_client.cpp:77-113 | for packets of any size and reads with bytes glued behind the packet: a packet is completed if and only if its missing bytes fit and arrive during the first wait, the loop spins exactly if it does not fit and more bytes wait than do, no byte is changed, lost or reordered, and the number of waits is given in every case |
| MillisTimers.LeftIsSummedMs | pjrc/teensy4/EventResponder.cpp:222-261 | a timer's absolute wait is the sum of the stored waits up to it |
| MillisTimers.HeadIsFirst | pjrc/teensy4/EventResponder.cpp:296-303 | no timer is due before the head of the list |
| MillisTimers.TimerLists.LinkFirst | pjrc/teensy4/EventResponder.cpp:224-236 | a timer due before all others becomes the head |
| MillisTimers.TimerLists.LinkBefore | pjrc/teensy4/EventResponder.cpp:243-251 | a timer goes in before the first one due later than it |
| MillisTimers.TimerLists.LinkLast | pjrc/teensy4/EventResponder.cpp:254-258 | a timer due after all others, or together with the last, goes to the end |
| MillisTimers.TimerLists.AddToActiveList | pjrc/teensy4/EventResponder.cpp:222-261 | inserts in order of waiting time, behind equal ones; nobody else's wait changes, links stay mutual, no subtraction wraps |
| MillisTimers.TimerLists.Unlink | pjrc/teensy4/EventResponder.cpp:267-277 | takes a running timer out of any position; nobody else's wait changes, the addition does not wrap |
| MillisTimers.TimerLists.DropWaiting | pjrc/teensy4/EventResponder.cpp:278-292 | takes a timer out of any position of the waiting list |
| MillisTimers.TimerLists.End | pjrc/teensy4/EventResponder.cpp:263-294 | stops a timer in any state and leaves every other timer's view alone |
| MillisTimers.TimerLists.AddToWaitingList | pjrc/teensy4/EventResponder.cpp:212-220 | an idle timer waits to join, everybody else is left alone |
| MillisTimers.TimerLists.Start | pjrc/teensy4/EventResponder.cpp:192-219 | (re)starts a timer in any state, once or repeating, and leaves every other timer's view alone |
| MillisTimers.TimerLists.PopHead | pjrc/teensy4/EventResponder.cpp:304-311 | takes the due head off the list with everything behind it in order |
| MillisTimers.TimerLists.FireHead | pjrc/teensy4/EventResponder.cpp:303-314 | fires and reloads the head without touching another view |
| MillisTimers.TimerLists.CountDown | pjrc/teensy4/EventResponder.cpp:300-302 | lowering one stored wait lowers every running timer's absolute wait by one |
| MillisTimers.TimerLists.FireDue | pjrc/teensy4/EventResponder.cpp:298-316 | the loop ends, fires each due timer once and no other, in the order of the list, and all others count down |
| MillisTimers.TimerLists.StartWaiting | pjrc/teensy4/EventResponder.cpp:317-325 | every waiting timer joins the running ones with its own wait |
| MillisTimers.TimerLists.RunFromTimer | pjrc/teensy4/EventResponder.cpp:296-326 | a tick fires exactly the timers whose own countdown is over and advances every countdown by one |
| MillisTimers.TimerLists.PerformAll | pjrc/teensy4/EventResponder.cpp:192-326 | over any history of operations the lists agree with independent countdowns, and each tick fires exactly the due timers, once each |
| TimerViews.FiringSchedule | pjrc/teensy4/EventResponder.cpp:192-210 | a timer started with ms > 0 fires on tick max(ms, 2) and, if repeating, every ms ticks after it, and on no other tick, whatever is done to other timers; one started with 0 never fires |
| TimerViews.ScheduledIff | pjrc/teensy4/EventResponder.cpp:192-210 | those ticks are max(ms, 2) plus the multiples of ms; none for 0 |
| TimerViews.FiresExactly | pjrc/teensy4/EventResponder.cpp:192-326 | the same, inside any history: a tick fires the timer if and only if its number since the last start is scheduled |
| TimerViews.NeverAfterEnd | pjrc/teensy4/EventResponder.cpp:263-294 | a timer that was stopped does not fire until it is started again |
| QueueLinks.QueueAppended | pjrc/teensy4/EventResponder.cpp:54-66 | linking in behind the last one keeps a doubly linked list and its order |
| QueueLinks.QueueUnlinked | pjrc/teensy4/EventResponder.cpp:121-131 | so does unlinking any position, first, middle, last or only |
| QueueLinks.AttachedIff | pjrc/teensy4/EventResponder.h:86-93 | a responder that is in no queue may take a kind exactly if it does not count as triggered for that kind's queue |
| EventQueues.Responders.TriggerEvent | pjrc/teensy4/EventResponder.h:139-147 | queues an untriggered responder once at the end of its own queue, coalesces further triggers, calls an immediate one on the spot; leaves one alone that only counts as triggered |
| EventQueues.Responders.AppendYield | pjrc/teensy4/EventResponder.cpp:54-66 | the yield queue grows at its end and stays well linked; the other queue is untouched |
| EventQueues.Responders.AppendInterrupt | pjrc/teensy4/EventResponder.cpp:67-80 | the same for the interrupt queue |
| EventQueues.Responders.UnlinkYield | pjrc/teensy4/EventResponder.cpp:121-131 | takes a responder out of any position of the yield queue |
| EventQueues.Responders.UnlinkInterrupt | pjrc/teensy4/EventResponder.cpp:132-143 | the same for the interrupt queue |
| EventQueues.Responders.ClearEvent | pjrc/teensy4/EventResponder.cpp:116-149 | takes back a trigger from any position; the order of the rest stays; what it does to the ends of a queue that lacks the responder |
| EventQueues.Responders.BeginYield | pjrc/teensy4/EventResponder.h:175-206 | calls the oldest responder of the yield queue, and none in an interrupt or inside such a call |
| EventQueues.Responders.PopInterrupt | pjrc/teensy4/EventResponder.cpp:97-108 | takes the oldest responder of the interrupt queue |
| EventQueues.Responders.TriggerAll | pjrc/teensy4/EventResponder.cpp:50-85 | of several triggers each responder's first one queues it in its own queue, in the order of the triggers |
| EventQueues.EnqueuedAre | pjrc/teensy4/EventResponder.cpp:50-85 | whoever belongs to a queue and is triggered is in it afterwards, nobody else joins, nobody twice |
| EventQueues.EnqueuedInOrder | pjrc/teensy4/EventResponder.cpp:50-85 | whoever is triggered earlier is queued earlier |
| EventQueues.ServedInOrder | pjrc/teensy4/EventResponder.cpp:94-114 | whatever the called functions trigger, the calls begin with the queue as it was |
| EventQueues.YieldedIs | pjrc/teensy4/EventResponder.cpp:94-114 | the yield queue gets exactly what the functions that are called trigger, in order |
| EventQueues.Responders.RunFromInterrupt | pjrc/teensy4/EventResponder.cpp:94-114 | empties the queue also while the called functions trigger more; the calls are exactly the queue as it was followed by what was newly queued, in the order of the triggers, and the yield queue is exact too |
| EventQueues.Responders.Detach | pjrc/teensy4/EventResponder.cpp:152-183 | leaves the queue in order but keeps the pending trigger |
| EventQueues.Responders.Attach | pjrc/teensy4/EventResponder.h:86-119 | the queues stay well formed and complete if and only if no trigger was pending or the kind is immediate |
| EventQueues.AttachTwice | pjrc/teensy4/EventResponder.h:86-119 | attach, trigger, attach: the responder counts as triggered, is in no queue, and triggering it again changes nothing |
| EventQueues.ClearAttachedTwice | pjrc/teensy4/EventResponder.cpp:121-131 | clearing such a responder empties the yield queue although another one is in it |
| EepromLog.WrittenReads | pjrc/teensy4/eeprom.c:123-158 | a write changes what is read at its own offset and no other, also when it compacts |
| EepromLog.LastForRecords | pjrc/teensy4/eeprom.c:147-156 | the records of an image read back as the image |
| EepromRuns.AfterWriteReads | pjrc/teensy4/eeprom.c:108-159 | a write on any chip geometry changes what its own address reads and no other |
| EepromLog.PlaceIsInjective | pjrc/teensy4/eeprom.c:95-96 | distinct addresses have distinct places, for every number of sectors |
| EepromLog.OffsetIsByte | pjrc/teensy4/eeprom.c:53-55 | the compile-time check makes every offset fit its byte |
| EepromLog.RecordsAreNeverBlankIff | pjrc/teensy4/eeprom.c:78-79 | no record can look like erased flash if and only if the highest address is below 252 * sectors + 3 |
| EepromLog.RebuiltIff | pjrc/teensy4/eeprom.c:69-84 | scanning finds the end of a log if and only if no record in it looks blank |
| EepromRuns.ReadsLastWritten | pjrc/teensy4/eeprom.c:86-159 | after any sequence of writes, through any number of compactions, every address reads the value last written to it, 255 if none |
| EepromRuns.ErasuresAreRare | pjrc/teensy4/eeprom.c:129-158 | over any sequence of writes 1793 times the erasures of a sector, plus the records it holds, is at most the number of writes that changed a value in it |
| EepromRuns.LogIsNeverBlank | pjrc/teensy4/eeprom.c:130-157 | below that address limit no log of any run ever holds a word that looks erased |
| EepromRuns.AlwaysRebuiltIff | pjrc/teensy4/eeprom.c:53-84 | re-initialising finds the end of every log after every sequence of writes if and only if the highest address is below 252 * sectors + 3 |
| EepromRuns.LosingWrites | pjrc/teensy4/eeprom.c:130-134 | beyond that, two writes that a restart forgets |
| EepromEmulation.Eeprom.InFlash | pjrc/teensy4/eeprom.c:73-81 | in every valid state a sector is its log with erased words behind it, 2048 words in all; the cells AlwaysRebuiltIff speaks of |
| EepromEmulation.Eeprom.FlashWrite | pjrc/teensy4/eeprom.c:133 | programs one word, which has to be erased |
| EepromEmulation.Eeprom.Initialize | pjrc/teensy4/eeprom.c:69-84 | rebuilds the index and changes no stored value |
| EepromEmulation.Eeprom.Scan | pjrc/teensy4/eeprom.c:123-128 | finds the newest record of an offset |
| EepromEmulation.Eeprom.ReadByte | pjrc/teensy4/eeprom.c:86-106 | returns the stored value and changes none, before and after initialisation and beyond the highest address |
| EepromEmulation.Eeprom.Append | pjrc/teensy4/eeprom.c:130-134 | appends one record on erased flash; other sectors keep their logs |
| EepromEmulation.Eeprom.Collect | pjrc/teensy4/eeprom.c:137-143 | the buffer holds the newest value of every offset |
| EepromEmulation.Eeprom.WriteImage | pjrc/teensy4/eeprom.c:145-157 | writes exactly the values that are not 255, in order, on erased flash |
| EepromEmulation.Eeprom.Compact | pjrc/teensy4/eeprom.c:136-158 | a full sector keeps its newest values and the new one; other sectors keep their logs |
| EepromEmulation.Eeprom.WriteByte | pjrc/teensy4/eeprom.c:108-159 | the address reads the new value and every other address what it read before; each flash write lands on erased flash; a sector is erased exactly if the write changes a value in it and finds it full |
| EepromEmulation.Eeprom.WearBound | pjrc/teensy4/eeprom.c:129-158 | in every reachable state at least 1793 value-changing writes have gone to a sector for each time it was erased |
| EepromEmulation.Eeprom.ReadBlock | pjrc/teensy4/eeprom.c:174-181 | reads the stored values of a range |
| EepromEmulation.Eeprom.WriteBlock | pjrc/teensy4/eeprom.c:204-211 | a block reads back as far as it lies below the highest address; nothing else changes; logs and erasures are those of its writes one by one |
| AudioPool.LeadingZeros | pjrc/teensy4/AudioStream.cpp:105 | finds the highest set bit of a word that has one |
| AudioPool.DeliveredSlots | pjrc/teensy4/AudioStream.cpp:151-161 | exactly the empty slots that a cord from this output leads to get the block |
| AudioPool.Pool.constructor | pjrc/teensy4/AudioStream.cpp:56-78 | exactly the blocks asked for, cut to the limit, are free |
| AudioPool.Pool.ClearBit | pjrc/teensy4/AudioStream.cpp:106-111 | taking a block from the first word that has one keeps bitmap, hint and count in agreement |
| AudioPool.Pool.SetBit | pjrc/teensy4/AudioStream.cpp:137-139 | so does returning any allocated block |
| AudioPool.Pool.Allocate | pjrc/teensy4/AudioStream.cpp:82-120 | returns NULL if and only if no block is free; otherwise the highest free one of the first word that has any, with one owner, and hint, bitmap and count still agree |
| AudioPool.Pool.Release | pjrc/teensy4/AudioStream.cpp:125-142 | gives up one ownership; the block becomes free if and only if it was the last |
| AudioPool.Pool.Fill | pjrc/teensy4/AudioStream.cpp:155-158 | an empty input takes the block and its one-byte count goes up by one, modulo 256 |
| AudioPool.DeliveredCounts | pjrc/teensy4/AudioStream.cpp:151-161 | the block gains as many owners as there are empty inputs that a cord from the output leads to |
| AudioPool.DeliveredElsewhere | pjrc/teensy4/AudioStream.cpp:151-161 | no other block gains or loses an owner |
| AudioPool.Pool.Transmit | pjrc/teensy4/AudioStream.cpp:151-161 | delivers the block as specified; the reference counts are right afterwards if and only if its owners before and the empty inputs reached are together at most 255 |
| AudioPool.OfferEverywhere | pjrc/teensy4/AudioStream.cpp:151-161 | 256 inputs that take one block leave its count wrong |
| AudioPool.Pool.ReceiveReadOnly | pjrc/teensy4/AudioStream.cpp:166-174 | empties the slot; its ownership passes to the caller |
| AudioPool.Pool.MakeWritable | pjrc/teensy4/AudioStream.cpp:185-190 | trades a shared block for a private copy with the same samples, or for nothing exactly if no block is free; keeps it if it is not shared |
| AudioPool.Pool.ReceiveWritable | pjrc/teensy4/AudioStream.cpp:178-192 | the caller becomes the only owner of a block with the samples received, and gets nothing exactly if nothing waits there or what waits is shared and no block is free; all other samples stay |
| PatchCords.Graph.constructor | pjrc/teensy4/AudioStream.cpp:199-204 | an empty graph |
| PatchCords.Graph.NewStream | pjrc/teensy4/AudioStream.h:124-144 | a stream starts asleep, unconnected, with empty inputs, at the end of the list of all streams |
| PatchCords.Graph.InputInUse | pjrc/teensy4/AudioStream.cpp:261-276 | walking all lists finds out whether any cord leads to an input |
| PatchCords.Graph.FindBefore | pjrc/teensy4/AudioStream.cpp:372-381 | finds the predecessor of a cord on its list |
| CordLists.ChainSkipped | pjrc/teensy4/AudioStream.cpp:371-381 | unlinking a cord from any position of a list leaves all others on it in order |
| CordTables.Plugged | pjrc/teensy4/AudioStream.cpp:259-325 | connecting keeps lists, counters and the one-cord-per-input rule all at once, and activity if it was right |
| CordTables.Unplugged | pjrc/teensy4/AudioStream.cpp:357-405 | disconnecting keeps them too, only one input loses its block, and activity stays right exactly if no counter passes zero |
| CordTables.EmptiedSlots | pjrc/teensy4/AudioStream.cpp:386-390 | one input is empty afterwards and every other one holds what it held |
| PatchCords.Graph.FindUnused | pjrc/teensy4/AudioStream.cpp:278-288 | finds a cord on the unused list and what is before it |
| PatchCords.Graph.FindEnd | pjrc/teensy4/AudioStream.cpp:290-312 | walks to the last cord of a list and meets the cord itself exactly if it is on that list |
| PatchCords.Graph.Move | pjrc/teensy4/AudioStream.cpp:278-315 | splices a cord out of the unused list and in behind the last one of its source's list |
| PatchCords.Graph.Plug | pjrc/teensy4/AudioStream.cpp:290-325 | the cord goes to the end of its source's list; counters and input rule are kept, and activity if it was right |
| PatchCords.Graph.Connect | pjrc/teensy4/AudioStream.cpp:233-331 | each result code exactly when its condition holds, never 5 or 6; counts, lists and the one-cord-per-input rule are kept, and activity if it was right |
| PatchCords.Graph.ConnectTo | pjrc/teensy4/AudioStream.cpp:334-349 | aims an unconnected cord at new ends and connects it |
| PatchCords.Graph.NewCord | pjrc/teensy4/AudioStream.cpp:196-206 | a new cord is connected if and only if the input exists and is not in use |
| PatchCords.Graph.CutOut | pjrc/teensy4/AudioStream.cpp:359-382 | cuts a cord out of its source's list |
| PatchCords.Graph.TakeOut | pjrc/teensy4/AudioStream.cpp:359-405 | takes a connected cord to the front of the unused list, empties its input and lets its streams fall asleep |
| PatchCords.Graph.Disconnect | pjrc/teensy4/AudioStream.cpp:351-410 | disconnects a cord and hands back what waited at its input, which is empty afterwards, while every other input of every stream keeps its block; activity comes out wrong for exactly the streams whose counter passes zero |
| PatchCords.Graph.Destroy | pjrc/teensy4/AudioStream.cpp:219-230 | a destroyed cord is on no list; the others keep their order; its input is empty and no other input changes |
| CordTables.ConnectedCounts | pjrc/teensy4/AudioStream.cpp:317-323 | connecting keeps the one-byte counters equal to the connected ends modulo 256, and activity |
| CordTables.UnconnectedCounts | pjrc/teensy4/AudioStream.cpp:392-403 | disconnecting keeps the counters, and per stream says whether its activity stays right |
| CordTables.AwakeAfterIff | pjrc/teensy4/AudioStream.cpp:392-403 | after disconnecting, streams are active exactly while cords touch them if and only if no counter passed zero with cords left |
| CordTables.UnpluggedCounts | pjrc/teensy4/AudioStream.cpp:392-403 | the same for the code's two decrements, in either order of source and destination and for a cord from a stream to itself |
| CordTables.UncrowdedSleepsWell | pjrc/teensy4/AudioStream.cpp:393-396 | up to 256 ends at a stream no counter passes zero |
| PatchCords.CrowdAndUnplug | pjrc/teensy4/AudioStream.cpp:393-396 | 257 ends built by the constructors of streams and cords, one disconnected: the stream sleeps while 256 ends touch it |
| RingValues.FullIff | pjrc/teensy4/HardwareSerial.cpp:607-610 | the test before storing fails exactly when the ring has one slot left |
| RingValues.Pushed | pjrc/teensy4/HardwareSerial.cpp:607-619 | storing behind the head appends to the contents |
| RingValues.Popped | pjrc/teensy4/HardwareSerial.cpp:511-517 | advancing the tail takes the oldest word |
| SerialPort.Ring.Put | pjrc/teensy4/HardwareSerial.cpp:612-616 | the two arrays behave like one |
| SerialPort.Ring.Store | pjrc/teensy4/HardwareSerial.cpp:607-618 | stores a word if and only if the ring is not full, and appends it |
| SerialPort.Ring.Take | pjrc/teensy4/HardwareSerial.cpp:646-654 | takes the oldest word from either array |
| SerialPort.HardwareSerial.ReceiveOne | pjrc/teensy4/HardwareSerial.cpp:605-618 | a word goes from the FIFO into the ring, or is dropped exactly when the ring is full |
| SerialPort.HardwareSerial.SendOne | pjrc/teensy4/HardwareSerial.cpp:644-653 | the oldest word of the transmit ring goes to the port |
| SerialStreams.AllReceivedIs | pjrc/teensy4/HardwareSerial.cpp:589-620 | the receive part takes as much of the FIFO as the ring has room for and drops the rest |
| SerialStreams.RunFollows | pjrc/teensy4/HardwareSerial.cpp:589-660 | over any run of arrivals and interrupts every word is received once and in order, is dropped exactly if it finds the ring full, and otherwise joins the ring; what waits to be sent is sent in order |
| SerialStreams.AfterTransmits | pjrc/teensy4/HardwareSerial.cpp:642-665 | over any events exactly as many words are sent as the port takes, the oldest first |
| SerialStreams.FifoHoldsFour | pjrc/teensy4/HardwareSerial.cpp:589-620 | a word that arrives is lost exactly when four wait in the FIFO |
| SerialPort.HardwareSerial.IRQHandler | pjrc/teensy4/HardwareSerial.cpp:589-660 | takes as many words from the FIFO as the ring has room for, drops the rest, sends as many as the port takes, all in order, and keeps both streams: read + ring = received words not dropped, sent + ring = written |
| SerialPort.HardwareSerial.Interrupts | pjrc/teensy4/HardwareSerial.cpp:589-660 | any sequence of arrivals and interrupts leaves exactly the state those results are about |
| SerialPort.HardwareSerial.Available | pjrc/teensy4/HardwareSerial.cpp:410-424 | the words in the ring and the FIFO |
| SerialPort.HardwareSerial.Read | pjrc/teensy4/HardwareSerial.cpp:489-526 | with any interrupts between its loads and stores: which word is returned, from ring or FIFO, when it is -1, and the state it leaves |
| SerialPort.HardwareSerial.MoveToRing | pjrc/teensy4/HardwareSerial.cpp:465-474 | moving a word from the FIFO to the front of the empty ring keeps the stream |
| SerialPort.HardwareSerial.Peek | pjrc/teensy4/HardwareSerial.cpp:455-487 | shows the next word of the stream and takes none, also when it moves one from the FIFO into the ring; the state it leaves is that of the interrupts alone |
| SerialWaits.WaitedIs | pjrc/teensy4/HardwareSerial.cpp:554-572 | with a full ring the loop ends in the first turn that sends a word, its own or an interrupt's, and only what that turn sends is sent |
| SerialPort.HardwareSerial.WaitForRoom | pjrc/teensy4/HardwareSerial.cpp:554-572 | waits exactly as long as the ring is full; what is sent meanwhile is the beginning of the ring |
| SerialPort.HardwareSerial.Write | pjrc/teensy4/HardwareSerial.cpp:539-587 | the word enters the transmit stream exactly once, behind everything written before; a full ring is left if and only if some turn sends a word, and a turn of its own sends the oldest one |
| LogValues.FedAccepts | src/logfile.cpp:225-298 | of entries that come one after another exactly those are accepted that fit behind the ones before them, and every other is counted |
| LogValues.FedNumbers | src/logfile.cpp:255-298 | every accepted message takes one number, 0 to 255 in turn |
| LogWriter.LogFile.Put | src/logfile.cpp:225-298 | an entry is queued as a whole if and only if it fits while logging is good; otherwise nothing changes but the overflow counter |
| LogWriter.LogFile.PutAll | src/logfile.cpp:225-298 | the same for any number of entries |
| LogWriter.LogFile.Accept | src/logfile.cpp:284-298 | an accepted entry is appended as a whole, in three parts for a message |
| LogWriter.LogFile.WriteOut | src/logfile.cpp:316-321 | moves the first bytes of the ring to the file and loses none |
| LogWriter.LogFile.Rotate | src/logfile.cpp:323-346 | the full file is kept, the next one starts empty; every failure of the card ends in the error state |
| LogWriter.LogFile.RotateIfFull | src/logfile.cpp:322-347 | a file is rotated at exactly one block more than the limit, which lies within the preallocation |
| LogWriter.LogFile.WriteBlock | src/logfile.cpp:315-348 | one turn with interrupts at any point: the file stays within its limit or is rotated at exactly one block more, and exactly the entries that fit are accepted |
| LogValues.ProcessedGrows | src/logfile.cpp:306-349 | nothing full or accepted is taken back, and unless the card fails less than a block of what was counted is left |
| LogValues.ProcessedPicks | src/logfile.cpp:306-349 | nothing is accepted but what was offered, in order and once each |
| LogValues.ErrorIff | src/logfile.cpp:322-347 | the loop ends in the error state if and only if the card fails in a turn that fills a file, which is every 204785th block |
| LogValues.FailsAtIff | src/logfile.cpp:322-347 | which turns those are, in numbers |
| LogWriter.LogFile.Process | src/logfile.cpp:306-349 | rotated files, current file and ring always concatenate to the accepted entries in order, each rotated file has the same length, the loop ends, and its outcome is the one those results are about |
| LogWriter.LogFile.Drain | src/logfile.cpp:207-215 | the loop ends with all of the ring in the file, in order |
| LogWriter.LogFile.Stop | src/logfile.cpp:188-223 | ends with the ring written completely, unless the card is not started or the state bad, in which case nothing changes |
| LogWriter.LogFile.Open | src/logfile.cpp:119-185 | clears everything of an earlier log but the message counter and opens the first file |
| LogWriter.LogFile.Start | src/logfile.cpp:105-186 | starts exactly when card, name, file and preallocation allow it, with nothing left over from an earlier log but the message counter; the exact state after a failed start and before a second one |
| LogWriter.LogFile.PerformAll | src/logfile.cpp:105-349 | any calls in any order keep the files in order; once a log is stuck in the error state none of them changes anything |
| LogWriter.GetStuck | src/logfile.cpp:322-347 | one failure while the first file is replaced, and a log is stuck |
| ClockSpeed.FindDividers | pjrc/teensy4/clockspeed.c:98-111 | the search ends with the first pair of dividers that is fast enough or with the last pair, and no product wraps |
| ClockSpeed.SearchResult | pjrc/teensy4/clockspeed.c:98-111 | for every request: which dividers are possible and where the product lies |
| ClockSpeed.RoundedRange | pjrc/teensy4/clockspeed.c:112-114 | the multiplier needs no clamping if and only if the request is from 16.05 up to below 1302 MHz |
| ClockSpeed.NestedDivision | pjrc/teensy4/clockspeed.c:116 | dividing twice loses less than one unit |
| ClockSpeed.SetArmClock | pjrc/teensy4/clockspeed.c:98-162 | for every 32-bit request: ranges, when it is clamped and to what, the distance from the request, and the bus clock |
| ClockSpeed.BusDivider | pjrc/teensy4/clockspeed.c:147-162 | the smallest divider, at most 4, with a bus clock of at most 150 MHz for every core clock of at most 600 MHz |
| Calendar.BreakTime | pjrc/teensy4/Time.cpp:44-94 | for every 32-bit time all fields are in range and are the Gregorian reading of that second, weekday included |
| Calendar.MonthLengthRule | pjrc/teensy4/Time.cpp:38 | the month table by rule: 31 and 30 days in turn, starting anew with August, and February |
| Calendar.FindYear | pjrc/teensy4/Time.cpp:62-70 | the year a day falls in |
| Calendar.FindMonth | pjrc/teensy4/Time.cpp:72-93 | the month a day of the year falls in |
| Calendar.ReadsIsUnique | pjrc/teensy4/Time.cpp:44-94 | a second has only one Gregorian reading |
| Calendar.SecondsOfYears | pjrc/teensy4/Time.cpp:106-111 | the seconds up to any 8-bit year, in 32-bit arithmetic; before 1970 without leap days |
| Calendar.SecondsOfMonths | pjrc/teensy4/Time.cpp:113-120 | the seconds of the months before, as the leap test decides, in 32-bit arithmetic |
| Calendar.MakeTime | pjrc/teensy4/Time.cpp:96-126 | what is added up for any fields, leap test included, in 32-bit arithmetic |
| Calendar.EarlierYears | pjrc/teensy4/Time.cpp:106-111 | before 1970 every year counts 365 days |
| Calendar.LeapTests | pjrc/teensy4/Time.cpp:115 | in which years up to 2106 the misplaced leap test and the calendar differ |
| Calendar.MadeOffByOneDay | pjrc/teensy4/Time.cpp:113-124 | exact in January and February, otherwise off by exactly one day in leap years and, the other way, 70 years before one |
| Calendar.RoundTrip | pjrc/teensy4/Time.cpp:96-126 | for every 32-bit time makeTime undoes breakTime if and only if the month is January or February or both leap tests deny a leap year |
| Calendar.RoundTripFails | pjrc/teensy4/Time.cpp:115 | 1 March 2020 and 1 March 2022 come back a day early and a day late |
| MotorRamp.DriveGrows | src/motordriver.cpp:104-136 | more float speed is never less power, and power differs by no more than the distance of the speeds |
| MotorRamp.UpdatedIs | src/motordriver.cpp:99-140 | what a request asks for: nearest speed in range, direction, power and time; NaN nothing |
| MotorRamp.OutputIsBounded | src/motordriver.cpp:257-280 | one output moves towards the target by at most one step, at most 623 PWM units, never past it, and stays in range |
| MotorRamp.FixedIff | src/motordriver.cpp:257-280 | an output changes nothing if and only if the target is matched |
| MotorRamp.OutputsGain | src/motordriver.cpp:257-280 | so does any number of outputs |
| MotorRamp.MatchedWithin25 | src/motordriver.cpp:257-280 | from every reachable state 25 outputs match speed and direction of any target |
| MotorRamp.FullReversalTakes25 | src/motordriver.cpp:257-280 | a full reversal is matched after n outputs if and only if n is at least 25 |
| MotorRamp.MotorControlParams.McUpdate | src/motordriver.cpp:99-140 | clamps the speed, keeps PWM and direction consistent with it, ignores NaN |
| MotorRamp.Motor.Ramp | src/motordriver.cpp:257-279 | the branch computes one output of the ramp |
| MotorRamp.Motor.ProcessOutput | src/motordriver.cpp:257-312 | the pins follow the ramp while motors are enabled; a matched target leaves them alone even when motors were disabled |
| MotorRamp.Motor.Process | src/motordriver.cpp:315-358 | an output on every second call from the 100th on, and what the pins show after it |
| MotorRamp.Motor.Settle | src/motordriver.cpp:257-358 | with motors never disabled and the target left alone, 50 calls after calibration leave the pins showing the target, the direction pin low for forward, or high if inverted |
| MotorRamp.RunsOnDisabled | src/motordriver.cpp:257-312 | a motor at its target when motors are disabled is still driven after any number of calls |
| MotorRamp.Motor.SetSpeed | src/motordriver.cpp:369-371 | a new target is consistent, so the ramp's results apply to it |
| MotorRamp.Motor.CanUseMotors | src/motordriver.cpp:513-515 | disabling changes no pin by itself |
| MotorRamp.Motor.MStop | src/motordriver.cpp:373-380 | stopping asks for speed zero in the direction held |
| NumberText.FillDigits | pjrc/teensy4/Print.cpp:143-155 | the backwards digit loop stays inside its buffer, leaves room for a sign and yields the numeral |
| NumberText.DigitCharacters | pjrc/teensy4/Print.cpp:149-150 | digits are printed as 0 to 9 and A to Z |
| NumberText.FewDigits | pjrc/teensy4/Print.cpp:147-154 | a number below 2^k has at most k digits in every base |
| NumberText.PrintNumber | pjrc/teensy4/Print.cpp:128-161 | never runs past 34 bytes for any 32-bit number, base and sign; bases 0 and 1 |
| NumberText.PrintNumber64 | pjrc/teensy4/Print.cpp:163-187 | never runs past 66 bytes for any 64-bit number |
| NumberText.NumeralsDifferIff | pjrc/teensy4/Print.cpp:149-150 | distinct numbers print differently if and only if the base is at most 249 |
| NumberText.PrintLong | pjrc/teensy4/Print.cpp:68-77 | prints every 32-bit number, the smallest included |
| NumberText.PrintInt64 | pjrc/teensy4/Print.cpp:79-83 | prints every 64-bit number |
| NumberText.DecimalDigits | pjrc/teensy4/Print.cpp:147-154 | a decimal numeral consists of digits and stands for its number |
| NumberStreams.Stream.PeekNextDigit | pjrc/teensy4/Stream.cpp:56-66 | discards exactly the bytes before the next digit or minus sign |
| NumberStreams.Stream.ParseInt | pjrc/teensy4/Stream.cpp:141-167 | takes the next number off the stream and nothing behind it; returns its value in 32-bit arithmetic |
| NumberStreams.Stream.TakeRun | pjrc/teensy4/Stream.cpp:152-162 | the loop takes the first byte and exactly the bytes that continue the number |
| NumberStreams.AccumulatedValue | pjrc/teensy4/Stream.cpp:152-162 | the bytes of a number accumulate to the value of its digits modulo 2^32, whatever byte is skipped |
| NumberStreams.ParsedValue | pjrc/teensy4/Stream.cpp:141-167 | it is negated exactly if it begins with a minus sign that is not skipped |
| NumberStreams.SkippingReadsBack | pjrc/teensy4/Stream.cpp:137-167 | a number with skipped bytes among its digits, such as commas, is read back |
| NumberStreams.PrintedReadsBack | pjrc/teensy4/Stream.cpp:141-167 | every printed 32-bit number is read back from among other text |
| NumberStreams.PrintedFitsIff | pjrc/teensy4/Stream.cpp:158 | reading it back overflows no intermediate result if and only if its magnitude is below 2^31 - 48 |
| NumberStreams.ListingReadsBack | pjrc/teensy4/Stream.cpp:134-167 | any list of numbers printed with separators is read back by as many calls |
| IpText.IPAddress.PrintTo | pjrc/teensy4/IPAddress.cpp:23-31 | prints four decimal numerals with dots between them |
| IpText.DottedIs | pjrc/teensy4/IPAddress.cpp:23-31 | the text spelled out |
| IpText.IPAddress.FromString | pjrc/teensy4/IPAddress.cpp:33-64 | accepts exactly the texts of four fields of digits up to 255, an empty field being 0, and stores their values |
| IpText.IPAddress.TakeIn | pjrc/teensy4/IPAddress.cpp:39-56 | one character is refused exactly when the fields read so far would not be those of an address |
| IpText.FieldsAre | pjrc/teensy4/IPAddress.cpp:42-55 | the fields are the only way to cut a text at all its dots |
| IpText.AreFieldsPrefix | pjrc/teensy4/IPAddress.cpp:42-55 | what is wrong with the beginning of a text is wrong with the text |
| IpText.DottedReadsBack | pjrc/teensy4/IPAddress.cpp:23-64 | every printed address is accepted and read back |
| IpText.PrintedAsReadIff | pjrc/teensy4/IPAddress.cpp:23-64 | an accepted text is printed back unchanged if and only if no field is empty or has a leading zero |

## Left out

- Sockets, threads, sleeps, the SD card and the Ethernet library: they are messages, byte sequences and results of calls. A read of the log file returns a positive count while data remains.
- The ring of rbuf.h, the round buffer of xmroundbuf.h, the checksum of xmutils.h and avr/eeprom.h are not part of this model: a ring is a bounded byte queue, the checksum any function of the payload, the highest EEPROM address a parameter.
- Transfer: liveness after a lost message (TransferRecovery covers spoiled packets only), packets of an earlier connection, a log started during a transfer, an acknowledgement or a checksum that is corrupted without being noticed, an "ack," text without a number, and the "console" greeting during a transfer.
- TransferWire.FrameUnderstood: a packet whose size field is negative as an `int` is counted as noise; the code would compute a checksum over it.
- TransferWire.Reassemble: errors of the socket; sizes within 16 of 2^31, whose sum with the header overflows.
- Transfer.OverflowIff: a run goes on with the exact count after the counter has overflowed, where C++ leaves the outcome undefined.
- The progress message of the console, whose percentage overflows for large files and divides by zero for a file whose size is a multiple of 2^32 (console/eth_client.cpp:276).
- TransferMachines.LogSender.LfGetFile, LogWriter.LogFile.Start: the macro mxat is not part of this model; a parameter says whether a failed one lets the call go on. Opening a file closes what was open before (pjrc/libraries/SdFat/src/FsLib/FsFile.cpp:82-101).
- MillisTimer: a tick and a call are atomic; callbacks of the immediate kind inside a tick and nested interrupts are not modelled. The event object itself is not part of the timer list.
- PatchCords: the memory of a destroyed cord is not reused, so dangling pointers are not captured; the queue of waiting blocks of a stream is a sequence. EventQueue, PatchCords: every object carries a number in ghost state only, under which the proofs look it up.
- EventQueue: the moment between enabling interrupts and clearing the triggered flag in runFromYield and runFromInterrupt, and status, data and context values.
- EventQueues.Responders.RunFromInterrupt: called functions trigger other responders of any but the immediate kind; they do not attach or detach.
- EEPROM word and double-word wrappers, flash commands and a power loss in the middle of a write.
- AudioPool: what the calls make of a block that has had more than 255 owners. The words of the bitmap are sequences of 32 bits. update_all, CPU usage and the interrupt that runs it are not modelled.
- PatchCords.Graph.Destroy: hands back the block that waited at the input instead of releasing it itself, as Disconnect does; AudioPool.Pool.Release is that call. Streams are never destroyed.
- SerialPort.HardwareSerial.IRQHandler: words that arrive at a full hardware FIFO are lost before `received` counts them; flow control pins, TIE and TCIE flags, half duplex and baud rates are not modelled.
- Log writer: file names, the contents of the file number file, and the interrupt between reading and incrementing the message counter. Header, tail and checksum of a message are given byte sequences.
- Clock, voltage and register setup around the divider search.
- Calendar.MakeTime: in the years 1900 and 1901 and after 2038 the multiplication of line 106 overflows a signed `int`, which C++ leaves undefined; the model takes the product modulo 2^32. A month number above 12 reads past the table of month lengths and is shut out.
- Motor ramp: rounding of `float`; over the reals 25 outputs suffice. The modes mSimple and mAngle, the encoder, current measurement and log messages.
- Printing of floating point numbers, and the timeouts of Stream: a stream is the bytes that arrive in time.
- IMU mathematics, the power status machine, console commands, IR decoding, LEDs, crash reports, Tone, WString and DMA: easier members or code that is not in the repository.
