# Verified models of the pump sensor firmware

Dafny models of the stateful and parsing parts of the firmware of the pump sensor: the
FreeRTOS kernel objects that its tasks share (software timers on pointer lists, queues,
stream and message buffers, event groups), the link protocol between the two processors
(ASP), and the nanopb codec of the messages that it reports. `dafny verify dfyconfig.toml`
checks all of it.

Each component has a small specification over mathematical values, and classes or methods
that compute as the C code does: pointers and lists are heap objects, tick counts and
varints have their widths, storage is an array of bytes, loops are loops. The methods are
proved against the specification, and what the component is for is proved of the
specification, for every input and every run.

| component | specification and its theorems | code |
|---|---|---|
| software timers (`timers.c`) | `Entries`, `TimerSpec`, `TimerLaws` | `TimerTask` |
| pointer lists (`list.c`) | `Entries` | `PointerList` |
| queue storage (`queue.c`) | `QueueRing` | `QueueRing.Queue` |
| queue blocking protocol (`queue.c`) | `QueueWakeup` | state machine, one step per critical section |
| stream and message buffers (`stream_buffer.c`) | `StreamBuffer` | `StreamBuffer.StreamBuffer` |
| message buffer with a concurrent writer and reader | `MessageChannel` | state machine, one step per byte copied or index published |
| event groups (`event_groups.c`) | `EventGroup`, `EventLaws`, `EventBarrier` | `EventGroup.EventGroup` |
| ASP link | `AspFrames`, `AspReceiver`, `AspParser` | `Transmitter`, `Receiver`, `ProcessIncomingBuffer` |
| nanopb (`pb_common.c`, `pb_encode.c`, `pb_decode.c`, `pb.h`) | `PbVarint`, `PbMessage`, `PbMerge`, `PbRoundTrip`, `PbNormalForm`, `PbReaders`, `PbSizes` | `PbInput`, `PbDecoder`, `PbEncoder`, `PbFieldIter` |

## How to read the models

* **Timers.** `TimerSpec.World` has unbounded time and one sorted list of absolute expiry
  times. `TimerTask` keeps 32-bit ticks, two lists and 32-bit stamps as the code does, and a
  ghost world: `Valid` says that the current list holds the expiries of the epoch of the
  last sample and the overflow list those of the next one. Each method moves the world by
  one step of `TimerSpec`. `Enabled` holds the assumptions: samples less than 2^32 ticks
  apart while a timer is active, and a start command handled less than 2^32 ticks after its
  stamp. The daemon's own reloads find room in the timer queue, as the code asserts; a task's
  command may be refused.
* **Queues.** `QueueRing` has the bytes and pointers, `QueueWakeup` the counters, lists and
  locks. In `QueueWakeup` a blocked task is put into an event list anywhere (by priority)
  and the head is what gets woken.
* **Words of bits.** Event bits are sets of positions. Words of the codec are natural
  numbers with `BitOr` and shifts defined on them.
* **Messages.** A nanopb descriptor is a list of fields with tag, rule and type, a C struct
  a list of slots, with the has_ flag or the count of each. A decoder is a function from the
  bytes and the old struct to the new struct and the bytes that are left; the merge theorems
  are about this function, and the methods of `PbDecoder` compute it.

## What does not hold, and when it does

* `xQueueGenericReset` wakes one blocked sender only. `ResetLosesSender` gives a run from an
  initial state after which a sender sleeps beside a free place; `ResetCoversSendersIff`
  gives the exact condition on the state before the reset.
* Overwriting a full queue of zero-size items makes its count exceed its length, and no
  other call does (`QueueRing.Queue.Send`, `QueueRing.Perform`); `OverwriteTwice` gets there
  from a new queue.
* Blocking on an event group until bits are set is not always the same as coming when they
  are: it differs exactly when another released task clears what the late-comer needs
  (`SettingCommutesWithWaiting`).
* An ASP frame is not always handled when it comes in: it is exactly if the receiver was
  looking for a start before it (`HandledExactlyWhenIdle`, `IdleIsFinished`). One stray start
  byte in front of any frame hides it (`StrayMagicHidesTheFrame`); frames separated by other
  bytes are all handled (`FramesAreHandledInOrder`).
* Without the right length the AM's parser also passes truncated frames and frames followed
  by copies of their checksum, and nothing else (`ValidExactlyWhen`).
* `pb_decode_varint32` takes some numbers from 2^63 on, as negative 32-bit ones; exactly
  which is stated by `Varint32Overflows`.
* The two-word descriptor packer drops bit 8 of a tag, and the assertion of the four-word
  packer casts the size offset to eight bits before it tests it, so that it lets 300 through,
  which is packed as 44. Reading inverts packing exactly for tags without that bit and size
  offsets below 128 (`LoadInvertsPack`, `PackingLoses`). The tags of this firmware stop at 21.
* When the timer daemon finds the current list empty at tick 0 of an epoch, its wait until the
  wrap is a wait of no ticks, not of 2^32 (`TimerTask.BlockTime`).
* `SensorDataMessage_size` is 993. The encoder never needs more than 883, because it packs
  arrays; the declared size allows for unpacked ones.
* `ASP_MAX_PAYLOAD` is 210, but the payload union is as large as a sensor record, 214 bytes;
  the code compares with the size of the union, and so does the model.

## Model

| member | source | states |
|---|---|---|
| TimerSpec.StepKeepsInv | Firmware/am/lib/FreeRTOS/timers.c:462-891 | Every command, expiry and list switch keeps the epoch invariant: active timers are sorted, each once, due in the epoch of the last sample or the next one |
| TimerSpec.RunKeepsInv | Firmware/am/lib/FreeRTOS/timers.c:502-535 | The epoch invariant holds in every state of every run of the daemon |
| TimerSpec.DrainSweeps | Firmware/am/lib/FreeRTOS/timers.c:835-891 | The list switch calls exactly what is due in the old epoch: every armed expiry and every later one of a timer that reloads, each once, in nondecreasing order of expiry, and leaves only later expiries armed |
| TimerSpec.DrainCallsDue | Firmware/am/lib/FreeRTOS/timers.c:835-891 | What the switch calls is what is due, in both directions |
| TimerSpec.DrainKeepsOrder | Firmware/am/lib/FreeRTOS/timers.c:835-891 | Re-arming inside the switch keeps the list sorted and without repetition |
| TimerSpec.DrainOneProgress | Firmware/am/lib/FreeRTOS/timers.c:849-886 | Each turn of the switch uses up ticks before the wrap, so the switch ends although it inserts into the list that it drains |
| TimerSpec.NoDriftNoSkip | Firmware/am/lib/FreeRTOS/timers.c:474-498 | In every run an auto-reload timer whose queued start was issued at C, before or after the last sample, is called for exactly C + P, C + 2P and so on, each once, in order, none early, and once per whole period when the daemon has caught up |
| TimerSpec.HeadTracked | Firmware/am/lib/FreeRTOS/timers.c:846-886 | An expiry keeps the timer's schedule whether it is armed again or reloads by a queued start |
| TimerSpec.HandleOwn | Firmware/am/lib/FreeRTOS/timers.c:749-777 | A late start keeps the schedule: the callback runs for the expiry it missed and the next start is queued for that expiry |
| TimerLaws.NoExpiryLost | Firmware/am/lib/FreeRTOS/timers.c:462-891 | No expiry is lost: in every step an armed timer, one-shot or not, stays armed for its expiry or is called for it, unless the step handles a command for that timer |
| TimerLaws.DueHeadIsCalled | Firmware/am/lib/FreeRTOS/timers.c:538-595 | Processing at t calls the earliest timer if it is due by then, unless the lists were switched and it is due only in the new epoch |
| TimerLaws.CatchesUp | Firmware/am/lib/FreeRTOS/timers.c:502-595 | From any state, a daemon that keeps processing at t gets to one in which no armed timer is due at t |
| TimerLaws.OneShotIsCalledOnce | Firmware/am/lib/FreeRTOS/timers.c:462-499 | In every run a one-shot timer started at C and left alone is called at most once, for C + P and not early, and exactly once when the daemon has caught up past C + P |
| TimerLaws.StartedIsArmed | Firmware/am/lib/FreeRTOS/timers.c:744-777 | A start arms its timer for one period after the stamp, or calls it once for that when it has passed and queues its reload if it reloads |
| TimerLaws.PeriodIsChanged | Firmware/am/lib/FreeRTOS/timers.c:784-797 | A change of period arms its timer, and nothing else of it, for the new period after now, and stores the new period |
| TimerLaws.PeriodChangeRestarts | Firmware/am/lib/FreeRTOS/timers.c:784-797 | From the change on, in every run that leaves the timer alone, its calls are those of a timer with the new period started then |
| TimerLaws.StoppedIsUnarmed | Firmware/am/lib/FreeRTOS/timers.c:779-824 | A stop or a delete leaves its timer in no list without calling it; a deleted timer is gone |
| TimerLaws.StoppedStaysSilent | Firmware/am/lib/FreeRTOS/timers.c:779-824 | It is not called again in any run that leaves it alone |
| TimerLaws.IdleIsNotCalled | Firmware/am/lib/FreeRTOS/timers.c:502-535 | Nor is any timer that is in no list and has no command queued |
| TimerTask.InsertionTest | Firmware/am/lib/FreeRTOS/timers.c:647-685 | The 32-bit tests decide command + P <= now in unbounded time, and otherwise pick the current list exactly if the expiry precedes the next wrap |
| TimerTask.WrapTest | Firmware/am/lib/FreeRTOS/timers.c:624-644 | A smaller tick value means exactly that the epoch changed |
| TimerTask.ReloadTest | Firmware/am/lib/FreeRTOS/timers.c:862-876 | The wrapped reload value exceeds the expiry exactly if the reload is due in the same epoch |
| TimerTask.ShapeSwap | Firmware/am/lib/FreeRTOS/timers.c:888-890 | Swapping the lists after the current one is drained makes the overflow list the list of the next epoch |
| TimerTask.BlockTime | Firmware/am/lib/FreeRTOS/timers.c:538-595 | The 32-bit block time reaches exactly to the earliest expiry or, with the current list empty, to the wrap, and passes no expiry; at tick 0 the wait for the wrap is a wait of no ticks |
| TimerTask.TimerTask.constructor | Firmware/am/lib/FreeRTOS/timers.c:894-942 | Both lists and the command queue start empty |
| TimerTask.TimerTask.GenericCommand | Firmware/am/lib/FreeRTOS/timers.c:381-421 | A command is queued behind the others with a 32-bit stamp, or refused without effect when the timer queue has no room |
| TimerTask.TimerTask.InsertTimerInActiveList | Firmware/am/lib/FreeRTOS/timers.c:647-685 | Returns true exactly if the expiry has passed in unbounded time, and otherwise arms the timer for it |
| TimerTask.TimerTask.ProcessExpiredTimer | Firmware/am/lib/FreeRTOS/timers.c:462-499 | The head of the current list is the earliest expiry; it fires, and reloads from its expiry, not from now |
| TimerTask.TimerTask.GetNextExpireTime | Firmware/am/lib/FreeRTOS/timers.c:598-621 | With the current list nonempty, the value returned stands in unbounded time for the least of all armed expiries; with it empty, no timer is due before the wrap |
| TimerTask.TimerTask.SampleTimeNow | Firmware/am/lib/FreeRTOS/timers.c:624-644 | Sampling moves the world's time to t, switching lists exactly if the epoch changed |
| TimerTask.TimerTask.SwitchTimerLists | Firmware/am/lib/FreeRTOS/timers.c:835-891 | Ends, does to the world what the drain does, and leaves the overflow list empty and the lists swapped |
| TimerTask.TimerTask.ProcessTimerOrBlockTask | Firmware/am/lib/FreeRTOS/timers.c:538-595 | Given what the last call found of the next expiry, one wake-up of the daemon is one step of the specification; when it blocks, its wait ends exactly at the earliest expiry or the wrap, and is without limit exactly if no timer is armed |
| TimerTask.TimerTask.FireLate | Firmware/am/lib/FreeRTOS/timers.c:753-777 | A timer found late is called once and its reload queued with the missed expiry as stamp |
| TimerTask.TimerTask.ExecuteCommand | Firmware/am/lib/FreeRTOS/timers.c:744-829 | Start, reset, stop, period change and delete do what the specification says of them |
| TimerTask.TimerTask.ProcessReceivedCommand | Firmware/am/lib/FreeRTOS/timers.c:688-832 | Taking a command, leaving the lists, sampling the time and executing it is one step of the specification |
| TimerTask.TimerTask.SendAll | Firmware/am/lib/FreeRTOS/timers.c:381-421 | Commands that tasks send one after the other are send steps of the specification |
| TimerTask.TimerTask.ProcessReceivedCommands | Firmware/am/lib/FreeRTOS/timers.c:688-832 | The loop over the timer queue, with commands arriving between its turns, is the run of their handle steps and ends with the queue empty |
| TimerTask.TimerTask.Serve | Firmware/am/lib/FreeRTOS/timers.c:502-535 | The loop of the daemon task on 32-bit readings computes the run of the specification for the same samples and commands, for any number of turns |
| PointerList.SplicedLinked | Firmware/am/lib/FreeRTOS/list.c:148-166 | Four pointer assignments put an item into the ring with inverse next and previous links |
| PointerList.UnsplicedLinked | Firmware/am/lib/FreeRTOS/list.c:175-190 | Two pointer assignments take an item out and leave the other links inverse |
| PointerList.InsertEntries | Firmware/am/lib/FreeRTOS/list.c:103-167 | The position that vListInsert chooses makes it a stable sorted insertion, the one that the timer model uses |
| PointerList.InsertEndVisits | Firmware/am/lib/FreeRTOS/list.c:74-100 | An item put at the end is met last by a walk from pxIndex, but for the item under pxIndex itself; the order of the others stays |
| PointerList.RemoveVisits | Firmware/am/lib/FreeRTOS/list.c:170-196 | Removing an item takes it out of the order of visits and changes nothing else, also when pxIndex stood on it |
| PointerList.RemoveItems | Firmware/am/lib/FreeRTOS/list.c:170-196 | The list keeps the other items in their order |
| PointerList.UnvisitEntries | Firmware/am/lib/FreeRTOS/list.c:170-196 | Seen as entries, and when no two items have the same owner, taking an item out is dropping the entries of its owner, which is how the timer model removes a timer |
| PointerList.NextVisits | Firmware/am/lib/include/private/list.h:276-287 | Each move of a walk takes the front of the order of visits and puts it last |
| PointerList.List.constructor | Firmware/am/lib/FreeRTOS/list.c:37-59 | The list is empty and its end marker linked to itself |
| PointerList.List.InsertEnd | Firmware/am/lib/FreeRTOS/list.c:74-100 | The ring with the item before pxIndex, met last by the walk but for the item under pxIndex itself; with pxIndex on the end marker the items with it appended |
| PointerList.List.FindPosition | Firmware/am/lib/FreeRTOS/list.c:114-147 | The search ends before the first larger value, also for portMAX_DELAY |
| PointerList.List.Insert | Firmware/am/lib/FreeRTOS/list.c:103-167 | The items become the stable sorted insertion of the item among the old ones; the ring stays valid and container and count are right |
| PointerList.List.Remove | Firmware/am/lib/FreeRTOS/list.c:170-196 | The items and the order of visits without the item; as entries with distinct owners, without the owner; container cleared, and the number of items left returned |
| PointerList.List.GetOwnerOfNextEntry | Firmware/am/lib/include/private/list.h:276-287 | The owner of the item that is first in the order of visits |
| QueueRing.Queue.constructor | Firmware/am/lib/FreeRTOS/queue.c:408-459 | A new queue is empty, with the read pointer on the last slot |
| QueueRing.Queue.Reset | Firmware/am/lib/FreeRTOS/queue.c:247-297 | The pointers of an empty queue |
| QueueRing.Queue.CopyDataToQueue | Firmware/am/lib/FreeRTOS/queue.c:2040-2116 | Back, front and overwrite on the wrapped storage are the operations of a bounded double-ended queue, but for the one case that breaks the count |
| QueueRing.Queue.CopyDataFromQueue | Firmware/am/lib/FreeRTOS/queue.c:2119-2134 | Moves on to the front item and copies it |
| QueueRing.Queue.Send | Firmware/am/lib/FreeRTOS/queue.c:744-790 | Accepted exactly if there is room or it overwrites, and then the contents are those of the sequence with the item; the exact case in which the queue is damaged |
| QueueRing.Queue.Receive | Firmware/am/lib/FreeRTOS/queue.c:1264-1300 | Takes the front item, or finds the queue empty |
| QueueRing.Queue.Peek | Firmware/am/lib/FreeRTOS/queue.c:1626-1660 | The front item, with the contents unchanged |
| QueueRing.SentBack | Firmware/am/lib/FreeRTOS/queue.c:2072-2087 | A slot written behind the others appends the item, across the wrap |
| QueueRing.SentFront | Firmware/am/lib/FreeRTOS/queue.c:2088-2113 | A slot written at the read pointer, which then moves back, prepends the item |
| QueueRing.SentOverwrite | Firmware/am/lib/FreeRTOS/queue.c:2088-2113 | In a queue of one the written slot replaces the item |
| QueueRing.ItemsFront | Firmware/am/lib/FreeRTOS/queue.c:2119-2134 | The slot after the read pointer is the front item and the rest of the queue starts behind it |
| QueueRing.FirstInFirstOut | Firmware/am/lib/FreeRTOS/queue.c:725-919 | With sends to the back only, what was accepted is what was taken followed by the contents, in every sequence of calls |
| QueueRing.Conservation | Firmware/am/lib/FreeRTOS/queue.c:725-919 | With sends at both ends nothing is lost or made up, in every sequence of calls |
| QueueRing.FrontIsTakenNext | Firmware/am/lib/FreeRTOS/queue.c:2088-2134 | What is sent to the front is taken next and leaves what was there before |
| QueueRing.OverwriteIsTakenAlone | Firmware/am/lib/FreeRTOS/queue.c:2088-2134 | An overwriting send to a queue of one leaves exactly its item to be taken |
| QueueRing.Perform | Firmware/am/lib/FreeRTOS/queue.c:2040-2134 | Every sequence of sends, receives, peeks and resets, none of which overwrites a full queue of zero-size items, does to the ring what it does to a plain sequence |
| QueueRing.OverwriteTwice | Firmware/am/lib/FreeRTOS/queue.c:2046-2116 | Two overwriting sends to a new queue of one zero-size item are both accepted and leave a count of two |
| QueueWakeup.StepKeepsShape | Firmware/am/lib/FreeRTOS/queue.c:744-919 | Every step keeps the shape: each task at most once in one list or pending retry of its kind, locks held exactly while their owner has the scheduler suspended |
| QueueWakeup.WakeReceiversKeep | Firmware/am/lib/FreeRTOS/queue.c:2144-2208 | Unlocking wakes one receiver for each post counted while locked, or leaves none waiting |
| QueueWakeup.WakeSendersKeep | Firmware/am/lib/FreeRTOS/queue.c:2210-2252 | Unlocking wakes one sender for each receive counted while locked, or leaves none waiting |
| QueueWakeup.StepCoversReceivers | Firmware/am/lib/FreeRTOS/queue.c:956-1067 | Every step of tasks and interrupts keeps: with a receiver waiting, messages are at most pending retries plus counted posts |
| QueueWakeup.StepCoversSenders | Firmware/am/lib/FreeRTOS/queue.c:1264-1377 | The same for senders and free places, given that resets wake enough |
| QueueWakeup.ResetCoversSendersIff | Firmware/am/lib/FreeRTOS/queue.c:262-277 | A reset keeps blocked senders covered exactly if at most one waits or the retries can fill the queue |
| QueueWakeup.ResetLosesSender | Firmware/am/lib/FreeRTOS/queue.c:262-277 | A run from an initial state in which a reset leaves a sender asleep beside a free place |
| QueueWakeup.NoLostWakeup | Firmware/am/lib/FreeRTOS/queue.c:744-919 | In every interleaving, an unlocked queue with a sleeping receiver and no pending retry is empty; the same for senders and a full queue when resets wake enough |
| QueueWakeup.StepCounts | Firmware/am/lib/FreeRTOS/queue.c:744-1067 | Every step, of a task or of an interrupt, changes the count by the message that it puts or takes; a reset empties the queue |
| QueueWakeup.CountBalances | Firmware/am/lib/FreeRTOS/queue.c:744-1377 | In every interleaving without a reset, what was put in is what was taken out and what is there |
| QueueWakeup.ReturnsExactlyWhen | Firmware/am/lib/FreeRTOS/queue.c:744-919 | A call returns only at an attempt that goes through or may not block, or after its time ran out: a receive when the queue is found empty again, a send at once |
| QueueWakeup.TimedOutCallReturns | Firmware/am/lib/FreeRTOS/queue.c:1302-1377 | A call that cannot go through and whose time is up returns by its own steps and leaves the queue as it was |
| QueueWakeup.NoOvertaking | Firmware/am/lib/FreeRTOS/queue.c:2144-2252 | Waiters are woken in the order of their list: no step takes the second of two off the list while the first stays on it, time-outs aside |
| StreamBuffer.LengthRoundTrip | Firmware/am/lib/FreeRTOS/stream_buffer.c:663-666 | A length is read back from its four bytes |
| StreamBuffer.FramesAppend | Firmware/am/lib/FreeRTOS/stream_buffer.c:639-688 | A message with its length appended to the bytes appends it to the queue of messages |
| StreamBuffer.WriteExtends | Firmware/am/lib/FreeRTOS/stream_buffer.c:1020-1063 | Bytes stored in up to two pieces from the head on extend what the ring holds |
| StreamBuffer.ReadShortens | Firmware/am/lib/FreeRTOS/stream_buffer.c:1066-1118 | Bytes read in up to two pieces from the tail on are the front of what the ring holds |
| StreamBuffer.StreamBuffer.constructor | Firmware/am/lib/FreeRTOS/stream_buffer.c:218-262 | An empty buffer with one byte more than asked for |
| StreamBuffer.StreamBuffer.BytesInBuffer | Firmware/am/lib/FreeRTOS/stream_buffer.c:1121-1138 | The number of bytes between tail and head |
| StreamBuffer.StreamBuffer.SpacesAvailable | Firmware/am/lib/FreeRTOS/stream_buffer.c:451-472 | Space and bytes always add up to the length less one |
| StreamBuffer.StreamBuffer.WriteBytes | Firmware/am/lib/FreeRTOS/stream_buffer.c:1020-1063 | The contents with the data appended |
| StreamBuffer.StreamBuffer.ReadBytes | Firmware/am/lib/FreeRTOS/stream_buffer.c:1066-1118 | The front of the contents, and the rest stays |
| StreamBuffer.StreamBuffer.Send | Firmware/am/lib/FreeRTOS/stream_buffer.c:488-585 | A stream takes what fits; a message buffer takes the whole message or nothing |
| StreamBuffer.StreamBuffer.Receive | Firmware/am/lib/FreeRTOS/stream_buffer.c:691-792 | A stream gives its front bytes; a message buffer gives the first message whole, or nothing and stays unchanged when the caller's buffer is too small |
| MessageChannel.StepKeepsInv | Firmware/am/lib/FreeRTOS/stream_buffer.c:639-688 | Every step of writer or reader keeps: between tail and head lie the pending messages' frames, then perhaps one published length |
| MessageChannel.ReceiveKeeps | Firmware/am/lib/FreeRTOS/stream_buffer.c:752-785 | A snapshot of more bytes than a length covers a whole message, although the length was published before the payload |
| MessageChannel.ReleaseLengthKeeps | Firmware/am/lib/FreeRTOS/stream_buffer.c:852-899 | The length that the reader gets is that of the first pending message |
| MessageChannel.ReleaseDataKeeps | Firmware/am/lib/FreeRTOS/stream_buffer.c:852-899 | The bytes that the reader gets are the first pending message, whole |
| MessageChannel.Linearizable | Firmware/am/lib/FreeRTOS/stream_buffer.c:1020-1138 | In every interleaving of a writer and a reader the received messages are whole and a prefix of those sent, and all of them when both rest and the buffer is empty |
| MessageChannel.FittingMessageIsSent | Firmware/am/lib/FreeRTOS/stream_buffer.c:488-585 | A message that fits is sent by the writer's own steps, whatever the reader is in the middle of; one that does not is refused without effect |
| MessageChannel.PendingMessageIsReceived | Firmware/am/lib/FreeRTOS/stream_buffer.c:691-792 | The first message that was sent and not received is received by the reader's own steps, whatever the writer is in the middle of |
| EventGroup.SetBitsStrandsNobody | Firmware/am/lib/FreeRTOS/event_groups.c:504-595 | After setting bits no blocked task's condition holds |
| EventGroup.WaitBitsStrandsNobody | Firmware/am/lib/FreeRTOS/event_groups.c:314-443 | Nor after a wait, whether it returns or blocks |
| EventGroup.SyncStrandsNobody | Firmware/am/lib/FreeRTOS/event_groups.c:176-293 | Nor after a rendezvous |
| EventGroup.OrderDoesNotMatter | Firmware/am/lib/FreeRTOS/event_groups.c:529-583 | Who is released and which bits are cleared does not depend on the order of the waiter list |
| EventGroup.UnsatisfiedMembers | Firmware/am/lib/FreeRTOS/event_groups.c:529-583 | Released are exactly the satisfied waiters |
| EventGroup.NoticesSatisfy | Firmware/am/lib/FreeRTOS/event_groups.c:571-577 | Each released task, in list order, is told bits that meet the condition it waited with, marked as set by a call |
| EventGroup.ItemUnpacks | Firmware/am/lib/FreeRTOS/event_groups.c:536-545 | A list item's value gives back the bits and the control bits that were packed into it |
| EventLaws.LeftAfterSet | Firmware/am/lib/FreeRTOS/event_groups.c:529-590 | After setting bits a bit is left exactly if it was set before or now and no released waiter had asked to clear it |
| EventLaws.LeftAfterWait | Firmware/am/lib/FreeRTOS/event_groups.c:314-375 | A call that returns at once clears a bit exactly if it waited for it, was told to clear and its condition was met |
| EventLaws.SettingCommutesWithWaiting | Firmware/am/lib/FreeRTOS/event_groups.c:314-595 | Blocking and being released by bits gives the same group as waiting after they are set, exactly unless another released task clears what is needed |
| EventLaws.SyncIsSetThenWait | Firmware/am/lib/FreeRTOS/event_groups.c:176-243 | A rendezvous is setting bits and then waiting for all; when a task that it releases clears some in between it still goes on, where the wait would block |
| EventGroup.EventGroup.SetBits | Firmware/am/lib/FreeRTOS/event_groups.c:504-595 | The loop that removes items from the list it walks releases the waiters satisfied by old and new bits together, clears the union of their clear-on-exit bits, and returns the bits that are left |
| EventGroup.EventGroup.ClearBits | Firmware/am/lib/FreeRTOS/event_groups.c:446-470 | Returns the bits before and clears, and strands nobody |
| EventGroup.EventGroup.WaitBits | Firmware/am/lib/FreeRTOS/event_groups.c:314-394 | Returns at once, with the bits as it found them, if the condition holds or there is no block time, else joins the waiters |
| EventGroup.EventGroup.Sync | Firmware/am/lib/FreeRTOS/event_groups.c:176-243 | Sets bits, and goes on and clears them if all are there, returning all of them, else returns what is left or joins the waiters |
| EventGroup.EventGroup.TimedOut | Firmware/am/lib/FreeRTOS/tasks.c:2717-2725 | A task whose block time has run out leaves the list, and nobody else does |
| EventGroup.EventGroup.Resumed | Firmware/am/lib/FreeRTOS/event_groups.c:396-436 | A task that was released returns the bits that it was told; one that timed out leaves the group as a call that does not block would, so bits that came late are returned and cleared |
| EventBarrier.ArriveEarly | Firmware/am/lib/FreeRTOS/event_groups.c:196-235 | A task that arrives while others are missing waits with its bit set |
| EventBarrier.ArriveLast | Firmware/am/lib/FreeRTOS/event_groups.c:196-216 | The last to arrive releases all others, goes on and leaves no bit set |
| EventBarrier.ReusableBarrier | Firmware/am/lib/FreeRTOS/event_groups.c:176-293 | Tasks with distinct bits in any order: nobody returns from the k-th call before all have made it, and all have returned equally often |
| AspFrames.ChecksumIsUnique | Firmware/shared/asp/am-ssm-spi-protocol.c:341-358 | The checksum is the one byte that makes the sum a multiple of 256 |
| AspFrames.ChecksumSeesOneByte | Firmware/shared/asp/am-ssm-spi-protocol.c:341-358 | Changing one payload byte changes the checksum |
| AspFrames.ChecksumSeesId | Firmware/shared/asp/am-ssm-spi-protocol.c:341-358 | Changing the id changes the checksum |
| AspFrames.ComputeChecksum | Firmware/shared/asp/am-ssm-spi-protocol.c:341-358 | The 8-bit loop computes the checksum of the frame in the buffer |
| AspFrames.Transmitter.Transmit | Firmware/shared/asp/ssm-spi-protocol.c:269-283 | What is sent is the frame: magic, length, id, payload, checksum, whatever the buffer held before |
| AspFrames.Transmitter.TransmitAck | Firmware/shared/asp/ssm-spi-protocol.c:238-252 | The acknowledgement frame with the acknowledged id |
| AspFrames.Transmitter.TransmitNack | Firmware/shared/asp/ssm-spi-protocol.c:285-301 | The frame without payload that reports an error |
| AspReceiver.Receiver.ProcessIncomingByte | Firmware/shared/asp/am-ssm-spi-protocol.c:56-159 | After every byte the calls made are those of the grammar for all bytes so far, and the state is the unfinished end |
| AspReceiver.Receiver.HandleValidMsg | Firmware/shared/asp/am-ssm-spi-protocol.c:163-202 | The handler for the id, or the error handler |
| AspReceiver.Periodic | Firmware/shared/asp/ssm-spi-protocol.c:51-55 | Feeding bytes in any portions makes the calls of the whole stream |
| AspReceiver.CallsAppend | Firmware/shared/asp/am-ssm-spi-protocol.c:56-159 | A stream can be cut anywhere: the second part starts with what the first left unfinished |
| AspReceiver.FramesAreHandledInOrder | Firmware/shared/asp/am-ssm-spi-protocol.c:56-159 | Frames with accepted ids, separated by any bytes but the magic one, are handled each once and in order |
| AspReceiver.OnlyFramesAreHandled | Firmware/shared/asp/am-ssm-spi-protocol.c:141-157 | When a byte makes a handler run, the stream ends with exactly that frame and all before it had been dealt with |
| AspReceiver.HandledExactlyWhenIdle | Firmware/shared/asp/am-ssm-spi-protocol.c:56-159 | After any bytes, an accepted frame is handled when its last byte comes in exactly if nothing before it was left unfinished |
| AspReceiver.IdDecidesHandler | Firmware/shared/asp/am-ssm-spi-protocol.c:163-202 | A frame that comes to an idle receiver goes to the handler of its id and to no other, for every frame and each of the five handlers |
| AspReceiver.ErrorsAreReported | Firmware/shared/asp/am-ssm-spi-protocol.c:75-157 | An idle receiver reports an error exactly at a length above 214, at an id that is not one of the seven, at a wrong checksum, and for the two ids that have no handler |
| AspReceiver.Receiver.IdleIsFinished | Firmware/shared/asp/am-ssm-spi-protocol.c:56-75 | Nothing is left unfinished exactly if the state is the one that looks for a start |
| AspReceiver.StrayMagicHidesTheFrame | Firmware/shared/asp/am-ssm-spi-protocol.c:65-90 | A start byte that comes when the receiver is idle hides whatever accepted frame follows it |
| AspParser.FrameIsValid | Firmware/shared/asp/am-ssm-spi-protocol.c:215-336 | A frame of exact length is a valid message with its contents |
| AspParser.ExactLengthDecides | Firmware/shared/asp/am-ssm-spi-protocol.c:215-336 | At the exact length nothing but a frame is |
| AspParser.OneWrongByte | Firmware/shared/asp/am-ssm-spi-protocol.c:309-323 | One wrong payload or checksum byte is an invalid checksum |
| AspParser.WrongId | Firmware/shared/asp/am-ssm-spi-protocol.c:257-297 | A wrong id is an invalid id or an invalid checksum |
| AspParser.IdDecidesFrame | Firmware/shared/asp/am-ssm-spi-protocol.c:257-297 | A frame is valid exactly if its id is one of the ten, and has an invalid id otherwise |
| AspParser.WrongHeader | Firmware/shared/asp/am-ssm-spi-protocol.c:226-256 | A wrong start byte is an erroneous message and a length above 214 an invalid length, whatever follows |
| AspParser.ValidExactlyWhen | Firmware/shared/asp/am-ssm-spi-protocol.c:215-336 | At any length: valid are the beginnings of frames and frames followed by copies of their checksum, and nothing else |
| AspParser.ProcessIncomingBuffer | Firmware/shared/asp/am-ssm-spi-protocol.c:215-336 | The loop gives that verdict, and the message that the header claims |
| AspParser.Exchange | Firmware/shared/asp/ssm-spi-protocol.c:192-301 | Every frame that the SSM builds is read back by the AM |
| PbVarint.EncodeVarint32 | Firmware/am/protos/pb_encode.c:554-588 | The two loops over 32-bit halves give the base 128 form of the 64-bit number |
| PbVarint.VarintRoundTrip | Firmware/am/protos/pb_decode.c:237-257 | At most ten bytes, and decoding inverts the form in front of any bytes |
| PbVarint.VarintIsShortest | Firmware/am/protos/pb_encode.c:554-604 | No shorter run of bytes means the same number |
| PbVarint.Varint32RoundTrip | Firmware/am/protos/pb_decode.c:169-229 | The 32-bit decoder reads back every number below 2^32 |
| PbVarint.Varint32Overflows | Firmware/am/protos/pb_decode.c:203-224 | It refuses 2^32 to 2^63, and from there on takes exactly what looks like a negative 32-bit number |
| PbVarint.ZigZagBijection | Firmware/am/protos/pb_encode.c:606-615 | The 64-bit zigzag mappings are inverse bijections |
| PbInput.IStream.constructor | Firmware/am/protos/pb_decode.c:141-163 | A stream over the first bytes of a buffer |
| PbInput.IStream.Read | Firmware/am/protos/pb_decode.c:84-119 | The next bytes, or failure without moving |
| PbInput.IStream.ReadByte | Firmware/am/protos/pb_decode.c:123-139 | The next byte, or failure at the end |
| PbInput.IStream.DecodeVarint32Eof | Firmware/am/protos/pb_decode.c:169-229 | The loop accepts exactly the 32-bit varints of the specification, with sign padding, and reports an empty stream |
| PbInput.IStream.DecodeVarint | Firmware/am/protos/pb_decode.c:237-257 | The loop accepts exactly varints of up to ten bytes and keeps 64 bits |
| PbInput.IStream.SkipVarint | Firmware/am/protos/pb_decode.c:260-269 | Skips to behind the first byte without a continuation bit |
| PbInput.IStream.SkipString | Firmware/am/protos/pb_decode.c:271-283 | Skips a length and as many bytes |
| PbInput.IStream.DecodeTag | Firmware/am/protos/pb_decode.c:285-300 | Tag and wire type of the next key |
| PbInput.IStream.SkipField | Firmware/am/protos/pb_decode.c:302-312 | Skips a field of each wire type, or fails |
| PbInput.IStream.MakeStringSubstream | Firmware/am/protos/pb_decode.c:356-369 | A substream over exactly the announced bytes |
| PbInput.IStream.CloseStringSubstream | Firmware/am/protos/pb_decode.c:371-384 | The parent goes on behind them, read or not |
| PbDecoder.DecodeScalar | Firmware/am/protos/pb_decode.c:1349-1373 | A value that does not fit the member is an error |
| PbDecoder.DecodeString | Firmware/am/protos/pb_decode.c:1483-1525 | The terminated text in front of older bytes, or an error when it does not fit |
| PbDecoder.DecodeBasicField | Firmware/am/protos/pb_decode.c:390-422 | One value of the field's type, merged into the member |
| PbDecoder.DecodeSubmessage | Firmware/am/protos/pb_decode.c:1527-1574 | The announced bytes decoded into the nested struct |
| PbDecoder.DecodePackedArray | Firmware/am/protos/pb_decode.c:436-466 | The elements of a packed run appended, or an error when they do not fit or one is bad |
| PbDecoder.DecodeElements | Firmware/am/protos/pb_decode.c:448-459 | The loop over the packed run takes elements while there is room, and ends short exactly if the run is bad or too long |
| PbDecoder.DecodeStaticField | Firmware/am/protos/pb_decode.c:424-477 | Required, optional and repeated fields, packed or not, as specified |
| PbDecoder.SetToDefaults | Firmware/am/protos/pb_decode.c:888-921 | Every member cleared recursively |
| PbDecoder.CheckRequired | Firmware/am/protos/pb_decode.c:1046-1086 | The test of two 32-bit words means that each of the first 64 required fields was seen |
| PbDecoder.RecordsMore | Firmware/am/protos/pb_decode.c:1028-1033 | Setting one bit records one required field and no other |
| PbDecoder.MarkSeen | Firmware/am/protos/pb_decode.c:1028-1033 | The two words then record the field with what was seen before |
| PbDecoder.DecodeMessage | Firmware/am/protos/pb_decode.c:927-1089 | The loop computes the specified struct or fails with it |
| PbDecoder.DecodeEx | Firmware/am/protos/pb_decode.c:1091-1128 | With or without initialising, with or without a length in front |
| PbMerge.DecodeLoopAppend | Firmware/am/protos/pb_decode.c:947-1037 | Decoding two runs of fields in turn is decoding their concatenation |
| PbMerge.DecodeMerges | Firmware/am/protos/pb_decode.c:1091-1128 | If a decodes and b decodes over the result, a followed by b decodes to the same struct; and it decodes exactly if b's fields do |
| PbMerge.UnknownFieldsAreIgnored | Firmware/am/protos/pb_decode.c:973-1002 | An unknown field at any field boundary changes neither the result nor whether there is one |
| PbMerge.LastOneWins | Firmware/am/protos/pb_decode.c:428-434 | Of two occurrences of a scalar the first might as well not be there |
| PbMerge.LastTextWins | Firmware/am/protos/pb_decode.c:1483-1525 | The text of a string does not depend on what the buffer held |
| PbMerge.PackedRunsAppend | Firmware/am/protos/pb_decode.c:436-466 | Two packed runs are one |
| PbMerge.SubmessagesMerge | Firmware/am/protos/pb_decode.c:1527-1574 | Two occurrences of a submessage are one with the payloads concatenated |
| PbRoundTrip.ValueRoundTrip | Firmware/am/protos/pb_decode.c:390-422 | Every value, nested structs included, is read back before any bytes that follow |
| PbRoundTrip.PackedRoundTrip | Firmware/am/protos/pb_encode.c:139-191 | Packed arrays are read back |
| PbRoundTrip.ItemsField | Firmware/am/protos/pb_encode.c:192-232 | So are arrays of submessages |
| PbRoundTrip.MessageRoundTrip | Firmware/am/protos/pb_encode.c:493-515 | Decoding an encoded message succeeds on exactly those bytes and gives a struct that holds the same message |
| PbRoundTrip.CanonIsSame | Firmware/am/protos/pb_decode.c:888-921 | The struct that decoding gives holds the same message: flags, counts, present values and texts, at every depth |
| PbNormalForm.DecodedIsEncodable | Firmware/am/protos/pb_decode.c:1130-1133 | The encoder accepts every struct that the decoder fills |
| PbNormalForm.NormalForm | Firmware/am/protos/pb_encode.c:493-515 | Whatever was accepted, encoding the result gives bytes that decode to the same message and are encoded again |
| PbNormalForm.SameBytesSameMessage | Firmware/am/protos/pb_encode.c:493-515 | Two encodable structs give the same bytes exactly if they hold the same message |
| PbNormalForm.Exchange | Firmware/am/protos/pb_encode.c:493-515 | Encoder and decoder together: the message arrives exactly if it is encodable and fits |
| PbReaders.WireTypeSkipsValue | Firmware/am/protos/pb_encode.c:651-685 | The wire type in a value's key tells a reader that does not know the field exactly where the value ends |
| PbReaders.ForeignValueIsSkipped | Firmware/am/protos/pb_decode.c:302-312 | A value of any of the four wire types in use, from any writer, is skipped exactly |
| PbReaders.UnknownFieldIsSkipped | Firmware/am/protos/pb_decode.c:973-1002 | Whatever an encoded field holds, a reader whose descriptor lacks its tag goes on behind it with the struct unchanged |
| PbReaders.OlderReaderReads | Firmware/am/protos/pb_decode.c:947-1037 | A reader with an older descriptor, without the fields added since, gets the rest of the message and nothing else |
| PbReaders.CutMessageIsAccepted | Firmware/am/protos/pb_decode.c:1046-1086 | A message cut off between two fields is accepted exactly if none of the first 64 required fields is behind the cut |
| PbReaders.EmptyMessageIsBlank | Firmware/am/protos/pb_decode.c:888-921 | The empty message gives a struct whose memory is all zero, at every depth, and is refused exactly if a field is required |
| PbReaders.MalformedIsRefused | Firmware/am/protos/pb_decode.c:302-312 | A key with tag zero, or an unknown key of a wire type that is not in use, spoils the message at any field boundary |
| PbReaders.NumberIsAccepted | Firmware/am/protos/pb_decode.c:1349-1373 | A number is accepted exactly if it fits the bytes of the member, and then is the member's value |
| PbReaders.TextIsAccepted | Firmware/am/protos/pb_decode.c:1483-1525 | A text is accepted exactly if there is room for it and its terminator, and then is the member's text |
| PbReaders.BoolIsRead | Firmware/am/protos/pb_decode.c:1344-1347 | Every number but zero is read as true |
| PbReaders.GpsBytes | Firmware/am/protos/pb_encode.c:617-665 | The hours of a GPS record go out under key 0x10 and the latitude, least significant byte first, under key 0x25 |
| PbEncoder.OStream.BufWrite | Firmware/am/protos/pb_encode.c:53-63 | The bytes behind those that are there |
| PbEncoder.OStream.Write | Firmware/am/protos/pb_encode.c:82-100 | Written or counted, exactly if there is room |
| PbEncoder.EncodeVarint | Firmware/am/protos/pb_encode.c:588-604 | The base 128 form |
| PbEncoder.EncodeTag | Firmware/am/protos/pb_encode.c:645-649 | The key of a field |
| PbEncoder.EncodeFixed32 | Firmware/am/protos/pb_encode.c:617-626 | Four bytes, least significant first |
| PbEncoder.EncString | Firmware/am/protos/pb_encode.c:847-898 | The text up to its terminator, and an error exactly if there is none |
| PbEncoder.EncodeBasicField | Firmware/am/protos/pb_encode.c:331-372 | Key and value |
| PbEncoder.EncodeSubmessage | Firmware/am/protos/pb_encode.c:694-742 | Size and message; the sizing pass agrees with the writing pass |
| PbEncoder.WriteSubmessage | Firmware/am/protos/pb_encode.c:717-741 | The message in a substream of exactly its size; "submsg size changed" is unreachable |
| PbEncoder.PackedSize | Firmware/am/protos/pb_encode.c:146-167 | The size of a packed array before it is written |
| PbEncoder.EncodeArray | Firmware/am/protos/pb_encode.c:123-235 | A packed run or one field per element; an error exactly if the count exceeds the array or an element cannot be encoded |
| PbEncoder.EncodeOneField | Firmware/am/protos/pb_encode.c:387-438 | Absent optional fields and empty arrays give nothing |
| PbEncoder.Encode | Firmware/am/protos/pb_encode.c:493-515 | Succeeds exactly if the struct is encodable and its size fits, and then has written the message behind what was there |
| PbEncoder.GetEncodedSize | Firmware/am/protos/pb_encode.c:538-547 | The size that a buffer stream writes |
| PbEncoder.EncodeToBuffer | Firmware/am/protos/pb_encode.c:65-80 | The buffer starts with the message exactly if it fits |
| PbEncoder.EncodeEx | Firmware/am/protos/pb_encode.c:517-536 | With a length in front, with a zero behind, or plain |
| PbSizes.MaxMessageIsExact | Firmware/am/protos/messages.pb.h:264-268 | The computed maximum of a descriptor is reached and never exceeded |
| PbSizes.CommonHeaderSize | Firmware/am/protos/messages.pb.h:265 | 220 bytes, exactly |
| PbSizes.StatusAndGpsSizes | Firmware/am/protos/messages.pb.h:266-267 | 223 and 273 bytes, exactly |
| PbSizes.SensorDataSize | Firmware/am/protos/messages.pb.h:268 | 883 bytes, within the declared 993 |
| PbSizes.DeclaredSizesSuffice | Firmware/am/protos/messages.pb.h:264-268 | Every encodable message with valid enumerators stays within its declared size |
| PbFieldIter.LoadInvertsPack | Firmware/am/protos/pb.h:671-706 | For every field that passes the packer's assertions, reading inverts the one-, two- and four-word packers exactly if the one-word field is no array, the two-word tag has no bit 8 and the four-word size offset is below 128 |
| PbFieldIter.PackingLoses | Firmware/am/protos/pb.h:671-706 | A tag of 256 in two words and a size offset of 300 in four pass the assertions and are read back as other values, the latter as 44 |
| PbFieldIter.LoadedAt | Firmware/am/protos/pb_common.c:8-68 | At the prefix sum of the widths the field is read back out of the whole descriptor |
| PbFieldIter.FieldIter.constructor | Firmware/am/protos/pb_common.c:147-155 | Starts at the first field with its values loaded |
| PbFieldIter.FieldIter.LoadDescriptorValues | Firmware/am/protos/pb_common.c:8-68 | Loads the values of the field that the indices point to |
| PbFieldIter.FieldIter.AdvanceIterator | Firmware/am/protos/pb_common.c:109-145 | All three indices move to the prefix sums of the next field, or back to the start |
| PbFieldIter.FieldIter.Next | Firmware/am/protos/pb_common.c:179-184 | The next field, and false on wrapping |
| PbFieldIter.FieldIter.Find | Firmware/am/protos/pb_common.c:186-223 | From any field, within as many steps as there are fields: found exactly if it is there, on the next such field with its prefix sums, else back at the start |
| PbFieldIter.WantedIsIndexOf | Firmware/am/protos/pb_common.c:186-223 | The field that the iterator looks for is the one at the index that the decoder's specification looks up |
| PbFieldIter.LookUp | Firmware/am/protos/pb_decode.c:973-979 | The decoder's search over packed words, from wherever the last one ended, lands on that index, with as many required fields counted before it as the specification counts |

## Left out

- Scheduler internals: priorities decide only where a task stands in an event list; context switches, tick interrupts and task deletion are not modelled.
- Timer callbacks and pended function calls: opaque code that does not touch the timer lists. Commands that a callback sends itself appear as commands sent between two steps of the daemon, not inside a list switch.
- Timers, no-drift theorem: other commands to the same timer are excluded; the epoch invariant and all methods admit them.
- The timer lists of `TimerTask` are sequences; that insertion into and removal from the pointer list are `InsertSorted` and `Without` on its entries is what the methods of `PointerList` ensure.
- TimerTask.TimerTask.ProcessExpiredTimer: the reload that the daemon posts to itself finds room in the timer queue, as the code asserts; so for SwitchTimerLists and FireLate.
- Queue sets, mutex priority inheritance, co-routines, the registry and tracing.
- QueueWakeup.StepCoversReceivers: at most 127 posts of interrupts while the queue is locked, as the width of the lock counter demands.
- StreamBuffer.StreamBuffer.Send: neither blocking for space nor the wake-up of a waiting reader, with its trigger level, because notifications belong to the scheduler.
- StreamBuffer.StreamBuffer.Receive: neither blocking for data nor the wake-up of a waiting writer, for the same reason.
- MessageChannel.Linearizable: the reader's buffer is large enough for every message. With a smaller one the reader rolls its tail back while the writer may run, which is modelled only sequentially in `StreamBuffer.Receive`.
- Event bits are sets of positions, so the width of the word is not modelled beyond the control byte; calls from interrupts go through the timer daemon and are the same operations.
- EventBarrier.ReusableBarrier: without timeouts, as a rendezvous that times out leaves its bit set.
- Handlers of ASP messages: they read fixed payload fields, also beyond a payload that was sent too short; the model hands them the payload as sent.
- AspFrames.Transmitter.Transmit: the fields of status, sensor and other payloads are one byte sequence, and the values in them (clock, voltages, stored records) are parameters.
- nanopb features that are not compiled in or not used by these messages: pointers and allocation, callbacks, extensions, oneof, fixed-count arrays, bytes fields, UTF-8 checks, float conversion. Repeated strings are excluded by `FieldOk`.
- After a failed decode the struct holds part of the message; its contents are not specified. The struct is a value that the methods pass on, so aliasing between members is not modelled.
- PbDecoder.DecodeScalar: signed varints and 64-bit fixed members, as no message has them.
- PbDecoder.SetToDefaults: default value streams, as no message has default values.
- PbDecoder.DecodeMessage: it looks fields up by the specification of the iterator, which `PbFieldIter.LookUp` computes over packed words; the branches for extensions and fixed-count arrays are not modelled, as no message has them.
- PbDecoder.DecodeEx: the mode for zero-terminated messages, which nothing here uses.
- PbEncoder.Encode: sizes fit the 32-bit size_t of the target, which the C code does not check either.
- PbFieldIter.LoadInvertsPack: eight-word descriptors are not modelled, nor the pointers that `load_descriptor_values` computes from the offsets.
- In the 32-bit varint decoder the bit position does not wrap: `uint_fast8_t` is a machine word on this target.
- Boot, image slots, flash, cloud connection, sensor algorithms, logging and device drivers.
