# Verified models of the kernel driver exercises

A Dafny 4.11 project that models the parts of the repository in which something can go wrong in
an interesting way, and proves what those parts do. `dafny verify dfyconfig.toml` checks it all.

## What is modelled

**The USB mass storage drivers.** `BulkOnlyWire` is the byte layout of the two wrappers of *USB
Mass Storage Class Bulk-Only Transport 1.0*. `StorageDriver` is `usbv1.c`: how a SCSI command
goes from `queue_command` through the completion callbacks to `scsi_done`, and what abort, reset
and disconnect do. `ScsiMacros` and `ProbeProtocol` are `usb.c`: the command macros and the
exchange started at probe time.

**The thread protocols.** `Seqlock`, `ReadCount` (the counting threads with and without the
mutex), `RwLock`, `SpinlockInterrupt`, `Completion`, `WaitQueue` and `AtomicBit`. Each thread is
its loop body with a program counter, a step is one access to shared memory (`x++` is a load and
a store wherever the code uses no atomic operation), and a run is any schedule of steps of any
number of threads. `HrTimer` is the periodic re-arming of a high-resolution timer.

**The heap and buffer state of `linked_list.c`.** `LinkedList` and `MessageBuffer`.

Every part has the same shape. A class holds the module's own variables and buffers and updates
them in place; each of its methods is proved to do what a function over values says; the results
are then proved of that function, over all runs. Fields called history in the comments (counts of
completed writes, logs) are never looked at by a step.

## Where the code falls short

- The sequence count of the seqlock has 32 bits. An accepted read is consistent if fewer than
  2^31 writes complete during it, and 2^31 is exact: `Seqlock.GuaranteeIsExact`.
- Unlocked counting threads end at 2 or more only if the counter cannot wrap; the possible final
  counts of any two or more threads are given exactly: `ReadCount.PossibleFinalCounts`.
- `usbv1.c` completes a command at most once, when nothing fails, exactly if it is not a REQUEST
  SENSE with a further stage (line 534 does not return): `StorageDriver.AtMostOnceExactly`. A
  failing data or status stage completes it twice or more (lines 648-653 and 724-729 do not
  return), and so does an abort with a URB in flight: `StorageDriver.CompletionsOfEveryCommand`
  counts the calls over every run. An abort leaves `sec_urb` in flight, which then completes a
  later command twice: `StorageDriver.SecUrbOutlivesAbort`. A callback can find no active command
  and dereference a NULL `active_scmd`, for one because line 745 clears it after `scsi_done` has
  let the next command in: `StorageDriver.CallbacksFindCommandExactly` says when. Data-in commands
  other than INQUIRY and REQUEST SENSE wait for an abort, because the submission at line 561 is
  commented out.
- The 8-bit minimum at `usbv1.c:353` shortens the command block of some commands longer than 255
  bytes: `StorageDriver.SubmittedWrapper` says of which, `StorageDriver.LongCommandIsCut` shows
  one. The SCSI core, whose command array is shorter, passes no such command.
- The status wrapper that `data_callback` fakes carries the tag after the command's:
  `StorageDriver.FakedTagIsNext`.
- A read in the middle of the message buffer returns the message from its start, and a write of
  1024 bytes or more counts one more than can be read: `MessageBuffer.ReadIsAllOrNothing`.
- A disconnect leaves `sec_urb` in flight: `StorageDriver.SecUrbOutlivesDisconnect`.
- `usb.c:651` compares the status wrapper with the signature of the command wrapper, so a valid
  status wrapper is never accepted: `ProbeProtocol.SuccessExactly`.
- The exit flag of the waiting threads is lost exactly if it is stored between the waiter's test
  and its reset: `WaitQueue.ExitReachesWaiterExactly`, `Completion.ExitReachesWaiterExactly`.
- The status URB of `usbv1.c` is bound to `csw_buffer` when it is allocated. The source binds it
  only when it first fills the URB, although `data_callback` relies on it earlier (line 683).

## Model

| member | source | states |
|---|---|---|
| Seqlock.SeqlockModule.constructor | k_seqlock_module-24/seqlock_module.c:178 | a fresh seqlock: count 0, lock free, every word 0 |
| Seqlock.SeqlockModule.WriterStep | k_seqlock_module-24/seqlock_module.c:70-86 | each access of the writer loop does to the shared variables what the step function says |
| Seqlock.SeqlockModule.ReaderStep | k_seqlock_module-24/seqlock_module.c:89-108 | each access of the reader loop does what the step function says |
| Seqlock.CountLaw | k_seqlock_module-24/seqlock_module.c:76-79 | over every schedule the count is twice the completed writes plus one while a writer is inside, at most one thread holds the lock, and with no writer inside every word holds the number of writes |
| Seqlock.AcceptedReadIsConsistent | k_seqlock_module-24/seqlock_module.c:95-102 | a read that left its retry loop saw in every word the writes completed at read_seqbegin, if fewer than 2^31 writes completed meanwhile |
| Seqlock.AcceptedWordsAreRecent | k_seqlock_module-24/seqlock_module.c:95-102 | however many writes pass, every word of an accepted read is of a version between the writes completed at its begin and at its acceptance |
| Seqlock.AcceptedReadsNeverGoBack | k_seqlock_module-24/seqlock_module.c:98-102 | a read that began after another was accepted returns no word of an older version, however many writes pass; until the words wrap at 2^64 no word of it is smaller; with fewer than 2^31 writes in each both are whole versions |
| Seqlock.RetryExactly | k_seqlock_module-24/seqlock_module.c:102 | a reader retries if and only if a writer is inside or the writes since it began are not a multiple of 2^31 |
| Seqlock.ReaderFinishes | k_seqlock_module-24/seqlock_module.c:94-102 | with no writer inside, a reader alone, wherever it stands, has one more accepted read within 2 words + 3 accesses; one begun afresh, as after a changed count, is of the current version |
| Seqlock.HolderFinishes | k_seqlock_module-24/seqlock_module.c:76-79 | from every reachable state the writer that holds the lock completes its write and releases the lock within 2 words + 3 accesses |
| Seqlock.WriterFinishes | k_seqlock_module-24/seqlock_module.c:76-79 | with the lock free a writer alone completes one more write, which every word shows |
| Seqlock.WrappedReadIsAccepted | k_seqlock_module-24/seqlock_module.c:95-102 | a run in which 2^31 writes pass unnoticed and a read from another version is accepted |
| Seqlock.GuaranteeIsExact | k_seqlock_module-24/seqlock_module.c:95-102 | reads during which at most `bound` writes complete are always consistent if and only if `bound` is below 2^31 |
| ReadCount.CountingModule.constructor | k_mutex_module-12/mutex_module.c:19-29 | counter 0, mutex free, every thread at its loop test |
| ReadCount.CountingModule.ThreadStep | k_mutex_module-12/mutex_module.c:55-84 | each statement of the loop, with or without the mutex, does what the step function says |
| ReadCount.MutexCountsEveryIteration | k_mutex_module-12/mutex_module.c:55-84 | under the mutex one thread at a time is inside, the i-th section prints i modulo 2^32, and the final count is the number of iterations modulo 2^32 |
| ReadCount.CanAlwaysFinish | k_mutex_module-12/mutex_module.c:55-84 | with or without the mutex, after any schedule some continuation runs every iteration to its end |
| ReadCount.LockedFinalCount | k_mutex_module-12/mutex_module.c:55-84 | under the mutex a final count is possible if and only if it is the total of iterations modulo 2^32 |
| ReadCount.LastPrintIsFinalCount | k_mutex_module-12/without_mutex_module.c:55-84 | with or without the mutex every iteration prints once, and the last line printed is the final count |
| ReadCount.FinalCountBounds | k_mutex_module-12/without_mutex_module.c:55-84 | for any number of threads: the final count (before wrapping) is at most the iterations run, at least 1, and at least 2 if every thread ran twice |
| ReadCount.RunLosing | k_mutex_module-12/without_mutex_module.c:55-84 | an explicit schedule, for any threads and any dealing of their iterations, in which two threads sleep on their loads and wipe out what ran meanwhile |
| ReadCount.EndsAt | k_mutex_module-12/without_mutex_module.c:55-84 | some schedule of two or more threads ends at any given count from 2 to the total |
| ReadCount.EndsAtOne | k_mutex_module-12/without_mutex_module.c:55-84 | some schedule ends at 1 when a thread runs only once |
| ReadCount.PossibleFinalCounts | k_mutex_module-12/without_mutex_module.c:55-84 | the final counts any two or more unlocked threads can reach are exactly those from 2 (from 1 if a thread runs only once) to the total, modulo 2^32 |
| ReadCount.AtLeastTwoExactly | k_mutex_module-12/without_mutex_module.c:55-84 | two or more unlocked threads always end at 2 or more if and only if each runs at least twice and the counter cannot wrap; 2 is always possible |
| RwLock.RwModule.WriterStep | k_spinlocks_module-15/rwspinlock_module.c:77-97 | each statement of the writer does what the step function says |
| RwLock.RwModule.ReaderStep | k_spinlocks_module-15/rwspinlock_module.c:100-129 | each statement of a reader does what the step function says |
| RwLock.Exclusion | k_spinlocks_module-15/rwspinlock_module.c:83-88 | a writer is never inside together with a reader or another writer, and the lock counts the readers inside |
| RwLock.ReadersOverlap | k_spinlocks_module-15/rwspinlock_module.c:104-107 | in any module, with writers or without, all readers can be inside at once |
| RwLock.PrintsTenTimesWrites | k_spinlocks_module-15/rwspinlock_module.c:85-125 | a printed value is ten times the writes completed at that moment, exactly while that fits an int, and printed values never decrease meanwhile |
| RwLock.EveryThreadGetsIn | k_spinlocks_module-15/rwspinlock_module.c:77-129 | from every reachable state every writer can still get in, add 10 and print, and every reader get in and print, leaving the lock free |
| SpinlockInterrupt.SpinlockModule.ThreadFunctionStep | k_spinlocks_module-15/spinlock_with_interrupts.c:91-120 | each statement of the thread does what the step function says |
| SpinlockInterrupt.SpinlockModule.TimerCallbackStep | k_spinlocks_module-15/spinlock_with_interrupts.c:55-64 | each statement of the callback does what the step function says |
| SpinlockInterrupt.PrintsWhatItAssigned | k_spinlocks_module-15/spinlock_with_interrupts.c:55-114 | one agent at most is inside; a thread always prints 50, a callback 100 |
| SpinlockInterrupt.NoCallbackAboveHolder | k_spinlocks_module-15/spinlock_with_interrupts.c:102-114 | no callback runs on the CPU whose thread holds the lock, and that thread is current there |
| SpinlockInterrupt.HolderReleases | k_spinlocks_module-15/spinlock_with_interrupts.c:102-114 | the holder releases the lock within three statements of its own |
| SpinlockInterrupt.WaiterAcquires | k_spinlocks_module-15/spinlock_with_interrupts.c:55-114 | every waiting agent can get the lock within four events |
| SpinlockInterrupt.FrozenForever | k_spinlocks_module-15/spinlock_with_interrupts.c:58 | among any threads and CPUs: once a callback spins on the CPU of the holding thread it spins for ever and the lock is never released |
| SpinlockInterrupt.DeadlockFreeExactly | k_spinlocks_module-15/spinlock_with_interrupts.c:55-120 | every waiting agent can always still get the lock if and only if the threads use spin_lock_irqsave |
| SpinlockInterrupt.InterruptsOffExactly | k_spinlocks_module-15/spinlock_with_interrupts.c:102-114 | in every reachable state interrupts are off on a CPU if and only if one of its threads is between spin_lock_irqsave and spin_unlock_irqrestore |
| SpinlockInterrupt.BarsWhereItRuns | k_spinlocks_module-15/spinlock_with_interrupts.c:102 | a thread moved to another CPU bars interrupts there and nowhere else |
| SpinlockInterrupt.EveryAgentCanPrint | k_spinlocks_module-15/spinlock_with_interrupts.c:55-120 | from every reachable state, within twelve events, the timer of any CPU can fire, take the lock and print 100, and any thread take the lock and print 50 |
| Completion.CompletionModule.CallStep | k_completion_module-21/completion_module.c:215-221 | each statement of a caller (my_read, or hello_exit at lines 144-148) does what the step function says |
| Completion.CompletionModule.WaitFunctionStep | k_completion_module-21/completion_module.c:51-72 | each statement of the waiter does what the step function says |
| Completion.CountNeverExceedsCallers | k_completion_module-21/completion_module.c:217-221 | the completion count plus the callers between test and complete never exceeds the number of callers; the waiter returns only after exit set the flag to 2 |
| Completion.CountReachesExactly | k_completion_module-21/completion_module.c:217-221 | the number of callers is the least bound of the count |
| Completion.CompletionsConservedExactly | k_completion_module-21/completion_module.c:57-221 | waits passed plus the count are the completes issued, over every run, if and only if the callers are too few to saturate the count |
| Completion.ConsumesEveryCompletion | k_completion_module-21/completion_module.c:51-66 | as long as no exit was stored, the waiter run alone consumes every completion issued |
| Completion.LeavesOnExit | k_completion_module-21/completion_module.c:57-63 | a waiter that finds the exit takes one completion, clears the flag and returns |
| Completion.ReadIssuesExactly | k_completion_module-21/completion_module.c:215-221 | a call of my_read issues a completion if and only if it finds none |
| Completion.ExitReachesWaiterExactly | k_completion_module-21/completion_module.c:142-148 | however the statements of hello_exit and of the waiter interleave, the waiter then returns if and only if the store of 2 did not fall between its test and reset of the flag |
| WaitQueue.WaitModule.ReadStore | k_wait_queues-10/wait_queue_module.c:204-205 | my_read sets the flag to 1 |
| WaitQueue.WaitModule.ExitStore | k_wait_queues-10/wait_queue_module.c:138-139 | hello_exit sets the flag to 2 |
| WaitQueue.WaitModule.WaitFunctionStep | k_wait_queues-10/wait_queue_module.c:48-66 | each statement of the waiter does what the step function says |
| WaitQueue.CountsEveryGroup | k_wait_queues-10/wait_queue_module.c:53-60 | the waiter has counted every group of coalesced stores except at most the pending one, never more than the stores, and returns only after exit stored 2 |
| WaitQueue.WakesForRead | k_wait_queues-10/wait_queue_module.c:53-60 | a sleeping waiter whose flag a reader has set counts once, clears the flag and sleeps again |
| WaitQueue.CatchesUp | k_wait_queues-10/wait_queue_module.c:48-66 | from every reachable state without an exit store the waiter has counted every group of stores within four statements |
| WaitQueue.ExitReachesWaiterExactly | k_wait_queues-10/wait_queue_module.c:136-139 | after an exit store the waiter, run on alone for however long, returns if and only if the store did not fall between its test and its reset |
| AtomicBit.AtomicModule.TestAndChangeBit | k_atomic_variables-23/atomic_variable.c:45 | flips bit 1 and returns its old value |
| AtomicBit.AtomicModule.ThreadStep | k_atomic_variables-23/atomic_variable.c:38-68 | each operation of a thread does what the step function says |
| AtomicBit.ParityOfToggles | k_atomic_variables-23/atomic_variable.c:44-63 | increments minus toggles are the threads in between; bit_check is 0 or 2, twice the parity of the toggles; the i-th toggle returns the parity of the ones before it |
| AtomicBit.EveryOperationCounts | k_atomic_variables-23/atomic_variable.c:38-68 | the schedule, by how often it names each thread, fixes both variables: no operation waits or is lost |
| HrTimer.HrTimerModule.constructor | k_timer_module-20/hrtimer_module.c:123-133 | the first expiry is one interval after loading |
| HrTimer.HrTimerModule.HrtimerForwardNow | k_timer_module-20/hrtimer_module.c:58 | the expiry moves by the returned number of whole intervals, past the current time; by none exactly if it is later already |
| HrTimer.HrTimerModule.TimerCallback | k_timer_module-20/hrtimer_module.c:48-62 | counts, prints the distance to the target, and re-arms |
| HrTimer.LatenessNeverAccumulates | k_timer_module-20/hrtimer_module.c:58 | however late callbacks run, each expiry is the least grid point after the callback's current time, and depends on that time and the first expiry alone |
| MessageBuffer.MessageDevice.CopyFromUser | k_linked_list-17/linked_list.c:284 | a copy that may stop part-way |
| MessageBuffer.MessageDevice.MyWrite | k_linked_list-17/linked_list.c:273-293 | the buffer and result of a write, faults included; the last byte stays NUL |
| MessageBuffer.MessageDevice.StringLength | k_linked_list-17/linked_list.c:321 | the first NUL, always inside the buffer |
| MessageBuffer.MessageDevice.MyRead | k_linked_list-17/linked_list.c:319-365 | the bytes, offset and result of a read; the buffer is unchanged |
| MessageBuffer.DrainAfterWrite | k_linked_list-17/linked_list.c:273-365 | a successful write counts min(len, 1024); reading from 0 then returns the first min(len, 1023) bytes cut at the first NUL and then 0, whatever the buffer held before |
| MessageBuffer.WriteByteByByte | k_linked_list-17/linked_list.c:277-293 | every byte of the buffer after a write, whole or faulted |
| MessageBuffer.ReadIsAllOrNothing | k_linked_list-17/linked_list.c:321-365 | a read at any offset hands out the whole message from its start or nothing, with the result and offset that go with it |
| MessageBuffer.ReadAfterFault | k_linked_list-17/linked_list.c:284-287 | what a faulted write leaves to be read |
| MessageBuffer.AlwaysTerminated | k_linked_list-17/linked_list.c:284-293 | after any calls, faults included, the last byte is NUL |
| MessageBuffer.LastWriteWins | k_linked_list-17/linked_list.c:273-365 | after any calls, a write and any reads, the message is the one written |
| LinkedList.DeviceList.constructor | k_linked_list-17/linked_list.c:19 | an empty, self-linked list |
| LinkedList.DeviceList.Append | k_linked_list-17/linked_list.c:295-306 | the cycle stays well formed, the new node comes last with the next number, the others are untouched; without memory nothing changes |
| LinkedList.DeviceList.AddTail | k_linked_list-17/linked_list.c:305-306 | links a node before the head |
| LinkedList.DeviceList.Traverse | k_linked_list-17/linked_list.c:330-338 | terminates, visits every node once in order, reads no freed node, and so sees 1, 2, 3, ... |
| LinkedList.DeviceList.DeleteFirst | k_linked_list-17/linked_list.c:247 | unlinks and poisons a node; the rest stays well formed |
| LinkedList.DeviceList.Free | k_linked_list-17/linked_list.c:248 | frees an unlinked node that has not been freed |
| LinkedList.DeviceList.DeleteAll | k_linked_list-17/linked_list.c:244-249 | frees every node exactly once in order, reads no freed node, leaves the head self-linked |
| LinkedList.ListModule.MyWrite | k_linked_list-17/linked_list.c:273-313 | the order of the failures: a fault adds no node, missing memory comes after the message was replaced |
| LinkedList.ListModule.MyRead | k_linked_list-17/linked_list.c:319-367 | prints 1 to n, if there is something to read, and hands out the message |
| BulkOnlyWire.CbwRoundTrip | k_usb_module-26/usbv1.c:30-38 | decoding an encoded command wrapper returns it (31 bytes, section 5.1) |
| BulkOnlyWire.CbwOnto | k_usb_module-26/usbv1.c:30-38 | encoding a decoded command buffer returns the same bytes |
| BulkOnlyWire.CswRoundTrip | k_usb_module-26/usbv1.c:41-46 | decoding an encoded status wrapper returns it (13 bytes, section 5.2) |
| BulkOnlyWire.CswOnto | k_usb_module-26/usbv1.c:41-46 | encoding a decoded status buffer returns the same bytes |
| BulkOnlyWire.CbwLayout | k_usb_module-26/usbv1.c:30-38 | the byte positions and the byte order of section 5.1; the signature is the letters USBC |
| BulkOnlyWire.CswLayout | k_usb_module-26/usbv1.c:41-46 | the byte positions and the byte order of section 5.2; the signature is the letters USBS |
| BulkOnlyWire.Memcpy | k_usb_module-26/usbv1.c:366 | the target begins with the source, the rest is kept |
| StorageDriver.UsbStorage.constructor | k_usb_module-26/usbv1.c:191-206 | the state after a successful probe |
| StorageDriver.UsbStorage.Wrap | k_usb_module-26/usbv1.c:347-353 | the wrapper of a command, with the next tag |
| StorageDriver.UsbStorage.SendCbw | k_usb_module-26/usbv1.c:363-417 | the URB submitted is bound to the buffer just filled |
| StorageDriver.UsbStorage.QueueCommandHandler | k_usb_module-26/usbv1.c:312-424 | queue_command, with its failures, does what the specification says |
| StorageDriver.UsbStorage.CbwCallbackHandler | k_usb_module-26/usbv1.c:430-544 | cbw_callback does what the specification says |
| StorageDriver.UsbStorage.SubmitNextStage | k_usb_module-26/usbv1.c:550-621 | the end of cbw_callback does what the specification says |
| StorageDriver.UsbStorage.DataCallbackHandler | k_usb_module-26/usbv1.c:628-686 | data_callback with its faked status wrapper does what the specification says |
| StorageDriver.UsbStorage.CswCallbackHandler | k_usb_module-26/usbv1.c:712-750 | csw_callback does what the specification says |
| StorageDriver.UsbStorage.CompleteUrb | k_usb_module-26/usbv1.c:379-382 | a completed URB leaves the bus and its callback runs |
| StorageDriver.UsbStorage.EhAbort | k_usb_module-26/usbv1.c:754-799 | abort kills three of the four URBs, whose callbacks run, and completes the command |
| StorageDriver.UsbStorage.EhReset | k_usb_module-26/usbv1.c:835-885 | a successful reset clears the tag and the active command |
| StorageDriver.UsbStorage.UsbDisconnect | k_usb_module-26/usbv1.c:278-305 | disconnect kills the same URBs and drops the resources |
| StorageDriver.SubmittedWrapper | k_usb_module-26/usbv1.c:347-417 | what is on the wire: tag, length, direction bit, the command bytes padded with zeros; exactly when the block is min(cmd_len, 16) bytes |
| StorageDriver.LongCommandIsCut | k_usb_module-26/usbv1.c:353-366 | a command of length 257 is sent with one command byte |
| StorageDriver.QueueOnWire | k_usb_module-26/usbv1.c:347-417 | a wrapper that was built, submitted or refused, takes a tag and lies in the buffer whose turn it is; without memory tag and buffers stay |
| StorageDriver.TagsOnTheWire | k_usb_module-26/usbv1.c:349-417 | over every run, whatever the SCSI layer does, the wrappers submitted carry the tags that count the wrappers built since probe (from 1) or the last successful reset (from 0), modulo 2^32; with no reset between, two tags are equal if and only if a multiple of 2^32 wrappers separates them |
| StorageDriver.QueueIsOnTheWire | k_usb_module-26/usbv1.c:395-417 | an accepted queue adds one wrapper to those submitted |
| StorageDriver.FakedTagIsNext | k_usb_module-26/usbv1.c:672-683 | the faked status wrapper carries the tag after that of its command, residue 0 and status 0 |
| StorageDriver.BadWrapperIsDropped | k_usb_module-26/usbv1.c:473-477 | a completed wrapper with a bad signature changes nothing but leaving the bus |
| StorageDriver.CountSetExactly | k_usb_module-26/usbv1.c:550-575 | count becomes 1 exactly when the wrapper of a data-in command other than INQUIRY completes well |
| StorageDriver.CbwStage | k_usb_module-26/usbv1.c:430-622 | the completions and the next URB of a command wrapper, for every status and opcode |
| StorageDriver.DataStage | k_usb_module-26/usbv1.c:628-686 | one completion, preceded by another if the data stage failed |
| StorageDriver.CswStage | k_usb_module-26/usbv1.c:712-750 | the result is DID_OK exactly when the signature is right |
| StorageDriver.LoneCalls | k_usb_module-26/usbv1.c:312-750 | the exact list of scsi_done calls of one command, for every outcome |
| StorageDriver.LoneCompletions | k_usb_module-26/usbv1.c:312-750 | a command is never completed, or twice and more, exactly under the named conditions |
| StorageDriver.AtMostOnceExactly | k_usb_module-26/usbv1.c:312-750 | when nothing fails, a command is completed at most once if and only if it is not a REQUEST SENSE with a further stage, and never if and only if it has no completing path |
| StorageDriver.SenseCompletedTwice | k_usb_module-26/usbv1.c:528-609 | a six-byte REQUEST SENSE without a buffer is completed twice, by these two calls |
| StorageDriver.AbortCompletions | k_usb_module-26/usbv1.c:780-796 | an abort completes its command once if and only if it finds no URB in flight but sec_urb, and otherwise two or three times |
| StorageDriver.TwoInFlightExactly | k_usb_module-26/usbv1.c:528-609 | a command is completed while a URB of its own is in flight, so that the next one puts a second URB there, if and only if it is a REQUEST SENSE with a further stage |
| StorageDriver.SecUrbOutlivesAbort | k_usb_module-26/usbv1.c:780-796 | an abort leaves sec_urb in flight, and the command queued next is completed twice |
| StorageDriver.HalvesMakeWhole | k_usb_module-26/usbv1.c:430-750 | a callback is its part up to the first scsi_done followed by the rest, for every URB, status and opcode |
| StorageDriver.OvertakenExactly | k_usb_module-26/usbv1.c:627-750 | a command queued at the first scsi_done of a data or status callback is erased from active_scmd with its wrapper in flight, unless the status wrapper has a bad signature; the calls of scsi_done, of which a second one can be for that command |
| StorageDriver.OvertakenSense | k_usb_module-26/usbv1.c:528-609 | a command queued at line 534 gets a second URB submitted for it if and only if it has a further stage |
| StorageDriver.CompletionsOfEveryCommand | k_usb_module-26/usbv1.c:312-885 | over every run of safe commands with any failures, successful resets of an idle bus, failed resets, aborts that do not meet sec_urb, and callbacks that return before the next command is queued: at most one URB in flight, whose command is the outstanding and active one; every settled command completed one to three times, and once if and only if neither its last stage failed nor an abort met it in flight; outstanding ones not at all; and only the named ones wait for an abort |
| StorageDriver.EveryCommandOnce | k_usb_module-26/usbv1.c:312-750 | over every run of safe commands, each queued after the callbacks of the last have returned, without URB error or abort no command is completed twice, and once the bus is idle all are completed exactly once but the named ones |
| StorageDriver.CallbacksFindCommandExactly | k_usb_module-26/usbv1.c:430-885 | in every run every callback finds an active command, so that no callback dereferences a NULL active_scmd, if and only if no REQUEST SENSE with a further stage is queued, only an idle bus is reset with success, no abort meets sec_urb, and no command is queued at the scsi_done of a callback that is still running |
| StorageDriver.NothingAfterDisconnect | k_usb_module-26/usbv1.c:278-359 | after a disconnect no command is taken and only sec_urb can be left |
| StorageDriver.DisconnectAfterAnyRun | k_usb_module-26/usbv1.c:278-305 | after any run a disconnect leaves no URB if and only if sec_urb was not in flight, completes the outstanding command as often as the killed URB's callback does and no other, and lets no command in |
| StorageDriver.SecUrbOutlivesDisconnect | k_usb_module-26/usbv1.c:278-305 | after some run of the same kind a disconnect leaves sec_urb in flight |
| ScsiMacros.CommandBlockWrapper.ScsiTestUnitReady | k_usb_module-26/usb.c:28-37 | the filled wrapper |
| ScsiMacros.CommandBlockWrapper.ScsiRequestSense | k_usb_module-26/usb.c:39-49 | the filled wrapper |
| ScsiMacros.CommandBlockWrapper.ScsiInquiry | k_usb_module-26/usb.c:51-65 | the filled wrapper |
| ScsiMacros.CommandBlockWrapper.ScsiReadCapacity10 | k_usb_module-26/usb.c:67-76 | the filled wrapper |
| ScsiMacros.CommandBlockWrapper.ScsiRead10 | k_usb_module-26/usb.c:78-93 | the filled wrapper |
| ScsiMacros.CommandBlockWrapper.ScsiWrite10 | k_usb_module-26/usb.c:95-110 | the filled wrapper |
| ScsiMacros.BlockRecombines | k_usb_module-26/usb.c:87-109 | at the code's own positions the address comes back if and only if it is below 2^32, the count if and only if it is below 2^16 |
| ScsiMacros.MacroIsWellFormed | k_usb_module-26/usb.c:28-110 | every macro makes a wrapper with signature, tag, the block length its opcode group calls for, zeros behind it, the direction bit of its command, and the allocation length in byte 4, exact below 256 |
| ScsiMacros.BlocksAreAnnounced | k_usb_module-26/usb.c:78-110 | the announced length is the bytes of the blocks if and only if that fits 32 bits |
| ProbeProtocol.ScanEndpoints | k_usb_module-26/usb.c:249-270 | the last bulk endpoint of either direction; goes on if and only if one of the two addresses is not 0 |
| ProbeProtocol.ProbeDevice.InitUsbProtocols | k_usb_module-26/usb.c:297-339 | sends an INQUIRY for 36 bytes |
| ProbeProtocol.ProbeDevice.CbwCallbackHandler | k_usb_module-26/usb.c:366-571 | cbw_callback does what the specification says |
| ProbeProtocol.ProbeDevice.DataCallbackHandler | k_usb_module-26/usb.c:576-621 | data_callback does what the specification says |
| ProbeProtocol.ProbeDevice.CswCallbackHandler | k_usb_module-26/usb.c:626-667 | csw_callback does what the specification says |
| ProbeProtocol.ProbeDevice.CompleteUrb | k_usb_module-26/usb.c:366-667 | a completed URB runs its callback |
| ProbeProtocol.StagesInOrder | k_usb_module-26/usb.c:366-621 | over any command bytes and statuses, each URB is submitted only after all earlier stages of its opcode completed without error |
| ProbeProtocol.OneInFlight | k_usb_module-26/usb.c:320-602 | at most three URBs are submitted; submissions and completions alternate, each completion that of the URB submitted before it; the URB in flight is the last submitted |
| ProbeProtocol.RankDecreases | k_usb_module-26/usb.c:366-667 | every completion brings the exchange nearer its end |
| ProbeProtocol.SuccessMeansTagMatches | k_usb_module-26/usb.c:649-663 | success is reported only when the status wrapper has the tag of the completed command wrapper and every stage succeeded |
| ProbeProtocol.SuccessExactly | k_usb_module-26/usb.c:638-663 | when every stage succeeds, with whatever bytes, success is reported if and only if the tag and the (command) signature of the last wrapper match, so never for a valid status wrapper |
| ProbeProtocol.RefusalEnds | k_usb_module-26/usb.c:409-608 | a refused submission ends the exchange without success; a refused data URB, and nothing else, is freed |
| ProbeProtocol.FailureEnds | k_usb_module-26/usb.c:366-667 | a failed stage, a wrapper without the signature and an unknown opcode end the exchange without success |
| ProbeProtocol.PipeMatchesFlags | k_usb_module-26/usb.c:409-551 | for every macro the pipe of the data stage agrees with the direction bit, and the URB is the one of its command |
| ProbeProtocol.LengthMatchesExactly | k_usb_module-26/usb.c:409-551 | the hard-coded length is the announced one exactly for the named parameters |

## Left out

- Module registration, device, class, sysfs and procfs node creation, printing and sleeping: no state worth a proof.
- The work queue modules, the tasklet and kthread demos, GPIO, ioctl, signals, parameters, memory allocators: a flag or a counter each, with no protocol between threads.
- `temp_watch.c` and the earlier copies of the USB and spin lock files: near duplicates or unfinished.
- Allocation failures and the clean-up ladders of the USB files: several labels release only part of what was taken.
- The internals of the kernel primitives: each is one small step rule; a woken waiter tests its condition again.
- Weaker memory orders than sequential consistency, preemption inside a primitive, and priorities.
- Signals that end wait_event_interruptible early: a kernel thread receives none by default.
- The payload of INQUIRY, REQUEST SENSE and the data stages, DMA addresses, residues, the scatter-gather pointers of usbv1.c:437 (which a command without a buffer does not have) and the capacity of the transfer buffers.
- Clearing endpoint halts and the mutex of usb_pre_reset and usb_post_reset: they change no modelled state.
- Concurrent calls of my_write, my_read and hello_exit of `linked_list.c`, which share the list and the buffer without a lock.
- The length argument of my_read, which the code ignores, and partial copies to user space, which it reports as a fault.
- StorageDriver.CompletionsOfEveryCommand: leaves out a REQUEST SENSE with a further stage, a successful reset with a URB in flight, an abort that meets sec_urb in flight and a command queued while a callback is still running; CallbacksFindCommandExactly shows that after each of them a callback can dereference NULL, where the counts end.
- StorageDriver.CallbacksFindCommandExactly: a callback is one event, or two with the next command queued at its first scsi_done; two callbacks at once and commands let in at later points of a callback are not modelled, nor commands queued while an abort kills URBs, when the SCSI layer holds the host.
- StorageDriver.UsbStorage.CompleteUrb: requires an active command, as the callbacks do (usbv1.c:436, 632, 743); what follows a NULL dereference is not modelled.
- StorageDriver.EveryCommandOnce: assumes, as all runs do, that the SCSI layer does not queue a command again; queue_command returns -ENOMEM after it has completed a refused command (usbv1.c:403-404), which asks for just that.
- HrTimer.LatenessNeverAccumulates: times are unbounded integers, because ktime_t saturates only after 292 years.
- ReadCount.PossibleFinalCounts: is about two threads or more, each running at least once; a single thread loses nothing, and FinalCountBounds covers any number.
- ScsiMacros.BlockRecombines: keeps the macros' own byte positions, which differ from those of the SCSI command by one.
