# Verified model of the STM32 peripheral tester

The repository holds a Linux server that sends test commands over UDP and records the answers
(`STM32_Server`), and the STM32F7 firmware that runs the tests (`STM32PeripheralTester`). This project
models their hardest logic in Dafny and proves what it keeps. `dafny verify dfyconfig.toml` checks
everything. Nothing here runs the original programs.

## What is modelled

**The response pipeline of the server** (`ResponseQueue`, `CommandGenerator`, `ResultTable`, `ServerThreads`,
`Pipeline`, `PipelineSafety`, `PipelineShutdown`, `PipelineTraces`, `PipelineTable`, `PipelineScenarios`,
`Subsequences`).
The ring, the generator and the results table are classes, proved against functions on values;
`ServerThreads` has the threads' loop bodies on these classes for rounds that nothing disturbs. For all
interleavings, the three threads (main, UDP receiver, response writer) are one step machine over the same
functions. A step is one access to shared state: a flag, a lock or unlock, one ring operation under the
mutex, one signal, one SQL statement. `pthread_cond_wait` releases the mutex and falls asleep in one step, and may wake up for no
reason. Received responses, send results, refused SQL statements and the user's signal are arbitrary.
Theorems are about every reachable state, or every run, of this machine:
records are conserved in order; no wake-up is lost; the last join ends within six steps; from every
reachable state the program can still end, except exactly from one hang; the commands that are inserted are
those whose sending succeeded, and the responses that are accepted those that were received, each short of
what SQLite or a full ring refused; the final table is the replay of the statements that ran. Three natural claims are false, and `PipelineScenarios` has a run against each:
the writer can leave records in the ring, the order used when the receiver cannot be started can hang,
and a response that overtakes the insert of its own row is lost. For the first two the exact condition is
proved (`DrainedExactlyWhen`, `CanEndUnlessDoomed`); for the third it is the meaning of a row
(`RowOfFirstInsert`).

**The Ethernet glue of the firmware** (`Pbufs`, `RxChain`, `RxPool`, `RxOwnership`, `RxDelivery`,
`RxProtocol`, `RxScenarios`, `TxRing`, `TxSound`, `TxOrder`, `TxRuns`, `TxDriver`, `TxPath`, `LinkState`).
Linking received buffers works on heap-allocated pbufs with their `next`, `len` and 16-bit `tot_len`.
Transmitting lists a chain in an array, counts references, and offers the packet to a driver with its ring of
four descriptors (`TxDriver.EthHandle`), again and again, whatever the DMA has finished in the meantime and
whether or not the driver is started. The DMA finishes descriptors, not packets, one at a time and in order.
The buffer pool and the link state are step machines, because what matters there is how threads
interleave. `LinkState.Interface` has the two tasks as methods too, and `RxOwnership.Glue` the freeing callback,
each proved to be an undisturbed run of its machine. Findings:

- If the allocate callback is not atomic, reception can die for good with nine of the twelve buffers idle
  in the pool (`RxScenarios.ReceptionCanDie`). The link thread runs this callback when it restarts the
  driver, and its priority is below that of the threads that free buffers. The one step that breaks the
  protocol, and exactly when it does, is in `RxProtocol.StaleErrorExactly`.
- Even if it is atomic, a freed buffer can lie idle while a descriptor has none: the driver is busy while it
  is restarted, `HAL_ETH_ReadData` then fails, and the signal of the freeing thread comes to nothing
  (`RxScenarios.BufferCanLieIdle`). At rest with a descriptor missing, the status reads good exactly when a
  signal was lost in this way, and without that every buffer is taken (`RxProtocol.MissingAtRest`). Freeing
  more buffers does not help then, and the next receive interrupt does (`RxProtocol.NextFreeIsWasted`,
  `RxProtocol.NextInterruptRefills`).
- The driver's busy bit is set and never cleared, so after the first busy answer `low_level_output` retries
  for ever while the driver is stopped, and never returns the interface error again
  (`TxPath.ErrorOnlyAtOnce`, `TxPath.StoppedIsRetriedForever`).
- The driver does not release packets oldest first. It stores a packet's address at its last descriptor only,
  so that a new packet can take the first ones while the old packet is still held, and a release walks the
  descriptors by index: packets of 3, 2 and 1 buffers lead to a release of the second before the first
  (`TxRuns.NewerCanLeaveFirst`). Accepting a packet keeps the order exactly if its last descriptor lies
  beyond all held packets as seen from releaseIndex (`TxOrder.OrderIsKeptExactly`). Packets of one buffer
  always leave in order (`TxRuns.SinglesLeaveInOrder`).
- For the same reason `BuffersInUse` drifts: with nothing held it can read any multiple of 3
  (`TxRuns.CounterDrifts`). Everything a release must find is found exactly as long as this 32-bit counter
  covers it (`TxSound.TakenIsSoundExactly`). After enough packets it can come round to 0 while all four
  descriptors hold finished packets, and then nothing is sent or released any more
  (`TxRuns.TransmissionCanDie`, `TxRuns.DeadForever`).
- A board that comes up without a link keeps its interface up until the first link
  (`LinkState.UpWithoutLink`), and a link whose negotiation is not done is taken with the mode of an
  earlier one (`LinkState.UnresolvedLinkIsTakenWithOldMode`), because `linkchanged` is never cleared.
- After a fatal bus error nothing that either task does starts the driver again, exactly if the error did not
  strike while `HAL_ETH_Start_IT` or `HAL_ETH_Stop_IT` was between its check of `gState` and its last write of
  it. That write overwrites the error, and the driver goes on as if there had been none
  (`LinkState.BusErrorIsFinalExactly`, `LinkState.OverwrittenErrorIsForgotten`).

**CRC-based comparison** (`Words`, `Gf2`, `Crc`, `DataCompare`, `TwoBitErrors`, `CrcCheck`).
The CRC is written bit by bit over 32-bit words and proved to be a remainder of polynomials over GF(2), for
every start value and every generator of degree 32 with constant term 1. The configured one is the CRC-32
generator of section 3.2.9 of IEEE Std 802.3, unreflected, with start value 0xFFFFFFFF and byte input.
What buffers over 100 bytes compare equal is then divisibility, errors within 32 consecutive bits are
always found, and 33 bits is where that ends. Two wrong bits are found wherever they are in 255 bytes, because the
powers of x modulo the generator do not come back to 1 within 2048 steps.

**Register code in the CMSIS headers** (`MpuLoader`, `MemAttributes`, `Lanes`, `NvicPriority`,
`PriorityCodec`, `BitLoops`).
The chunked Armv8-M region loader works on registers with alias pairs, whose meaning is that of the
MPU_RBAR_A<n> and MPU_RLAR_A<n> descriptions in the Armv8-M Architecture Reference Manual, for every
power-of-two alias count up to the 256 regions. Word-packed and byte-wide interrupt priorities are proved
against one view, the priority codec and the software bit-reverse and count-leading-zeros loops against what
they mean on fields and bits.
`Arithmetic` and `Basics` are shared helpers.

Where comments in the source and its code differ, the model follows the code:
`response_queue_pop` says that it ends when shutdown is requested, and it first delivers what is queued;
`ethernetif.c` says that the unblocked input task calls a function `HAL_ETH_GetRxDataBuffer`, and it calls
`HAL_ETH_ReadData`.

## Model

| member | source | states |
|---|---|---|
| PipelineSafety.NothingIsLost | STM32_Server/response_writer.c:31-45 | In every interleaving the accepted records are, in order, the processed ones, the one in the writer's hand, and the ring's contents; processing follows a prefix of arrival order |
| PipelineSafety.LeftInTheRing | STM32_Server/main.c:137-150 | When the program ends, the accepted records that nobody processed are exactly what the ring still holds |
| PipelineSafety.SleepingMeansIdle | STM32_Server/response_queue.c:108-114 | No lost wake-up: a sleeping writer faces an empty, open queue, unless the thread that changed it still holds the mutex and is about to signal |
| PipelineSafety.MutualExclusion | STM32_Server/response_queue.c:68-87 | No two of the three threads are between lock and unlock of the queue's mutex at once |
| PipelineSafety.InvariantKept | STM32_Server/main.c:84-150 | Every step of every thread keeps lock ownership, conservation, the sleeping writer's condition, and the link between main's progress, the flags and the threads |
| PipelineSafety.ReachableInvariant | STM32_Server/main.c:72-150 | The invariant holds in every reachable state of the three threads |
| PipelineSafety.ThreadsRunUntilCleared | STM32_Server/udp_client.c:51 | Neither thread leaves its loop while its flag is set, and during the main loop both flags are set and the queue is open |
| PipelineShutdown.LastJoinStep | STM32_Server/response_writer.c:82-89 | After the normal shutdown every thread step lowers the number of remaining steps and changes neither what was accepted nor what the ring will hold at the end |
| PipelineShutdown.SomeoneMoves | STM32_Server/main.c:143-150 | While main waits in the last join, some thread can move |
| PipelineShutdown.JoinCompletes | STM32_Server/main.c:143-150 | In the normal order the threads take at most six more steps after the flag is cleared, whatever the scheduler does, and then the join is over |
| PipelineShutdown.DrainedExactlyWhen | STM32_Server/response_writer.c:31-36 | All accepted records are processed at the end if and only if, when the flag was cleared, the ring held at most the one record that the writer was already committed to pop |
| PipelineShutdown.DoomedForever | STM32_Server/main.c:85-95 | Once the failure order has cleared the flag, or is about to, with the writer already inside a pop, no run of any steps ends the program |
| PipelineShutdown.CanEndUnlessDoomed | STM32_Server/main.c:72-150 | From a reachable state some run ends the program if and only if the state is not the hang of the failure order |
| PipelineShutdown.NormalOrderCanEnd | STM32_Server/main.c:104-150 | With all threads started no reachable state is stuck: some run ends the program |
| PipelineShutdown.FailureOrderCanEnd | STM32_Server/main.c:85-95 | The failure order can end if and only if the writer had not entered a pop when main cleared its flag |
| PipelineShutdown.ReceiverWindsDown | STM32_Server/udp_client.c:51-86 | Once its flag is cleared, the receiver's own steps bring it closer to its exit and no other step takes it away |
| PipelineShutdown.ReceiverWaitsOnlyForWriter | STM32_Server/udp_client.c:133-142 | In the first join the receiver can move, unless it waits for a mutex that the writer holds |
| PipelineShutdown.WriterLetsGo | STM32_Server/response_queue.c:108-134 | In the first join a writer that holds the mutex can move, gives it back within two of its own steps, and no other thread's step delays it |
| PipelineTable.TableIsReplay | STM32_Server/main.c:111-117 | In every interleaving the table is the replay of the SQL statements that ran, and the responses among them are a subsequence of the processed ones, as many short as SQLite refused |
| PipelineTable.NoInsertIsRejected | STM32_Server/result_database.c:15-25 | Over the first 2^32 commands no interleaving inserts an id twice, so the unique key rejects nothing |
| PipelineTable.StatusOfTest | STM32_Server/main.c:111-113 | Over the first 2^32 commands each inserted test has its own row, with its own peripheral; it is PENDING, PASSED or FAILED if and only if no response with its id was written after its insert, or the last one has the result 1, or another |
| PipelineTable.AnswerOfTest | STM32_Server/result_database.c:150-194 | Over the first 2^32 commands the row of an answered test has its own command's fields and the time and result of the last response with its id written after its insert, PASSED for the result 1 and FAILED for any other |
| PipelineTable.SummaryOfRun | STM32_Server/result_database.c:276-318 | In any run of at most 2^32 commands the passed, failed and pending counts are the numbers of inserted tests whose last later response has the result 1, has another, or does not exist; together they are all inserts |
| PipelineTable.GeneratorStepsAreAllowed | STM32_Server/main.c:105-111 | The machine's build step allows every command that the generator can build and advances as the generator does |
| PipelineTraces.InsertedAreTheSent | STM32_Server/main.c:105-121 | In every run the inserted commands are, whole and in order, those whose sending succeeded, short of as many as SQLite refused; the last one may still await its insert |
| PipelineTraces.AcceptedAreTheReceived | STM32_Server/udp_client.c:51-86 | In every run the accepted responses are, whole and in order, the received ones, short of as many as found 128 records in the ring; the last one may not be pushed yet |
| PipelineTraces.CommandRoundAlone | STM32_Server/main.c:105-121 | The machine has the undisturbed round of the main loop: a command that was sent is inserted, and one that was not leaves no trace |
| PipelineTraces.ReceiverRoundAlone | STM32_Server/udp_client.c:51-86 | The machine has the undisturbed round of the receiver: a response goes to the end of the ring unless that holds 128 records |
| PipelineTraces.IdleReceiverRound | STM32_Server/udp_client.c:73-83 | A round without a whole response leaves everything as it is, and the receiver at its flag test |
| PipelineTraces.WriterRoundAlone | STM32_Server/response_writer.c:31-45 | The machine has the undisturbed round of the writer: the oldest record is taken and its update written |
| PipelineTraces.SpuriousRound | STM32_Server/response_queue.c:110-114 | A writer that wakes up for no reason while the queue is empty and open sleeps again, and everything is as before |
| PipelineScenarios.RingCanBeLeftFull | STM32_Server/response_writer.c:31 | For every sequence of up to 128 responses there is a normal run that ends with exactly these accepted and unprocessed |
| PipelineScenarios.FailureOrderCanHang | STM32_Server/main.c:85-95 | The hang of the failure order is reachable, and nothing leads out of it |
| PipelineScenarios.EarlyResponseIsLost | STM32_Server/main.c:111-113 | A run without any failing statement, whose command was sent, in which a response processed before its row was inserted leaves the row PENDING at the end |
| ServerThreads.ReceiverRound | STM32_Server/udp_client.c:51-86 | A whole response goes to the end of the ring, and into a ring of 128 records it does not go and changes nothing; anything else changes nothing |
| ServerThreads.CommandRound | STM32_Server/main.c:105-127 | A round of the main loop builds the next command, inserts it exactly if it was sent, and draws a delay of 1 to 5 seconds from the same random numbers |
| ServerThreads.WriterRound | STM32_Server/response_writer.c:31-45 | A round of the writer takes the oldest record and writes its update, or learns that it must wait or is finished |
| ServerThreads.WriterLeftAlone | STM32_Server/response_writer.c:31-45 | Left alone, the writer writes the updates of all queued records in arrival order before it sleeps or is told to finish |
| ResponseQueue.Queue.constructor | STM32_Server/response_queue.c:29-36 | An initialised queue is empty and open |
| ResponseQueue.Queue.Push | STM32_Server/response_queue.c:61-90 | Push succeeds exactly when the record is given and the ring has fewer than 128, shut down or not, and then appends it; otherwise nothing changes |
| ResponseQueue.Queue.Pop | STM32_Server/response_queue.c:101-136 | One pass under the mutex waits exactly when the queue is empty and open, fails exactly when it is empty and shut down, and otherwise removes and returns the oldest record and no other |
| ResponseQueue.Queue.Shutdown | STM32_Server/response_queue.c:143-152 | Shutdown closes the queue and keeps its records |
| ResponseQueue.StoringAppends | STM32_Server/response_queue.c:76-84 | Writing the slot at head + count modulo 128 appends to the sequence the ring stands for |
| ResponseQueue.FifoLaws | STM32_Server/response_queue.c:61-136 | What push and pop mean by the records alone, for fewer and for 128 records, and for an empty queue open or closed |
| ResponseQueue.TakingDropsOldest | STM32_Server/response_queue.c:123-131 | Advancing head with wrap-around drops the oldest record and keeps tail at head + count modulo 128 |
| ResponseQueue.ShutdownStillDelivers | STM32_Server/response_queue.c:110-131 | After a shutdown, popping until told to stop delivers all queued records in order and never waits |
| CommandGenerator.RandomRange | STM32_Server/command_generator.c:60-63 | With min not above max, the value lies in the inclusive range for every draw, and above min by the draw's residue modulo the size of the range |
| CommandGenerator.RandomRangeIsOnto | STM32_Server/command_generator.c:60-63 | Every value of the range is drawn by some random number |
| CommandGenerator.PatternLenOf | STM32_Server/command_generator.c:96-108 | The pattern length is 0 for the codes 1 and 16 (timer and ADC), and for 2, 4 and 8 (UART, SPI and I2C) it is 50 to 255, by the draw's residue modulo 206 |
| CommandGenerator.Generator.constructor | STM32_Server/command_generator.c:44-50 | The generator starts at id 1 and the first peripheral |
| CommandGenerator.NextCommandInNumbers | STM32_Server/command_generator.c:73-114 | The next command has 10 to 255 iterations and its pattern from successive draws modulo 256 followed by zeros up to 255 bytes, and takes 1, or 2 and its pattern length, draws |
| CommandGenerator.Generator.RandomByte | STM32_Server/command_generator.c:60-63 | Consumes one draw and maps it into the range |
| CommandGenerator.Generator.NextPeripheral | STM32_Server/command_generator.c:85-92 | Takes the current entry of the list and moves on, from the last entry to the first |
| CommandGenerator.Generator.FillPattern | STM32_Server/command_generator.c:110-113 | The loop fills the first patternLen bytes from successive draws and leaves the cleared rest |
| CommandGenerator.Generator.BuildNext | STM32_Server/command_generator.c:73-114 | Builds the command that the state and the draws determine and advances the state; a null pointer changes nothing |
| CommandGenerator.NthCommand | STM32_Server/command_generator.c:84-92 | The k-th command has id (k + 1) modulo 2^32 and entry k modulo 5 of the peripheral list |
| CommandGenerator.IdsRepeatExactlyAfterSpan | STM32_Server/command_generator.c:84 | Any 2^32 consecutive commands have distinct ids, and the next one repeats the first |
| CommandGenerator.EveryWindowCoversOnce | STM32_Server/command_generator.c:85-92 | In any five consecutive commands each peripheral comes up at exactly one place |
| CommandGenerator.IdsOfFirstRun | STM32_Server/command_generator.c:84 | The first 2^32 - 1 ids count up from 1, and then comes 0 |
| ResultTable.RowExists | STM32_Server/result_database.c:97-137 | A test has a row if and only if some insert of its id ran |
| ResultTable.RowOfFirstInsert | STM32_Server/result_database.c:97-137 | A row holds peripheral, iterations, pattern length and time of its first insert, and is PENDING if and only if no update with its id ran after that insert |
| ResultTable.RowOfLastUpdate | STM32_Server/result_database.c:150-194 | An answered row shows its first insert's fields and the time and result of the last update with its id after it; it is PASSED for the result 1 and FAILED for any other |
| ResultTable.StatusExactly | STM32_Server/result_database.c:167-169 | A row is PASSED, FAILED or PENDING if and only if the last update with its id after its insert has the result 1, has another, or does not exist |
| ResultTable.ProgressIsKept | STM32_Server/result_database.c:150-194 | Later statements never remove a row and never make an answered row PENDING again |
| ResultTable.InsertIsNotRejected | STM32_Server/result_database.c:15-25 | If no id is inserted twice, the unique key rejects no insert |
| ResultTable.CountsAddUp | STM32_Server/result_database.c:276-282 | Passed, failed and pending rows together are all rows |
| ResultTable.ResultDatabase.constructor | STM32_Server/result_database.c:41-83 | A database that was opened starts with an empty table |
| ResultTable.ResultDatabase.InsertCommand | STM32_Server/result_database.c:97-137 | Succeeds exactly for a given command whose id has no row and whose statement runs, and then adds the row of its fields, PENDING and unanswered; otherwise the table stays as it is |
| ResultTable.ResultDatabase.UpdateResponse | STM32_Server/result_database.c:150-194 | Succeeds for a given record whose statement runs, even when no row matches; the matching row gets its time, its result and PASSED for the result 1 or FAILED for any other, and every other row stays as it is |
| ResultTable.ResultDatabase.Summary | STM32_Server/result_database.c:276-318 | Reports the number of rows and of each status, and they add up |
| RxChain.RxLink | STM32PeripheralTester/LWIP/Target/ethernetif.c:895-933 | Appends one buffer: the chain stays acyclic and in arrival order, ends at *ppEnd, and every tot_len is the 16-bit sum of its own and all later lengths |
| RxChain.Append | STM32PeripheralTester/LWIP/Target/ethernetif.c:904-920 | The new buffer becomes the last of the chain with a total of 0; no other length or total changes |
| RxChain.AddToTotals | STM32PeripheralTester/LWIP/Target/ethernetif.c:922-927 | The walk adds the length to every tot_len of the chain, wrapping at 2^16, changes no link, and ends |
| RxChain.LinkPacket | STM32PeripheralTester/LWIP/Target/ethernetif.c:895-933 | Linking any distinct buffers one after the other gives the chain of exactly these buffers with all totals right |
| RxChain.TotalsSnoc | STM32PeripheralTester/LWIP/Target/ethernetif.c:922-927 | Adding the new length to every total is what the suffix sums of the longer chain are, wrapping included |
| RxChain.TotalsAreExact | STM32PeripheralTester/LWIP/Target/ethernetif.c:922-927 | If the lengths sum below 2^16 every total is the plain sum; the packet's total is its true length if and only if they do |
| RxOwnership.EveryBufferHasOneOwner | STM32PeripheralTester/LWIP/Target/ethernetif.c:873-893 | In every reachable state, atomic callback or not, each of the 12 buffers is in exactly one of pool, descriptors, packet under assembly and stack, and at most 4 are in descriptors |
| RxOwnership.FreeingAlone | STM32PeripheralTester/LWIP/Target/ethernetif.c:584-597 | A freeing thread on its own returns the buffer, leaves the status good, and signals exactly if it was error |
| RxOwnership.Glue.constructor | STM32PeripheralTester/LWIP/Target/ethernetif.c:237 | At the start all buffers are in the pool and the status is good |
| RxOwnership.Glue.PbufFreeCustom | STM32PeripheralTester/LWIP/Target/ethernetif.c:584-597 | The callback is an undisturbed run of a freeing thread's steps: the buffer is back, the status good, and the input task signalled exactly if the status was error |
| RxOwnership.Glue.RxAllocate | STM32PeripheralTester/LWIP/Target/ethernetif.c:873-893 | A buffer of the pool is handed out if there is one, and otherwise the status becomes error |
| RxProtocol.StaleErrorExactly | STM32PeripheralTester/LWIP/Target/ethernetif.c:886-891 | The step that first leaves an error status with a non-empty pool and nobody to reset it is the late write of the status, exactly when threads that are all past it have refilled the pool; with an atomic callback there is no such step |
| RxDelivery.DeliveredExactly | STM32PeripheralTester/Drivers/STM32F7xx_HAL_Driver/Src/stm32f7xx_hal_eth.c:1089-1190 | In every run, atomic callback or not, the stack gains buffers exactly when a read is over whose draining met the end of a packet, and then all that were drained since the last packet |
| RxDelivery.BusErrorEndsReception | STM32PeripheralTester/Drivers/STM32F7xx_HAL_Driver/Src/stm32f7xx_hal_eth.c:1992-2002 | After a fatal bus error that strikes outside a read and a restart, no run hands up a packet again |
| RxDelivery.ErrorOnlyForMissing | STM32PeripheralTester/Drivers/STM32F7xx_HAL_Driver/Src/stm32f7xx_hal_eth.c:1202-1290 | The status becomes error only for a descriptor without a buffer while the pool is empty, and only a missing buffer is filled in |
| RxDelivery.StarterWindsDown | STM32PeripheralTester/Drivers/STM32F7xx_HAL_Driver/Src/stm32f7xx_hal_eth.c:771-831 | Each step of a start or a stop brings it closer to its end, which leaves the driver started or ready |
| RxDelivery.StarterCanMove | STM32PeripheralTester/Drivers/STM32F7xx_HAL_Driver/Src/stm32f7xx_hal_eth.c:771-831 | A start or a stop that is under way can always take a step |
| RxDelivery.TurnedAwayMeans | STM32PeripheralTester/Drivers/STM32F7xx_HAL_Driver/Src/stm32f7xx_hal_eth.c:1104-1107 | In every run, that the reader counts as turned away means that it came for a good status, found the driver not started, and nobody has tried the descriptors since |
| RxDelivery.FreedSinceMeans | STM32PeripheralTester/LWIP/Target/ethernetif.c:584-597 | In every run, that a buffer counts as freed means that one was returned and nobody has found the pool empty since |
| RxProtocol.ErrorMeansFreerUnderWay | STM32PeripheralTester/LWIP/Target/ethernetif.c:584-597 | With an atomic callback, status error and a non-empty pool mean that a freeing thread has yet to test or reset the status |
| RxProtocol.MissingAtRest | STM32PeripheralTester/Drivers/STM32F7xx_HAL_Driver/Src/stm32f7xx_hal_eth.c:1104-1107 | With an atomic callback and a descriptor missing at rest, the status reads good if and only if the input task was turned away by the busy driver since the descriptors were last tried; if it was not, the pool is empty; and a buffer lies idle if and only if it was and a buffer was freed since the pool was last found empty |
| RxProtocol.NextFreeRestarts | STM32PeripheralTester/LWIP/Target/ethernetif.c:584-597 | If it was not turned away, freeing any buffer of the stack wakes the input task and lets it read on with that buffer in the pool |
| RxProtocol.NextFreeIsWasted | STM32PeripheralTester/LWIP/Target/ethernetif.c:592-596 | If it was turned away, freeing a buffer only adds it to the pool and wakes nobody |
| RxProtocol.NextInterruptRefills | STM32PeripheralTester/LWIP/Target/ethernetif.c:161-164 | A buffer that lies in the pool at rest while a descriptor is missing goes to it after the next receive interrupt |
| RxScenarios.BusyDriverEatsSignal | STM32PeripheralTester/Drivers/STM32F7xx_HAL_Driver/Src/stm32f7xx_hal_eth.c:771-825 | Whatever is freed after the restarting driver found the pool empty and before it is started: the input task is signalled, finds the driver busy and waits again |
| RxScenarios.BufferCanLieIdle | STM32PeripheralTester/Drivers/STM32F7xx_HAL_Driver/Src/stm32f7xx_hal_eth.c:771-825 | A run with an atomic callback that comes to rest with a buffer in the pool, a descriptor missing and a good status |
| RxScenarios.DeadForever | STM32PeripheralTester/LWIP/Target/ethernetif.c:455-465 | With the status at error and nobody left to reset it, no run of interrupts, restarts and wake-ups ever delivers a packet |
| RxScenarios.AtomicDiesOnlyExhausted | STM32PeripheralTester/LWIP/Target/ethernetif.c:873-893 | With an atomic callback that state needs an empty pool and eight buffers in one unfinished packet |
| RxScenarios.WindowIsFatal | STM32PeripheralTester/LWIP/Target/ethernetif.c:876-891 | Without atomicity, every reachable state in which the restarting driver saw the pool empty and has not written the status can lead to that dead state; unless the input task is inside a read, with all of the stack's buffers back in the pool |
| RxScenarios.ReceptionCanDie | STM32PeripheralTester/LWIP/Target/ethernetif.c:876-891 | Without atomicity such a death with nine buffers in the pool is reachable from the start |
| TxPath.ListBuffers | STM32PeripheralTester/LWIP/Target/ethernetif.c:390-411 | A chain is accepted exactly when it has at most 4 buffers, and then the array mirrors it entry by entry, linked in order, with the rest cleared |
| TxPath.MirrorsEntries | STM32PeripheralTester/LWIP/Target/ethernetif.c:395-408 | Each entry of the list has the payload and length of its buffer and points to the next entry, the last one to none, and the others are cleared |
| TxSound.TakenIsSoundExactly | STM32PeripheralTester/Drivers/STM32F7xx_HAL_Driver/Src/stm32f7xx_hal_eth.c:3259-3267 | Accepting a packet keeps the ring sound (the DMA's descriptors consecutive up to the current one, every held packet within BuffersInUse of releaseIndex, packets numbered by age) if and only if the 32-bit counter does not wrap, or wraps to a number beyond everything held |
| TxSound.FinishedIsSound | STM32PeripheralTester/Drivers/STM32F7xx_HAL_Driver/Src/stm32f7xx_hal_eth.c:3256-3261 | Whatever number of descriptors the DMA finishes, the ring stays sound, and it runs out of work after as many as it owned |
| TxSound.ReleasedIsSound | STM32PeripheralTester/Drivers/STM32F7xx_HAL_Driver/Src/stm32f7xx_hal_eth.c:1451-1535 | A release keeps the ring sound |
| TxSound.OnlyFinishedAreFreed | STM32PeripheralTester/Drivers/STM32F7xx_HAL_Driver/Src/stm32f7xx_hal_eth.c:1478-1532 | A release frees only packets whose last descriptor the DMA has finished, and changes nothing else that is stored |
| TxSound.ReleaseIsThorough | STM32PeripheralTester/Drivers/STM32F7xx_HAL_Driver/Src/stm32f7xx_hal_eth.c:1462-1532 | A release that can reach everything held leaves a packet only if it, or one that the walk meets earlier, is unfinished |
| TxSound.FreedInWalkOrder | STM32PeripheralTester/Drivers/STM32F7xx_HAL_Driver/Src/stm32f7xx_hal_eth.c:1462-1532 | What a release frees lies before what it leaves, as seen from releaseIndex |
| TxSound.DrainMakesRoom | STM32PeripheralTester/Drivers/STM32F7xx_HAL_Driver/Src/stm32f7xx_hal_eth.c:1451-1535 | On a sound ring, once the DMA has caught up, a release makes room for a packet of any size up to four |
| TxOrder.OrderIsKeptExactly | STM32PeripheralTester/Drivers/STM32F7xx_HAL_Driver/Src/stm32f7xx_hal_eth.c:3259-3261 | A packet accepted by a ring that releases oldest first keeps that order if and only if its last descriptor lies beyond all held packets as seen from releaseIndex |
| TxOrder.ReleaseKeepsOrder | STM32PeripheralTester/Drivers/STM32F7xx_HAL_Driver/Src/stm32f7xx_hal_eth.c:1451-1535 | A release never spoils that order |
| TxOrder.OldestAreFreedFirst | STM32PeripheralTester/Drivers/STM32F7xx_HAL_Driver/Src/stm32f7xx_hal_eth.c:1451-1535 | With that order a release frees no packet while an older one stays |
| TxRuns.SoundAlong | STM32PeripheralTester/Drivers/STM32F7xx_HAL_Driver/Src/stm32f7xx_hal_eth.c:3122-3274 | Over the first 2^32 - 1 buffers every run of offers, DMA progress and releases leaves the ring sound |
| TxRuns.FittingKeepsOrder | STM32PeripheralTester/Drivers/STM32F7xx_HAL_Driver/Src/stm32f7xx_hal_eth.c:3122-3274 | A run in which every packet is accepted while BuffersInUse and its buffers are at most four releases oldest first, however long it is |
| TxRuns.SinglesLeaveInOrder | STM32PeripheralTester/Drivers/STM32F7xx_HAL_Driver/Src/stm32f7xx_hal_eth.c:1451-1535 | If every packet has one buffer, no release in any run frees a packet while an older one stays |
| TxRuns.NewerCanLeaveFirst | STM32PeripheralTester/Drivers/STM32F7xx_HAL_Driver/Src/stm32f7xx_hal_eth.c:1465-1532 | A run with packets of 3, 2 and 1 buffers after which a release frees the second packet and keeps the first, although the DMA has finished both |
| TxRuns.CounterDrifts | STM32PeripheralTester/Drivers/STM32F7xx_HAL_Driver/Src/stm32f7xx_hal_eth.c:1524 | With nothing held and nothing to send, BuffersInUse can read every multiple of 3 below 2^32 - 4 |
| TxRuns.TransmissionCanDie | STM32PeripheralTester/Drivers/STM32F7xx_HAL_Driver/Src/stm32f7xx_hal_eth.c:3267 | A run to a ring whose four descriptors hold finished packets while BuffersInUse reads 0 |
| TxRuns.DeadForever | STM32PeripheralTester/Drivers/STM32F7xx_HAL_Driver/Src/stm32f7xx_hal_eth.c:1454-1465 | From there no run accepts or frees any packet |
| TxDriver.EthHandle.Prepare | STM32PeripheralTester/Drivers/STM32F7xx_HAL_Driver/Src/stm32f7xx_hal_eth.c:3122-3274 | Preparing succeeds exactly if there is room for all buffers and then takes the descriptors; otherwise every OWN bit set on the way is taken back and the ring is as before |
| TxDriver.EthHandle.Transmit | STM32PeripheralTester/Drivers/STM32F7xx_HAL_Driver/Src/stm32f7xx_hal_eth.c:1037-1080 | An offer is accepted exactly if the driver is started and there is room, a lack of room sets the busy bit, and a stopped driver sets no bit |
| TxDriver.EthHandle.ReleaseTxPacket | STM32PeripheralTester/Drivers/STM32F7xx_HAL_Driver/Src/stm32f7xx_hal_eth.c:1451-1535 | The loop is the release of the ring, and drops one reference for each packet that it frees |
| TxDriver.EthHandle.DmaFinishes | STM32PeripheralTester/Drivers/STM32F7xx_HAL_Driver/Src/stm32f7xx_hal_eth.c:3256-3261 | The DMA finishes the given number of descriptors, or all it has |
| TxDriver.EthHandle.constructor | STM32PeripheralTester/Drivers/STM32F7xx_HAL_Driver/Src/stm32f7xx_hal_eth.c:3032-3054 | At the start every descriptor is free and no bit is set |
| TxPath.Netif.TryOnce | STM32PeripheralTester/LWIP/Target/ethernetif.c:421-441 | One turn of the loop accepts the packet, gives its reference back and fails, or releases finished packets and goes round again |
| TxPath.Netif.Retry | STM32PeripheralTester/LWIP/Target/ethernetif.c:419-442 | The loop does what offering the packet to the ring attempt by attempt does, and what the driver accepts is the given list |
| TxPath.Netif.LowLevelOutput | STM32PeripheralTester/LWIP/Target/ethernetif.c:383-445 | Too long a chain gives the interface error and takes no reference; otherwise the references stay balanced: one more with the packet stored on success, unchanged on error, in transit while retrying; and what the driver accepts is the list that mirrors the chain, with the chain's total length |
| TxPath.OfferBalances | STM32PeripheralTester/LWIP/Target/ethernetif.c:417-442 | Across any run of retries the driver's references are the packets whose addresses are stored, plus the offered one while it is in transit |
| TxPath.ErrorOnlyAtOnce | STM32PeripheralTester/LWIP/Target/ethernetif.c:428-441 | The interface error comes back if and only if the first offer finds the driver stopped and the busy bit clear |
| TxPath.RetriesExactlyWhile | STM32PeripheralTester/LWIP/Target/ethernetif.c:419-442 | The call is still retrying if and only if no offer so far found the driver started and room on the ring that the earlier turns left, and either none was made, the busy bit was set before, or the driver was started at the first one |
| TxPath.StoppedIsRetriedForever | STM32PeripheralTester/LWIP/Target/ethernetif.c:428-441 | Once the busy bit is set, the call does not return while the driver stays stopped |
| TxPath.CaughtUpReturns | STM32PeripheralTester/LWIP/Target/ethernetif.c:430-433 | On a sound ring, once the DMA has caught up before a release, the call returns with the next offer that finds the driver started |
| TxPath.DeadIsRetriedForever | STM32PeripheralTester/LWIP/Target/ethernetif.c:430-433 | On a ring that has died the call never returns, whatever the driver and the DMA do, and nothing changes |
| TxPath.OfferIsRun | STM32PeripheralTester/LWIP/Target/ethernetif.c:419-442 | What a call does to the ring is a run of it that accepts the packet exactly if the call succeeds |
| TxPath.OfferIsSound | STM32PeripheralTester/LWIP/Target/ethernetif.c:419-442 | A call keeps the ring sound as long as the counter does not wrap |
| LinkState.Negotiated | STM32PeripheralTester/LWIP/Target/ethernetif.c:826-850 | The states 2 to 5 give a mode: 100 Mbit/s for the first two, full duplex for the even ones |
| LinkState.ResolvedLinkIsTaken | STM32PeripheralTester/LWIP/Target/ethernetif.c:826-861 | With the driver ready, a link with one of the states 2 to 5 is taken up in seven steps: interface and link up, driver started, and the MAC at 100 Mbit/s for 2 and 3, full duplex for 2 and 4 |
| LinkState.KnownIsLastResolved | STM32PeripheralTester/LWIP/Target/ethernetif.c:826-850 | In every run what the link thread remembers is the mode of the last resolved reading taken while the interface had no link |
| LinkState.MacIsLastApplied | STM32PeripheralTester/Drivers/STM32F7xx_HAL_Driver/Src/stm32f7xx_hal_eth.c:2342-2359 | In every run the MAC has the mode remembered at the last reading of a new link at which the driver was ready |
| LinkState.InterfaceFollowsLink | STM32PeripheralTester/App/Src/app_net.c:146-169 | In every interleaving, at rest, the interface follows the link or the poll remembers another state, from the first transition on; the only exception is a board that came up without a link |
| LinkState.OnePollRestores | STM32PeripheralTester/App/Src/app_net.c:146-169 | One undisturbed poll makes the interface follow the link if and only if it is not that exception |
| LinkState.UpWithoutLink | STM32PeripheralTester/LWIP/App/lwip.c:91-92 | In the exceptional state no sequence of polls and readings without a link changes anything, and no bus error can strike |
| LinkState.DriverFollowsLink | STM32PeripheralTester/LWIP/Target/ethernetif.c:818-863 | Between its rounds the link thread leaves the driver started exactly while the link is up, unless a fatal bus error has stopped the driver |
| LinkState.BusErrorIsFinalExactly | STM32PeripheralTester/Drivers/STM32F7xx_HAL_Driver/Src/stm32f7xx_hal_eth.c:1992-2002 | A fatal bus error leaves the driver in its error state in every run after it if and only if it did not strike while the link thread was between the check of gState and its last write in HAL_ETH_Start_IT or HAL_ETH_Stop_IT |
| LinkState.OverwrittenErrorIsForgotten | STM32PeripheralTester/Drivers/STM32F7xx_HAL_Driver/Src/stm32f7xx_hal_eth.c:771-831 | After an error that is overwritten, the end of the round and then the loss and the return of the link leave the driver started with its interrupts enabled |
| LinkState.ErrorDuringStop | STM32PeripheralTester/Drivers/STM32F7xx_HAL_Driver/Src/stm32f7xx_hal_eth.c:898-943 | A run after which an error can strike where HAL_ETH_Stop_IT overwrites it |
| LinkState.ErrorDuringStart | STM32PeripheralTester/Drivers/STM32F7xx_HAL_Driver/Src/stm32f7xx_hal_eth.c:821-824 | A run after which an error can strike where HAL_ETH_Start_IT overwrites it |
| LinkState.UnresolvedLinkIsTakenWithOldMode | STM32PeripheralTester/LWIP/Target/ethernetif.c:824-862 | A link whose negotiation is not done is taken if and only if an earlier one was resolved, and the MAC is then set to that one's mode, or not at all if the driver is in its error state |
| LinkState.BothHappen | STM32PeripheralTester/LWIP/Target/ethernetif.c:807-862 | Runs that reach the exceptional state and a link taken with an old mode |
| LinkState.Interface.Init | STM32PeripheralTester/App/Src/app_net.c:135-139 | Initialisation remembers the link's state |
| LinkState.Interface.Poll | STM32PeripheralTester/App/Src/app_net.c:146-169 | A poll is an undisturbed run of the poll task's steps |
| LinkState.Interface.StopDriver | STM32PeripheralTester/Drivers/STM32F7xx_HAL_Driver/Src/stm32f7xx_hal_eth.c:892-951 | Undisturbed, stopping makes a started driver ready with its interrupts disabled, and leaves any other driver alone |
| LinkState.Interface.StartDriver | STM32PeripheralTester/Drivers/STM32F7xx_HAL_Driver/Src/stm32f7xx_hal_eth.c:771-831 | Undisturbed, starting makes a ready driver started with its interrupts enabled, and leaves any other driver alone |
| LinkState.Interface.LinkRound | STM32PeripheralTester/LWIP/Target/ethernetif.c:816-863 | A round takes a lost link down and stops the driver, takes a link with one of the states 2 to 5 up with its mode and starts a ready driver, takes an unresolved one up with the mode remembered, changes nothing else, and is an undisturbed run of the thread's steps |
| LinkState.Interface.constructor | STM32PeripheralTester/LWIP/Target/ethernetif.c:276-345 | After start-up the interface is up whatever the link; a link that is up has its own mode, or 100 Mbit/s full duplex if it is unresolved, and a started driver |
| DataCompare.ShortCompareIsExact | STM32PeripheralTester/App/Src/app_data_compare.c:21-46 | Null or empty arguments never match; up to 100 bytes the verdict is exact equality |
| DataCompare.NothingNeverMatches | STM32PeripheralTester/App/Src/app_data_compare.c:23-26 | Null or empty arguments never match, whatever the length |
| DataCompare.LongCompareIsDivisibility | STM32PeripheralTester/App/Src/app_data_compare.c:29-37 | Over 100 bytes the buffers match if and only if the CRC generator divides their difference |
| DataCompare.BurstAlwaysDetected | STM32PeripheralTester/App/Src/app_data_compare.c:29-43 | Buffers of any length that differ only inside 32 consecutive bits, anywhere, never match |
| DataCompare.EveryMultipleIsAccepted | STM32PeripheralTester/App/Src/app_data_compare.c:29-37 | Every multiple of the generator is the difference to some other buffer that matches |
| DataCompare.BurstBoundIsTight | STM32PeripheralTester/App/Src/app_data_compare.c:29-37 | For every buffer over 100 bytes and every 33 consecutive bits, a different buffer matches that differs only there |
| TwoBitErrors.TwoBitErrorDetected | STM32PeripheralTester/App/Src/app_data_compare.c:29-43 | Buffers of any length that differ in exactly two bits, wherever they are, never match |
| TwoBitErrors.NoEarlyReturn | STM32PeripheralTester/Core/Src/crc.c:41-45 | No power of x from the first to the 2048th is 1 modulo the generator |
| CrcCheck.CheckValue | STM32PeripheralTester/App/Src/app_crc.c:13-21 | The CRC of the nine digits 123456789 is 0x0376E6E7, which fixes generator, start value, and the order of bytes and bits |
| DataCompare.GeneratorTerms | STM32PeripheralTester/Core/Src/crc.c:41-45 | The configured generator has the exponents 32, 26, 23, 22, 16, 12, 11, 10, 8, 7, 5, 4, 2, 1 and 0, and no others |
| Crc.FeedBitsIsRun | STM32PeripheralTester/App/Src/app_crc.c:13-21 | The word-wide shift register computes the polynomial division step by step |
| Crc.RunIsRemainder | STM32PeripheralTester/App/Src/app_crc.c:13-21 | Started from zero, the register holds the remainder of the message times x^32 |
| Crc.EqualCrcIffDivides | STM32PeripheralTester/App/Src/app_crc.c:13-21 | For every start value and every generator with constant term 1, two messages of equal length have the same CRC if and only if the generator divides their sum |
| Crc.BurstNotDivisible | STM32PeripheralTester/App/Src/app_data_compare.c:29-37 | A nonzero difference within as many coefficients as the generator's degree is never divisible |
| Crc.GeneratorDivisible | STM32PeripheralTester/App/Src/app_data_compare.c:29-37 | The generator itself is divisible wherever it stands in the message |
| MpuLoader.Mpu.constructor | STM32PeripheralTester/Drivers/CMSIS/Include/core_armv8mml.h:1509 | A loader for every power-of-two alias count exists |
| MpuLoader.Mpu.LoadEx | STM32PeripheralTester/Drivers/CMSIS/Include/mpu_armv8.h:285-308 | For every table, start region, count and power-of-two alias count, the chunked load leaves the region file that setting the regions one at a time leaves, and ends |
| MpuLoader.Mpu.LoadChunks | STM32PeripheralTester/Drivers/CMSIS/Include/mpu_armv8.h:295-306 | From any multiple of the alias count and any offset below it, the loop over the chunks sets the regions in order |
| MpuLoader.Mpu.OrderedCpy | STM32PeripheralTester/Drivers/CMSIS/Include/mpu_armv8.h:270-277 | The copy is the word-by-word writing of consecutive regions and never leaves the alias window |
| MpuLoader.Mpu.CopyRows | STM32PeripheralTester/Drivers/CMSIS/Include/mpu_armv8.h:295-306 | Copying a chunk of rows leaves what setting the regions from the selected one on, one at a time, leaves |
| MpuLoader.Mpu.WriteWord | STM32PeripheralTester/Drivers/CMSIS/Include/core_armv8mml.h:1490-1498 | A store to a word of an alias pair changes the base or the limit of the region that the pair stands for, not the other half, and no other region |
| MpuLoader.Mpu.SetRegionEx | STM32PeripheralTester/Drivers/CMSIS/Include/mpu_armv8.h:236-241 | Sets one region and selects it |
| MpuLoader.SetRegionsIsSplice | STM32PeripheralTester/Drivers/CMSIS/Include/mpu_armv8.h:285-308 | Setting regions one at a time puts the rows in place in order and changes no other region |
| MpuLoader.SetRegionsConcat | STM32PeripheralTester/Drivers/CMSIS/Include/mpu_armv8.h:295-306 | Loading in two chunks is loading at once |
| MpuLoader.WriteWordsSetsRegions | STM32PeripheralTester/Drivers/CMSIS/Include/mpu_armv8.h:270-277 | Copying the words of the rows in order sets the regions in order |
| MpuLoader.MaskRoundsDown | STM32PeripheralTester/Drivers/CMSIS/Include/mpu_armv8.h:292 | For every power-of-two alias count, the mask on a region number rounds it down to a multiple of the alias count |
| MpuLoader.AliasPairs | STM32PeripheralTester/Drivers/CMSIS/Include/core_armv8mml.h:1490-1498 | Alias pair n stands for the region number with its low bits replaced by n; pair 0 for the number itself |
| MemAttributes.AttributeTable.SetMemAttr | STM32PeripheralTester/Drivers/CMSIS/Include/mpu_armv8.h:169-180 | Sets one of the eight attribute bytes and no other; an index above 7 changes nothing |
| MemAttributes.ByteNeedsNoMask | STM32PeripheralTester/Drivers/CMSIS/Include/mpu_armv8.h:173-179 | Masking the shifted attribute once more changes nothing |
| MemAttributes.AttributePlaces | STM32PeripheralTester/Drivers/CMSIS/Include/mpu_armv8.h:169-180 | Attributes 0 to 3 are the bytes of the first register word from the bottom up, and 4 to 7 those of the second |
| NvicPriority.ReportedOfStored | STM32PeripheralTester/Drivers/CMSIS/Include/core_cm0plus.h:852-881 | A priority read back is the one that was set, cut to the implemented bits |
| NvicPriority.StoredIsLeftAligned | STM32PeripheralTester/Drivers/CMSIS/Include/core_cm0plus.h:852-853 | The stored byte has the priority's implemented bits at its top and zeros below |
| NvicPriority.ReportedIsTop | STM32PeripheralTester/Drivers/CMSIS/Include/core_cm0plus.h:872-883 | What is read back is the implemented bits at the top of the stored byte, whatever stands below them |
| NvicPriority.PackedNvic.SetPriority | STM32PeripheralTester/Drivers/CMSIS/Include/core_cm0plus.h:848-860 | Setting a priority by read-modify-write of a word changes exactly the one interrupt number, device or system |
| NvicPriority.PackedNvic.GetPriority | STM32PeripheralTester/Drivers/CMSIS/Include/core_cm0plus.h:872-883 | Reads the stored priority of the interrupt number |
| NvicPriority.ByteNvic.SetPriority | STM32PeripheralTester/Drivers/CMSIS/Include/core_armv8mml.h:2342-2352 | Setting a priority byte changes exactly the one interrupt number |
| NvicPriority.ByteNvic.GetPriority | STM32PeripheralTester/Drivers/CMSIS/Include/core_armv8mml.h:2364-2375 | Reads the stored priority of the interrupt number |
| NvicPriority.SetAll | STM32PeripheralTester/Drivers/CMSIS/Include/core_cm0plus.h:848-860 | After any sequence of settings on both layouts, both hold for each shared interrupt what was last set for it, or what was there before |
| NvicPriority.DeviceIndex | STM32PeripheralTester/Drivers/CMSIS/Include/core_cm0plus.h:728-730 | For device interrupts the index macros are remainder and quotient by 4 |
| NvicPriority.SystemIndex | STM32PeripheralTester/Drivers/CMSIS/Include/core_cm0plus.h:728-729 | For processor exceptions, whose number is negative, the index macros are the Euclidean remainder by 4 and the quotient of the remainder by 16 |
| NvicPriority.HandlerIndex | STM32PeripheralTester/Drivers/CMSIS/Include/core_armv8mml.h:2350 | The byte layout's index of a processor exception is its Euclidean remainder by 16, less 4 |
| Lanes.SameLane | STM32PeripheralTester/Drivers/CMSIS/Include/core_cm0plus.h:728 | A byte put into a lane of a word is read back from it |
| Lanes.WordOfLanes | STM32PeripheralTester/Drivers/CMSIS/Include/core_cm0plus.h:728 | A word is made of its four lanes, the first one at the bottom |
| Lanes.OtherLane | STM32PeripheralTester/Drivers/CMSIS/Include/core_cm0plus.h:728 | Putting a byte into one lane leaves the other three |
| Lanes.StoreLane | STM32PeripheralTester/Drivers/CMSIS/Include/core_cm0plus.h:852-853 | A read-modify-write of one lane changes that lane of that word and nothing else in the array |
| PriorityCodec.FieldWidths | STM32PeripheralTester/Drivers/CMSIS/Include/core_armv8mml.h:2395-2396 | For every group the preemption field has 7 less the group bits, or all implemented ones if these are fewer, and the subpriority field the rest |
| PriorityCodec.DecodeOfEncode | STM32PeripheralTester/Drivers/CMSIS/Include/core_armv8mml.h:2389-2427 | The encoded priority fits the implemented bits, and decoding it gives both fields cut to their widths |
| PriorityCodec.BinaryPoint | STM32PeripheralTester/Drivers/CMSIS/Include/core_armv8mml.h:2415-2427 | With the priority left-aligned in its byte, the preemption field is what stands above the bit numbered by the group, and the subpriority what stands at it and below, as far as implemented |
| PriorityCodec.SamePreemption | STM32PeripheralTester/Drivers/CMSIS/Include/core_armv8mml.h:2415-2427 | Two priorities of a group preempt alike if and only if they agree above that bit |
| PriorityCodec.ConfiguredGroup | STM32PeripheralTester/Drivers/STM32F7xx_HAL_Driver/Src/stm32f7xx_hal.c:151 | With the group that the firmware sets and four implemented bits the code is the preemption priority alone |
| PriorityCodec.EncodeOfDecode | STM32PeripheralTester/Drivers/CMSIS/Include/core_armv8mml.h:2389-2427 | Encoding the decoded fields of any value in range gives the value back |
| PriorityCodec.EncodedOrder | STM32PeripheralTester/Drivers/CMSIS/Include/core_armv8mml.h:2389-2402 | Of two encoded priorities of a group the first is smaller if and only if its preemption field is, or these are equal and its subpriority field is smaller |
| BitLoops.CountLeadingZeros | STM32PeripheralTester/Drivers/CMSIS/Include/cmsis_iccarm.h:496-509 | The loop counts the zero bits above the highest set bit, 32 for zero, and ends |
| BitLoops.ReverseBits | STM32PeripheralTester/Drivers/CMSIS/Include/cmsis_iccarm.h:511-522 | The early-exit loop puts bit i at place 31 - i for every word |
| BitLoops.ReverseInvolution | STM32PeripheralTester/Drivers/CMSIS/Include/cmsis_iccarm.h:511-522 | Reversing twice gives the word back |
| BitLoops.LeadingOfReversed | STM32PeripheralTester/Drivers/CMSIS/Include/cmsis_iccarm.h:496-522 | The leading zeros of the reversed word are the trailing zeros of the original |

## Left out

- Sockets, SQLite, pthread, FreeRTOS, lwIP and the Ethernet HAL: only what they do to the modelled state, with every result left open. The failures before the threads start (queue, database) are not modelled.
- The memory model of C11: the running flags are plain or volatile variables, and steps are taken in one global order.
- The threads of the server, the receive pool and the two link tasks are step machines on values: their loops over the running flags, which may go on for ever, are runs of steps and not loops of methods.
- Fairness: that a thread which can move eventually does is not stated; instead the remaining steps are bounded and a run to the end always exists.
- One-word accesses of lwIP's flag byte: setting and clearing a netif flag is one step, although it is a read-modify-write in lwIP.
- Freeing the rest of a chain in `pbuf_free`: references are counted for the head of a packet.
- Two threads inside the Ethernet HAL at once: in `RxPool` the driver can be stopped and restarted in the middle of a read, which the threads' priorities forbid; the theorems cover these runs too, and the runs in `RxScenarios` do not use them.
- `HAL_ETH_ReadData` drains its descriptors in one step in `RxPool`, since no other thread touches them.
- The registers of the CRC peripheral: its input-output function is assumed to be the bit-serial CRC with the configured polynomial and start value.
- The Armv7-M MPU loader: every alias there writes the same region number register, so that chunking has no effect to prove.
- The encoder and decoder of core_cm0plus.h, which are the same text as those of core_armv8mml.h.
- The peripheral tests, the command dispatcher, the CubeMX start-up code, logging, LEDs, sleeps, and the printed lists and success rate: they do not bear on the properties.
- TxDriver.EthHandle.ReleaseTxPacket: the DMA finishes descriptors before the release or after it, and not in the middle of its walk; the same goes for the preparing of a packet.
- The transmit descriptors' contents besides OWN (buffer addresses, lengths, first and last marks), the timestamps, and what a stopped or failing DMA loses of a packet.
