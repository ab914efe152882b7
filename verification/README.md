# reactor-aeron session core in Dafny

This project models the session and flow-control core of reactor-aeron, a
reactive transport layered over Aeron publications and subscriptions. It
covers three parts:

- **`MessagePublication`** multiplexes many logical sends over one outbound
  Aeron publication. One `publish()` pass walks a 256-slot working set, in
  slot order:
  - it backfills empty slots from a FIFO queue of waiting sends;
  - it shifts live sends left into vacancies;
  - it asks each send for at most one buffer and offers that buffer;
  - it sorts the offer's result into success, retry or failure under three
    timeouts (connect, back-pressure, admin action).

  Its inner `PublisherProcessor` is the per-send state machine. The module
  also covers `disposeProcessors`, `close()` and `ensureConnected()`.
- **`ClientControlMessageSubscriber`** is the client side of the control
  channel. It keeps a table from connect-request ids to one-shot result
  slots, which CONNECT_ACK messages resolve and subscription disposal
  cancels. It forwards HEARTBEAT messages to the watchdog and COMPLETE
  messages to a handler.
- **`HeartbeatWatchdog`** runs one periodic check per session. A check
  reports the session lost when the heartbeat has been silent for longer
  than 1.5 intervals, and either the session reports no data time or its
  data has been silent that long too.

All state is immutable datatypes, and every operation is a pure function
of its inputs. The outside world enters as parameters:

- `MessagePublication.Env` carries, for each slot a pass visits, the clock
  reading taken before an offer and the one taken by the timeout check
  after a transient reply. It also carries the three timeouts, what the
  upstream delivers when asked for a buffer, and what the offer returns.
- Upstream signals that arrive between passes are the step
  `MessagePublication.Arrive`.
- The watchdog's `now` and `lastSignal` are arguments.
- `isConnected` in `EnsureConnected` is a function from probe number to
  answer.

Files:

| file | module | contents |
|---|---|---|
| `wrappers.dfy` | `Wrappers` | `Option`, `Result` |
| `failures.dfy` | `Failures` | the error values |
| `java_long.dfy` | `JavaLong` | Java `long` wrap-around, truncating division, `TimeUnit.toNanos` saturation |
| `publisher_processor.dfy` | `PublisherProcessor` | one send's state machine |
| `message_publication.dfy` | `MessagePublication` | offer classification, the pass, disposal, close, ensureConnected |
| `publication_proofs.dfy` | `PublicationProofs` | properties of whole passes, disposal and close |
| `control_messages.dfy` | `ControlMessages` | the control-message datatype |
| `client_control.dfy` | `ClientControl` | the connect-ack correlation table and the message dispatch |
| `heartbeat_watchdog.dfy` | `HeartbeatWatchdog` | the watchdog tables, the loss predicate and the timeout arithmetic |

In the table below, paths are relative to the repository root:

- `MP` is `reactor-aeron-core/src/main/java/reactor/aeron/MessagePublication.java`
- `HW` is `reactor-aeron-core/src/main/java/reactor/aeron/HeartbeatWatchdog.java`
- `CC` is `reactor-aeron-core/src/main/java/reactor/aeron/client/ClientControlMessageSubscriber.java`

The source column spells each path out in full.

## Model

| member | source | states |
|---|---|---|
| JavaLong.Sub | reactor-aeron-core/src/main/java/reactor/aeron/HeartbeatWatchdog.java:68-70 | `long` subtraction: the result is a long, and it is the true difference whenever that fits |
| JavaLong.Mul | reactor-aeron-core/src/main/java/reactor/aeron/HeartbeatWatchdog.java:35 | `long` multiplication: the result is a long, and it is the true product whenever that fits |
| JavaLong.Quot | reactor-aeron-core/src/main/java/reactor/aeron/HeartbeatWatchdog.java:35 | `long` division by a positive divisor truncates toward zero, for negative dividends too |
| JavaLong.MillisToNanos | reactor-aeron-core/src/main/java/reactor/aeron/HeartbeatWatchdog.java:35 | millis to nanos is the exact product when it fits, and otherwise saturates to the long bound with the input's sign |
| PublisherProcessor.Fire | reactor-aeron-core/src/main/java/reactor/aeron/MessagePublication.java:322 | a done signal, once terminal, keeps its first value |
| PublisherProcessor.Fresh | reactor-aeron-core/src/main/java/reactor/aeron/MessagePublication.java:327-331 | a new send holds no buffer, has no stamp, has no request out, is not disposed and has not fired |
| PublisherProcessor.ResetBuffer | reactor-aeron-core/src/main/java/reactor/aeron/MessagePublication.java:410-416 | the held buffer is dropped and handed to the disposal hook once; nothing else changes |
| PublisherProcessor.Reset | reactor-aeron-core/src/main/java/reactor/aeron/MessagePublication.java:355-369 | releases the buffer. A live send is rearmed: clock cleared, no request outstanding, done untouched. A disposed send fires its terminal signal: its error if it has one, otherwise completion |
| PublisherProcessor.Request | reactor-aeron-core/src/main/java/reactor/aeron/MessagePublication.java:338-348 | one request(1) goes upstream exactly when none is outstanding, the send is not disposed and it is subscribed; otherwise nothing changes |
| PublisherProcessor.Finally | reactor-aeron-core/src/main/java/reactor/aeron/MessagePublication.java:391-396 | the finally hook leaves a send that holds a buffer alone. A send with no buffer is reset, so a disposed one fires its terminal signal unless it already fired |
| PublisherProcessor.OnSubscribe | reactor-aeron-core/src/main/java/reactor/aeron/MessagePublication.java:371-374 | the subscription is recorded unless the send was cancelled first |
| PublisherProcessor.OnError | reactor-aeron-core/src/main/java/reactor/aeron/MessagePublication.java:386-396 | an upstream error disposes the send and records the error. A pending send with no buffer fails with exactly that error, and only such a send changes its done signal; a held buffer stays to be offered. The error is ignored once disposed |
| PublisherProcessor.OnComplete | reactor-aeron-core/src/main/java/reactor/aeron/MessagePublication.java:391-396 | completion disposes the send. A pending, consistent send with no buffer completes; only such a send changes its done signal, and a held buffer keeps the send open |
| PublisherProcessor.OnNext | reactor-aeron-core/src/main/java/reactor/aeron/MessagePublication.java:377-384 | a buffer is stored when none is held. Otherwise the new buffer is released and the send fails with an overflow, keeping its held buffer |
| PublisherProcessor.Cancel | reactor-aeron-core/src/main/java/reactor/aeron/MessagePublication.java:391-396 | cancel disposes the send. A live, subscribed, pending send with no buffer completes; no other send changes its done signal, and an unsubscribed one runs no hook |
| PublisherProcessor.OnParentError | reactor-aeron-core/src/main/java/reactor/aeron/MessagePublication.java:350-353 | the buffer is released once and the done signal fails with the error, unless it already fired |
| PublisherProcessor.Stamp | reactor-aeron-core/src/main/java/reactor/aeron/MessagePublication.java:398-401 | only an offer at start 0 records the clock |
| PublisherProcessor.TimeoutElapsed | reactor-aeron-core/src/main/java/reactor/aeron/MessagePublication.java:406-408 | used by `Classify`; the check holds when the clock reading minus the first-offer time is strictly above the timeout, and its meaning at the pass is stated by `Classify` |
| PublisherProcessor.Receive | reactor-aeron-core/src/main/java/reactor/aeron/MessagePublication.java:376-396 | an upstream signal: completion and error dispose the send. An error on a live send is recorded and fails a pending send that holds no buffer; completion records no error, and a disposed send keeps its error. A buffer is stored when none is held, and a held buffer stays held; a fired done signal and the request state are untouched |
| PublisherProcessor.ReceiveAll | reactor-aeron-core/src/main/java/reactor/aeron/MessagePublication.java:376-396 | signals delivered in order keep a held buffer, or else keep the first buffer emitted. An error delivered first to a live send is the one recorded, and a disposed send keeps its error. A fired done signal and a disposal are kept, and no request is issued |
| PublisherProcessor.ReceiveAllHoldsIffEmitted | reactor-aeron-core/src/main/java/reactor/aeron/MessagePublication.java:376-396 | after a run of upstream signals the send holds a buffer exactly when it held one or some signal emitted one; no signal drops a held buffer |
| PublisherProcessor.AtMostOneRequestBetweenResets | reactor-aeron-core/src/main/java/reactor/aeron/MessagePublication.java:338-348 | across any sequence of requests, signals and offers without a reset, at most one request(1) reaches the upstream, and none from a disposed send |
| PublisherProcessor.DisposedStaysDisposed | reactor-aeron-core/src/main/java/reactor/aeron/MessagePublication.java:386-396 | no upstream signal revives a disposed send |
| PublisherProcessor.StartStampedOnce | reactor-aeron-core/src/main/java/reactor/aeron/MessagePublication.java:398-401 | the first offer of a buffer fixes its clock; later offers keep it |
| PublisherProcessor.ResetRearmsClock | reactor-aeron-core/src/main/java/reactor/aeron/MessagePublication.java:367-368 | after a live send's reset, the next offer stamps a new clock, and a new request may go out |
| PublisherProcessor.ResetBufferIdempotent | reactor-aeron-core/src/main/java/reactor/aeron/MessagePublication.java:410-416 | dropping the buffer twice releases it once |
| PublisherProcessor.DoneIsWriteOnce | reactor-aeron-core/src/main/java/reactor/aeron/MessagePublication.java:358-364 | once fired, the done signal never changes, whatever the upstream does |
| PublisherProcessor.RunKeepsConsistent | reactor-aeron-core/src/main/java/reactor/aeron/MessagePublication.java:386-389 | a recorded upstream error always comes with disposal |
| MessagePublication.Classify | reactor-aeron-core/src/main/java/reactor/aeron/MessagePublication.java:140-196 | sent iff the position is positive; fails iff the code is CLOSED or MAX_POSITION_EXCEEDED, or a transient code has strictly outlived its own timeout. Code by code, the verdict is the one the chain of `if`s at 149-196 gives, with that code's error; any other non-positive code is retried |
| MessagePublication.FirstOfferFailsOnlyWhenSlow | reactor-aeron-core/src/main/java/reactor/aeron/MessagePublication.java:162-196 | the first offer of a buffer with a transient reply fails exactly when more than that code's timeout passed between the stamp before the offer (400) and the check after it (407) |
| MessagePublication.TransientFailsOnceElapsed | reactor-aeron-core/src/main/java/reactor/aeron/MessagePublication.java:162-196 | a transient code is retried until its timeout has strictly elapsed, and fails at every later offer |
| MessagePublication.Judge | reactor-aeron-core/src/main/java/reactor/aeron/MessagePublication.java:132-138 | an exception from mapping or offering the buffer fails the offer with that exception; a returned position or code is classified |
| MessagePublication.Asked | reactor-aeron-core/src/main/java/reactor/aeron/MessagePublication.java:125-128 | a request(1) goes out exactly when none is outstanding, the send is live and subscribed, and the upstream's answer is delivered at once: a send with no buffer then holds the first buffer emitted. A held buffer is kept and a disposed send stays disposed |
| MessagePublication.AskedHoldsIffEmitted | reactor-aeron-core/src/main/java/reactor/aeron/MessagePublication.java:125-130 | after `request()` the send holds a buffer exactly when it held one already, or the request went out and the upstream emitted one in answer |
| MessagePublication.Tend | reactor-aeron-core/src/main/java/reactor/aeron/MessagePublication.java:125-147 | serving a send offers its buffer exactly when it holds one after `request()`. The offer records the stamp taken before it (399-401), the clock of the timeout check, the transport's reply and the policy's verdict. A sent buffer resets the send, which stays if live and leaves if finished (142-145). Any other verdict keeps the stamped send. A send with nothing to offer stays where it is, as written |
| MessagePublication.Serve | reactor-aeron-core/src/main/java/reactor/aeron/MessagePublication.java:117-147 | an occupied slot moves into `lastAvailableIndex` when a vacancy was recorded there, and its old slot is emptied. The send's new slot is empty exactly when one send retired. At most one judged offer is recorded, and as written nothing retires without an offer |
| MessagePublication.Visit | reactor-aeron-core/src/main/java/reactor/aeron/MessagePublication.java:96-147 | one iteration lowers `size` by at most one and takes at most one queued send, never while its slot is occupied. It leaves later slots alone and records at most one judged offer, for a slot no later than the one visited |
| MessagePublication.Scan | reactor-aeron-core/src/main/java/reactor/aeron/MessagePublication.java:96-201 | the loop keeps the array length, and takes queued sends only from the queue's head |
| MessagePublication.Enqueue | reactor-aeron-core/src/main/java/reactor/aeron/MessagePublication.java:61-69 | a new send joins the tail of the queue, and nothing else changes |
| MessagePublication.Admit | reactor-aeron-core/src/main/java/reactor/aeron/MessagePublication.java:87-94 | corrected admission fills free slots from `size` upward with queued sends, in queue order. It stops only when the queue is empty or the array is full |
| MessagePublication.Admission | reactor-aeron-core/src/main/java/reactor/aeron/MessagePublication.java:87-94 | as written, an empty working set takes the head of the queue into slot 0 with `size` 1, changing no other slot; a non-empty one is left as it is and nothing is polled up front. The corrected admission is `Admit` |
| MessagePublication.Pass | reactor-aeron-core/src/main/java/reactor/aeron/MessagePublication.java:78-201 | the pass reads the queue in order and never past its end |
| MessagePublication.Publish | reactor-aeron-core/src/main/java/reactor/aeron/MessagePublication.java:78-209 | an idle publication returns 0 and is left as it is; a pass never fires or closes the publication itself |
| MessagePublication.PublishCorrected | reactor-aeron-core/src/main/java/reactor/aeron/MessagePublication.java:78-209 | the same, for the pass with corrected admission and compaction |
| MessagePublication.PublishLoop | reactor-aeron-core/src/main/java/reactor/aeron/MessagePublication.java:78-209 | as `LoopReport` states: the loop makes at most one offer per visited slot and counts exactly the positive ones. Only the last offer can fail, and then its error becomes `lastError` and disposal is requested; otherwise both are kept. The queue loses at most one head send per visited slot, and slots beyond the visited ones are untouched. The result is also that of `Publish` |
| MessagePublication.Slots | reactor-aeron-core/src/main/java/reactor/aeron/MessagePublication.java:96-201 | the `for` loop stops at the bound or at the first error, with the loop's bookkeeping (`Looping`) kept at every slot and the rest of the loop computing the pass (`OnTrack`) |
| MessagePublication.WriteBack | reactor-aeron-core/src/main/java/reactor/aeron/MessagePublication.java:198-206 | the pass's working set and `size` are stored and the taken sends leave the queue's head. An error becomes `lastError` and requests disposal; without one both are kept. The done signal and the closed flag are untouched |
| MessagePublication.Init | reactor-aeron-core/src/main/java/reactor/aeron/MessagePublication.java:28-37 | a new publication has 256 empty slots, `size` 0, an empty queue, no error, no disposal request and a pending done signal |
| MessagePublication.DismissAll | reactor-aeron-core/src/main/java/reactor/aeron/MessagePublication.java:292-305 | every dismissed send has fired and holds no buffer |
| MessagePublication.Dismiss | reactor-aeron-core/src/main/java/reactor/aeron/MessagePublication.java:294-299 | a dismissed send ends disposed, holding nothing, with its held buffer released once and its done signal fired; a signal fired earlier keeps its value |
| MessagePublication.DismissAllCoversSlots | reactor-aeron-core/src/main/java/reactor/aeron/MessagePublication.java:292-305 | the dismissed sends are exactly the occupied slots' sends, each dismissed with the same error |
| MessagePublication.DisposeProcessors | reactor-aeron-core/src/main/java/reactor/aeron/MessagePublication.java:292-307 | every slot is emptied and `size` becomes 0. Every occupied slot's send is dismissed with `lastError`, or with the cancel error when there is none, and no other send is dismissed. The queue, `lastError` and the publication's done signal are untouched |
| MessagePublication.Close | reactor-aeron-core/src/main/java/reactor/aeron/MessagePublication.java:211-225 | off the event loop, close fails with a resource-disposal error and changes nothing. On it, whatever the underlying close throws, the working set is emptied and every send in it is dismissed with `lastError`, or the cancel error when there is none, and no other send is. The done signal fires (completion unless already fired), and the queue and `lastError` are kept |
| MessagePublication.Arrive | reactor-aeron-core/src/main/java/reactor/aeron/MessagePublication.java:376-396 | an upstream signal arriving between passes reaches only the addressed send, in its slot or in the queue; no slot is filled or emptied and the queue keeps its order |
| MessagePublication.RetryCount | reactor-aeron-core/src/main/java/reactor/aeron/MessagePublication.java:272-273 | at least one retry. From 100 ms on, the retries times 100 ms is the largest multiple of 100 ms within the connect timeout |
| MessagePublication.EnsureConnected | reactor-aeron-core/src/main/java/reactor/aeron/MessagePublication.java:269-290 | succeeds at the first probe that sees a connection, after waiting 100 ms per failed probe. With a connect timeout of at least 100 ms it never waits longer than that timeout; below 100 ms one failed probe still waits 100 ms. It fails with retries exhausted only after all 1 + RetryCount probes failed, having then waited RetryCount × 100 ms |
| PublicationProofs.ScanAccounts | reactor-aeron-core/src/main/java/reactor/aeron/MessagePublication.java:132-200 | over a whole loop, every offer is judged. The count is the number of positive offers. The loop's error is the verdict of its last offer and of no other |
| PublicationProofs.ScanFrame | reactor-aeron-core/src/main/java/reactor/aeron/MessagePublication.java:96-115 | slots at or beyond the loop bound are untouched, and `size` drops by at most one per slot visited |
| PublicationProofs.ScanRetiresFinished | reactor-aeron-core/src/main/java/reactor/aeron/MessagePublication.java:140-147 | the loop removes a send from the working set only after its done signal fired |
| PublicationProofs.VisitBackfills | reactor-aeron-core/src/main/java/reactor/aeron/MessagePublication.java:98-113 | while sends wait, a vacancy takes the queue's head and `size` is unchanged (101 and 109). Otherwise the vacancy is counted out of `size`, becomes the shift target, stops further backfills and makes no offer |
| PublicationProofs.VisitServes | reactor-aeron-core/src/main/java/reactor/aeron/MessagePublication.java:96-147 | the send served is the slot's occupant, or else the backfilled head of the queue; its offer and the send kept are those `Tend` gives, at the slot it shifts to |
| PublicationProofs.CorrectedScanLeavesNoStray | reactor-aeron-core/src/main/java/reactor/aeron/MessagePublication.java:100-123 | with the corrected compaction, an error-free loop leaves every slot from `size` on empty |
| PublicationProofs.PublishIdle | reactor-aeron-core/src/main/java/reactor/aeron/MessagePublication.java:87-91 | no send in the working set and none waiting: nothing changes, and the progress count is 0 |
| PublicationProofs.PublishServesHead | reactor-aeron-core/src/main/java/reactor/aeron/MessagePublication.java:87-147 | on an empty working set, the pass takes the head of the queue into slot 0, asks it for a buffer and offers that buffer exactly when it holds one; the progress is 1 exactly when that offer returned a positive position |
| PublicationProofs.AnsweredRequestIsOffered | reactor-aeron-core/src/main/java/reactor/aeron/MessagePublication.java:87-138 | a waiting send, live and subscribed with nothing requested, whose upstream answers the request with a buffer holds that buffer, and the pass offers it at slot 0 with the transport's reply |
| PublicationProofs.PublishCountsPositiveOffers | reactor-aeron-core/src/main/java/reactor/aeron/MessagePublication.java:140-142 | the progress count is the number of offers of the pass that returned a positive position |
| PublicationProofs.PublishFirstErrorDisposes | reactor-aeron-core/src/main/java/reactor/aeron/MessagePublication.java:198-206 | a failing offer is the pass's last offer, and no earlier offer failed. Its error becomes `lastError`, and disposal of the whole publication is requested. Without a failure, both stay as they were |
| PublicationProofs.PublishIsFifoAndRetiresFinished | reactor-aeron-core/src/main/java/reactor/aeron/MessagePublication.java:88-145 | the remaining queue is a suffix of the old one, and every send retired by the pass has fired |
| PublicationProofs.PublishKeepsAtMostOneInFlight | reactor-aeron-core/src/main/java/reactor/aeron/MessagePublication.java:87-110 | as written, with at most one send in the working set, a pass leaves at most one there and takes at most one from the queue |
| PublicationProofs.BusySlotBlocksQueue | reactor-aeron-core/src/main/java/reactor/aeron/MessagePublication.java:87-110 | as written, while one send occupies the working set, no queued send is admitted |
| PublicationProofs.AtMostOneInFlightIsInvariant | reactor-aeron-core/src/main/java/reactor/aeron/MessagePublication.java:61-69 | the initial state has at most one send in flight, and enqueueing, closing and a signal between passes keep it that way |
| PublicationProofs.ArriveKeepsShape | reactor-aeron-core/src/main/java/reactor/aeron/MessagePublication.java:376-396 | a signal between passes keeps the working set well formed and every send below `size` |
| PublicationProofs.AsWrittenCompactionStrandsSend | reactor-aeron-core/src/main/java/reactor/aeron/MessagePublication.java:111-123 | as written: sends at slots 0, 2 and 4 with `size` 5 and an empty queue end an error-free pass with `size` 3 and a send at slot 3 |
| PublicationProofs.PublishCorrectedAdmits | reactor-aeron-core/src/main/java/reactor/aeron/MessagePublication.java:87-94 | corrected pass: queued sends are taken from the head, at least as many as were waiting or as slots were free |
| PublicationProofs.PublishCorrectedLeavesNoStray | reactor-aeron-core/src/main/java/reactor/aeron/MessagePublication.java:96-123 | corrected pass: a pass without an error keeps every send below `size` |
| PublicationProofs.FinishedIdleSendBlocksForever | reactor-aeron-core/src/main/java/reactor/aeron/MessagePublication.java:125-130 | as written: a disposed send without a buffer, alone in the working set, makes every pass a no-op with progress 0 |
| PublicationProofs.EmptySend | reactor-aeron-core/src/main/java/reactor/aeron/MessagePublication.java:391-396 | a send whose publisher completes at subscription is disposed, holds no buffer and has completed |
| PublicationProofs.EmptyPublisherBlocksQueue | reactor-aeron-core/src/main/java/reactor/aeron/MessagePublication.java:61-130 | as written: a send of an empty publisher queued first takes slot 0. Every later pass then changes nothing, and the next send waits forever |
| PublicationProofs.LateCompletionBlocksQueue | reactor-aeron-core/src/main/java/reactor/aeron/MessagePublication.java:125-130 | as written: a live send with no buffer in slot 0 whose completion arrives between passes completes, and every later pass then changes nothing |
| PublicationProofs.CorrectedRetiresFinishedIdleSend | reactor-aeron-core/src/main/java/reactor/aeron/MessagePublication.java:125-130 | corrected pass: a finished send holding no buffer in slot 0 is retired by the next pass |
| PublicationProofs.PublishKeepsWf | reactor-aeron-core/src/main/java/reactor/aeron/MessagePublication.java:78-209 | both passes keep 256 slots and `size` within 0..256 |
| PublicationProofs.DismissSignals | reactor-aeron-core/src/main/java/reactor/aeron/MessagePublication.java:294-299 | disposal fires, disposes and releases any held buffer exactly once. A live, subscribed, bufferless pending send completes successfully; every other pending send fails with the error |
| PublicationProofs.DismissAllEmpty | reactor-aeron-core/src/main/java/reactor/aeron/MessagePublication.java:292-305 | an empty working set dismisses nothing |
| PublicationProofs.CloseIsIdempotent | reactor-aeron-core/src/main/java/reactor/aeron/MessagePublication.java:211-225 | a second close on the event loop changes neither the working set, nor the done signal, nor the retired sends, and the queue is still the original one |
| HeartbeatWatchdog.TimeoutNs | reactor-aeron-core/src/main/java/reactor/aeron/HeartbeatWatchdog.java:35 | the timeout is always a valid long |
| HeartbeatWatchdog.TimeoutNsScales | reactor-aeron-core/src/main/java/reactor/aeron/HeartbeatWatchdog.java:35 | for intervals up to 6 148 914 691 236 ms, the timeout is 1.5 intervals rounded down to whole millis, in nanos. Above that, up to a third of the long range, it saturates to the largest long |
| HeartbeatWatchdog.OneSecondInterval | reactor-aeron-core/src/main/java/reactor/aeron/HeartbeatWatchdog.java:35 | 1000 ms gives 1 500 000 000 ns |
| HeartbeatWatchdog.New | reactor-aeron-core/src/main/java/reactor/aeron/HeartbeatWatchdog.java:33-37 | a new watchdog has empty tables and the computed timeout |
| HeartbeatWatchdog.Add | reactor-aeron-core/src/main/java/reactor/aeron/HeartbeatWatchdog.java:46-75 | add stamps the session with `now` and appends a live timer with a period of two intervals (on longs). It registers that timer as the session's handle; earlier timers are untouched |
| HeartbeatWatchdog.Remove | reactor-aeron-core/src/main/java/reactor/aeron/HeartbeatWatchdog.java:86-91 | remove drops the handle and disposes exactly the registered timer. Timestamps are kept, and an unknown session changes nothing |
| HeartbeatWatchdog.HeartbeatReceived | reactor-aeron-core/src/main/java/reactor/aeron/HeartbeatWatchdog.java:93-95 | a heartbeat sets the session's time to `now` only if the session has one; no session is ever added |
| HeartbeatWatchdog.Check | reactor-aeron-core/src/main/java/reactor/aeron/HeartbeatWatchdog.java:64-73 | the lost callback runs iff the timer is live and the loss predicate holds. A disposed timer never runs it. A missing timestamp is the only failure |
| HeartbeatWatchdog.Lost | reactor-aeron-core/src/main/java/reactor/aeron/HeartbeatWatchdog.java:68-70 | the loss test on wrapping longs never holds for a negative data time; `LostWithoutOverflow` gives its exact meaning |
| HeartbeatWatchdog.NegativeSignalNeverLost | reactor-aeron-core/src/main/java/reactor/aeron/HeartbeatWatchdog.java:68-70 | a negative data time never yields loss |
| HeartbeatWatchdog.LostWithoutOverflow | reactor-aeron-core/src/main/java/reactor/aeron/HeartbeatWatchdog.java:68-70 | without overflow: lost iff the heartbeat silence exceeds the timeout, and either the data time is 0 or it is positive with silence exceeding the timeout |
| HeartbeatWatchdog.LossPersists | reactor-aeron-core/src/main/java/reactor/aeron/HeartbeatWatchdog.java:68-70 | without new signals or overflow, a lost session stays lost later |
| HeartbeatWatchdog.RecentDataKeepsAlive | reactor-aeron-core/src/main/java/reactor/aeron/HeartbeatWatchdog.java:68-70 | data no older than the timeout prevents loss, however long the heartbeat silence |
| HeartbeatWatchdog.WorkedExample | reactor-aeron-core/src/main/java/reactor/aeron/HeartbeatWatchdog.java:68-70 | with a 1000 ms interval, 1.6 s of heartbeat silence is lost with data time 0, and not lost with data 0.5 s old |
| HeartbeatWatchdog.ValidIsInvariant | reactor-aeron-core/src/main/java/reactor/aeron/HeartbeatWatchdog.java:46-95 | add, remove and heartbeat keep every timer's session timestamped, and keep every handle naming a live timer of its own session |
| HeartbeatWatchdog.ValidChecksDecide | reactor-aeron-core/src/main/java/reactor/aeron/HeartbeatWatchdog.java:65 | in a valid watchdog, no check fails to find its timestamp |
| HeartbeatWatchdog.RemoveKeepsTimestamp | reactor-aeron-core/src/main/java/reactor/aeron/HeartbeatWatchdog.java:86-95 | after remove, a heartbeat still updates the session's timestamp |
| HeartbeatWatchdog.HeartbeatDefersLoss | reactor-aeron-core/src/main/java/reactor/aeron/HeartbeatWatchdog.java:93-95 | with a non-negative timeout, a check at the time of a heartbeat finds the session alive |
| HeartbeatWatchdog.RemoveSilences | reactor-aeron-core/src/main/java/reactor/aeron/HeartbeatWatchdog.java:86-91 | with one timer per session, after remove no timer of the session runs the lost callback |
| HeartbeatWatchdog.DoubleAddLeaksTimer | reactor-aeron-core/src/main/java/reactor/aeron/HeartbeatWatchdog.java:48-62 | as written, after a second add and then remove, the first timer is still live and unregistered |
| HeartbeatWatchdog.AddReplacing | reactor-aeron-core/src/main/java/reactor/aeron/HeartbeatWatchdog.java:46-62 | corrected add: the same timestamp and handle tables as add |
| HeartbeatWatchdog.AddReplacingKeepsSingleTimer | reactor-aeron-core/src/main/java/reactor/aeron/HeartbeatWatchdog.java:46-91 | corrected add keeps every live timer registered as its session's handle |
| ClientControl.Init | reactor-aeron-core/src/main/java/reactor/aeron/client/ClientControlMessageSubscriber.java:28-36 | a new subscriber has an empty table, no slots and no completed sessions |
| ClientControl.Resolve | reactor-aeron-core/src/main/java/reactor/aeron/client/ClientControlMessageSubscriber.java:54-55 | a waiting slot takes the value; a resolved or cancelled slot is unchanged |
| ClientControl.CancelSink | reactor-aeron-core/src/main/java/reactor/aeron/client/ClientControlMessageSubscriber.java:119 | a waiting slot becomes cancelled; a finished slot is unchanged |
| ClientControl.SubscribeForConnectAck | reactor-aeron-core/src/main/java/reactor/aeron/client/ClientControlMessageSubscriber.java:95-99 | a new waiting slot is registered under the id, replacing any earlier entry, and is returned with the id |
| ClientControl.OnConnectAck | reactor-aeron-core/src/main/java/reactor/aeron/client/ClientControlMessageSubscriber.java:52-56 | a registered id is removed and exactly its slot is resolved with (session id, stream id); an unknown id changes nothing |
| ClientControl.Dispose | reactor-aeron-core/src/main/java/reactor/aeron/client/ClientControlMessageSubscriber.java:117-120 | dispose removes the id's entry, whichever slot it names, and cancels only the subscription's own slot |
| ClientControl.OnHeartbeat | reactor-aeron-core/src/main/java/reactor/aeron/client/ClientControlMessageSubscriber.java:60-62 | only the watchdog changes, by a heartbeat for exactly that session |
| ClientControl.OnComplete | reactor-aeron-core/src/main/java/reactor/aeron/client/ClientControlMessageSubscriber.java:74-77 | the handler receives exactly that session id, and nothing else changes |
| ClientControl.Handle | reactor-aeron-core/src/main/java/reactor/aeron/client/ClientControlMessageSubscriber.java:44-93 | CONNECT changes nothing. CONNECT_ACK removes its id from the table and resolves the slot registered under it; only it touches the table and slots. Only HEARTBEAT touches the watchdog, and only COMPLETE reaches the handler |
| ClientControl.HandleAll | reactor-aeron-core/src/main/java/reactor/aeron/client/ClientControlMessageSubscriber.java:44-93 | any message sequence keeps the table valid and creates no slot |
| ClientControl.ValidSlotsAreDistinct | reactor-aeron-core/src/main/java/reactor/aeron/client/ClientControlMessageSubscriber.java:95-99 | two different ids in the table never name the same slot, because each slot records the id it was created for |
| ClientControl.ValidIsInvariant | reactor-aeron-core/src/main/java/reactor/aeron/client/ClientControlMessageSubscriber.java:52-120 | subscribe, ack and dispose keep every entry naming a distinct waiting slot created for its id |
| ClientControl.AckResolvesOnce | reactor-aeron-core/src/main/java/reactor/aeron/client/ClientControlMessageSubscriber.java:52-56 | an ack resolves the registered slot with its contents, and a duplicate ack changes nothing |
| ClientControl.FinishedSinkStays | reactor-aeron-core/src/main/java/reactor/aeron/client/ClientControlMessageSubscriber.java:52-56 | a resolved or cancelled slot keeps its state under any later messages |
| ClientControl.DisposeThenAckIsIgnored | reactor-aeron-core/src/main/java/reactor/aeron/client/ClientControlMessageSubscriber.java:117-120 | after dispose, the slot is no longer waiting, and an ack for the id changes nothing |
| ClientControl.StaleDisposeOrphansNewer | reactor-aeron-core/src/main/java/reactor/aeron/client/ClientControlMessageSubscriber.java:95-120 | disposing an older subscription of a reused id cancels the old slot and unregisters the newer one, which an ack then never reaches |
| ClientControl.ForwardingIsExact | reactor-aeron-core/src/main/java/reactor/aeron/client/ClientControlMessageSubscriber.java:44-77 | an ack is handled exactly as `onConnectAck`, and heartbeat and complete forward exactly their session id |

### Behaviour worth knowing

Each of these follows from the code at the lines cited.

- **Timeouts fail the whole publication.** A transient code past its
  timeout sets the same exception variable as a fatal code (MP 162-196). It
  therefore ends the pass and disposes the whole publication (MP 198-206),
  not only the send whose offer timed out.
- **The queue survives disposal.** `disposeProcessors` empties the working
  set but leaves the waiting queue untouched (MP 292-307). Those sends never
  get a done signal from it (`DisposeProcessors`, `CloseIsIdempotent`).
- **Cancellation can mask the error.** `disposeProcessors` cancels before
  reporting the parent error. An idle, live, subscribed send is therefore
  reset by its finally hook and completes successfully. The later error is
  dropped by the one-shot signal (MP 296-299, `DismissSignals`).
- **A second `add` does not replace the timer.** It overwrites the handle
  and leaves the earlier timer running (HW 55-62; Findings).
- **Stale dispose removes a newer request.** Dispose removes by id, so
  disposing an old subscription of a reused id unregisters the newer one
  (`StaleDisposeOrphansNewer`).
- **Remove keeps the timestamp.** `remove` does not delete the session's
  timestamp, so a later heartbeat for it still updates that timestamp
  (`RemoveKeepsTimestamp`).

### Library behaviour written out

The Reactor base classes are not part of this model. Their behaviour is
written out as follows:

- **`BaseSubscriber.cancel`** runs the finally hook only when it cancels a
  subscription that is live (`Cancel`).
- **`BaseSubscriber` signals.** `onError` and `onComplete` are ignored once
  the subscriber is disposed. An exception thrown by `hookOnNext` turns into
  `onError` (`OnNext`).
- **`MonoProcessor`** keeps its first terminal signal (`Fire`, `Resolve`).
  Its `cancel` on a waiting processor makes it drop a later value
  (`CancelSink`).
- **`retryBackoff(n, 100 ms, 100 ms)`** waits exactly 100 ms between probes.
  The first and largest backoff are equal, so the jitter is clamped to zero
  (`EnsureConnected`).

## Left out

- Logging, `toString`, `sessionId()` and `isDisposed()`. They only log or
  delegate to the transport.
- The bodies of `publication.offer`, `publication.close` and
  `publication.isConnected`, and of `bufferHandler.map`, `estimateLength`
  and `dispose`. These are oracles in `Env` or arguments. A thrown exception
  is the reply `Threw`.
- `dispose()` of the publication. Its request to the event loop is the flag
  `disposeRequested`, and the event loop itself is not part of this model.
- Threads and memory visibility. The queue is a sequence, and the concurrent
  maps are Dafny maps.
- `inEventLoop()` is the boolean argument of `Close`.
- The scheduler of `HeartbeatWatchdog`. Periods are recorded on each timer,
  but when a timer fires is left to the caller of `Check`.
- Clocks. `System.currentTimeMillis` and `System.nanoTime` are arguments.
  The code reads the millisecond clock at the first offer of a buffer
  (MP 399-401) and after each transient reply (MP 407). `Env` gives both
  readings for every visited slot, and nothing relates readings of
  different slots.
- Concurrency of upstream signals with a pass. A signal arriving during a
  pass is modelled only as the answer to that pass's request. Any other
  signal is an `Arrive` step between passes.
- MessagePublication.Classify: the millisecond subtraction of
  `isTimeoutElapsed` is on unbounded integers, because millisecond clock
  values are far from the long range.
- MessagePublication.Close: the exception thrown by the transport's close is
  returned as a value rather than propagated.
- Rejection of a non-positive period by `schedulePeriodically` is not
  modelled. `Add` records whatever period `2 × interval` gives.
- The data path (inbound subscribers, the server side, the benchmarks and
  demos) is not part of this model.

## Findings

| source | as written | input that shows it | evidently intended | confidence | as-written member | corrected member |
|---|---|---|---|---|---|---|
| reactor-aeron-core/src/main/java/reactor/aeron/MessagePublication.java:87-110 | The queue is polled up front only when `size` is 0, and then only once. A backfill during the loop is net zero on `size` (decrement at 101, increment at 109). So `size` never exceeds 1. | One send waiting on its upstream occupies slot 0 with `size` 1, and a second send is queued. Every pass leaves the second send queued until the first one finishes. | Up to 256 sends in the working set at once, with free slots filled from the queue. | high (not executed) | PublicationProofs.PublishKeepsAtMostOneInFlight | PublicationProofs.PublishCorrectedAdmits |
| reactor-aeron-core/src/main/java/reactor/aeron/MessagePublication.java:111-113 | Every vacancy met after the queue ran dry overwrites `lastAvailableIndex`. The next send then shifts into the newest vacancy rather than the lowest one. | Sends at slots 0, 2 and 4, `size` 5, empty queue. The pass ends with `size` 3 and a send at slot 3, which no later pass visits. | Later sends shift into the lowest vacancy, so every send stays below `size`. | high (not executed) | PublicationProofs.AsWrittenCompactionStrandsSend | PublicationProofs.PublishCorrectedLeavesNoStray |
| reactor-aeron-core/src/main/java/reactor/aeron/MessagePublication.java:125-130 | A send is taken out of its slot only after a successful offer (142-145). A send that finishes while holding no buffer — its publisher completed or failed before emitting — keeps its slot forever: `request()` returns at once for a disposed send, and the loop moves on. | `publish` of an empty publisher is queued first, then any other send. The first pass puts the empty send in slot 0 with `size` 1, and every later pass is a no-op that leaves the other send queued. | A finished send leaves the working set and frees its slot. | medium (not executed) | PublicationProofs.EmptyPublisherBlocksQueue | PublicationProofs.CorrectedRetiresFinishedIdleSend |
| reactor-aeron-core/src/main/java/reactor/aeron/HeartbeatWatchdog.java:55-62 | A second `add` for a session overwrites the handle and does not dispose the timer it replaces. | `add(s)`, `add(s)`, then `remove(s)`: the first timer keeps running and can still report `s` lost. | `add` replaces the earlier timer, so `remove` silences the session. | medium (not executed) | HeartbeatWatchdog.DoubleAddLeaksTimer | HeartbeatWatchdog.AddReplacingKeepsSingleTimer |

The first finding makes the second unreachable as written, because the
working set never holds two sends. Once admission is corrected, the second
finding matters. Together with the first, the third finding turns one
empty publisher into a publication that never sends again. A completion
that reaches an idle send in slot 0 between passes has the same effect
(`LateCompletionBlocksQueue`).
`PublishCorrected` corrects all three: it admits every waiting send that
fits, keeps the first vacancy as the target of later shifts, and retires a
finished send that holds no buffer.
