# A Dafny model of the manager/task framework

The repository runs one manager process and up to ten tasks. The manager keeps a
16-slot table of pending requests; a request goes to a task as a message in a POSIX
queue, short payloads inside the message and long ones in a shared-memory segment
keyed by the sequence number; the task's answer comes back the same way and runs the
callback registered with the request. Requests time out, timers fire, windows are
switched, and every callback may call back into the same tables while a sweep over
them is under way.

## How the model is laid out

| file | what it holds |
|---|---|
| `Base`, `Deadline` | constants and error codes; `timeradd`, `IsTimeOver`, the receive deadline |
| `Net`, `Wire`, `Ipc` | the transport at message level; the packed little-endian bytes and the receiver's 32-bit length checks; `Ipc.Port`, the imperative byte-level transport, tied to `Net` through `Decode` |
| `Pending` | the pending-request table as functions on a state `Mgr` |
| `SlotTable`, `Timers`, `Notifies` | the timer and notify tables and the bounded map they stand for |
| `TimerSweeps` | what one timer sweep does to every timer, under any callbacks |
| `Gui` | `GuiContext`: arrays, counter and port updated in place, each method tied to the functions above |
| `Protocol`, `Trace` | manager and tasks as one step system; every step taken apart into what it does to the transport and its effects on the table, in order |
| `ProtocolFrames`, `ProtocolSteps`, `ProtocolTasks`, `ProtocolRuns` | the invariant, and the proof that every effect and every step keeps it |
| `Theorems`, `Outcomes`, `Segments`, `Occupancy`, `Stranding`, `LongRuns` | what follows for whole runs |
| `Scripts`, `Delivery`, `Sweeps` | what one delivery and one timeout sweep do, with callbacks |
| `Calls`, `ConsoleRuns` | what callers observe, in the numbers of the headers: routing, packets, return codes; and a request all the way to its task and back |
| `Leaks`, `Collision`, `SelfRequests` | runs that go wrong |
| `LineEditor`, `Scanner`, `FakeLines` | the debug console: editor, scanner, and the printed lines it reads back |
| `Strings`, `RandomGen` | the bounded string builder and the generator |

A state of the system holds the pending table, the sequence counter, one FIFO per task,
the manager's FIFO, the shared-memory map, the handle each task holds, and three
histories: the record of every accepted request (`recs`), the answer given to every
handle (`answers`), and the log of callback invocations (`log`). The steps are: API
calls made by some callback (`User`), delivery of one message, a timeout sweep, a task
receiving, answering or abandoning a request, and a console request. A callback is not
a fixed program: each invocation is given an arbitrary finite script of API calls
(request, register or deregister a timer, register a notification, load a window), so
a callback that registers itself again, refills the slot being swept, or clears every
table is covered. Every system call can be made to fail. `Enabled` asks only for the
ranges of the C types and for the order in a task's main loop: it receives with empty
hands and answers only a handle it holds.

`IsTimeOver`, `LoadWindow`, `ProcessIpcMessages` and the main loop are those of
`src/tsk/mgr/gui/main.c` (lines 27-41, 64-95, 110-183 and 207-249). That file is not
UTF-8 text, so rows about them cite the declarations in `src/tsk/mgr/inc/gui_local.h`.

## Findings

- Both response handlers take the sequence number as a `USHORT`. A response finds its
  request if and only if the number is below 65536 (`Delivery.CorrelationLimit` for the
  short handler, `Delivery.CorrelationLimitLong` for the long one). Beyond that it can
  complete a stranger's request, and a run gets there (`Collision.CollisionRun`). The
  run theorems therefore assume that at most 65535 numbers have been issued;
  `LongRuns.RunNumbered` is what holds up to 2^32.
- Segments leak, also when no system call fails: a long request addressed to the manager
  (`Leaks.ManagerLongLeaks`) and a long request received into too small a buffer
  (`Leaks.SmallBufferLeaks`) are consumed and leave their segments. `Segments.StepLeak`
  names every leak as a condition on the step: a long request that is accepted and fails
  after `shmget`; a long request that reaches the manager; a long receive that is refused
  or fails before removal; a long answer that fails after `shmget`; a long answer whose
  delivery fails before removal. Segments are conserved throughout a run if and only if
  no step leaks (`Segments.SegmentConservation`), and with leaks the account is still
  exact (`Segments.SegmentAccounting`).
- A request issued by a timeout callback can be swept away by the sweep that is running:
  three requests with timeout 0 are enough (`Sweeps.ZeroTimeoutRun`). It survives if and
  only if its slot, the first free one, has been passed or its timeout has not elapsed,
  and neither its own callback nor a later one loads a window
  (`Sweeps.IssuedDuringSweep`); `Sweeps.SweepFate` says the same of every request.
- In the same way a timer registered by a timer callback can fire in the sweep that is
  running: from the empty table, a callback that registers two timers with timeout 0 gets
  the second one called at once (`TimerSweeps.ZeroTimerFires`). A timer registered during
  a sweep, and not registered again, fires in it if and only if its slot, the first free
  one, is still to come, its timeout has elapsed and nobody removes it first
  (`TimerSweeps.RegisteredOnce`); `TimerSweeps.SweepFate` and
  `TimerSweeps.SweepFateById` say the same of every timer.
- A short request addressed to the manager itself goes into its own inbox, where delivery
  turns it into another such request (`SelfRequests.SelfRequestReturns`), until all
  sixteen slots are taken for an hour (`SelfRequests.ConsoleFillsTable`).
- Such requests, and all others whose message or answer gets lost, are stranded: their
  slots wait although nothing in flight can free them. `Stranding.StepStrands` names every
  way as a condition on the step: an accepted call of Request that addresses the manager,
  by a callback or by a delivered short request; a receive that fails; a Response that
  fails although it has a payload; an abandoned handle; a long response whose segment
  cannot be taken. While nothing times out and no window is loaded, used slots equal what
  is in flight if and only if no step so far strands a request
  (`Stranding.LoadIsOccupied`).
- The length check in `WaitForRequest` is only as good as the capacity check before it:
  it keeps payloads inside the received bytes if and only if the capacity is at most
  2^32 - 12 (`Wire.CapacityLimit`). Nor does the capacity check do without the length
  check, which refuses exactly the short messages whose payload does not end with the
  received bytes (`Wire.LengthCheckNeeded`).
- The line editor drops a `$` that arrives as the character that fills the buffer, and
  what follows it, so that a whole command typed there is lost
  (`LineEditor.CommandIsLost`). Its buffer is the expected one after every prefix of the
  input if and only if that never happens (`LineEditor.EditorIsTextSinceHeader`); the
  lines it hands on are the expected ones if and only if no line feed ends a text whose
  `$` was dropped (`LineEditor.LinesAreTextLines`).
- The number scanner throws away whole groups of eleven digits: a run of digits is read
  right if and only if its length is no multiple of eleven, the groups thrown away are
  zeros and its value is below 2^31 (`Scanner.NumbersAreReadRight`).
- A printed field comes back through the scanner if and only if it is below 2^31, where
  `%d` starts to print a minus sign (`FakeLines.RoundTrip`).

## Model

| member | source | states |
|---|---|---|
| Deadline.ExpiresAtExact | src/tsk/mgr/gui/request.c:150-153 | from any normalised time and any timeout one carry gives a normalised deadline exactly that many milliseconds later |
| Deadline.RecvDeadlineExact | src/lib/ipc/ipc.c:120-126 | the receive deadline is the same instant to the nanosecond, normalised after one carry, and the sum before the carry fits a signed 32-bit long |
| Deadline.IsTimeOverIsOrder | src/tsk/mgr/inc/gui_local.h:82-82 | comparing seconds, then microseconds, is comparing instants, for normalised values |
| Deadline.OverWhenElapsed | src/tsk/mgr/gui/timer.c:49-52 | a deadline is over exactly when its timeout has elapsed, and never at or before the time it was set if the timeout is positive |
| Net.CreateWrite | src/tsk/mgr/gui/request.c:69-83 | under an unused key shmget succeeds and the segment then holds exactly the payload |
| Net.SendRequestEffect | src/tsk/mgr/gui/request.c:22-116 | a send that succeeds appends one message to the addressed queue and leaves a segment exactly for a long payload; one that fails touches no queue |
| Net.ResponseEffect | src/lib/ipc/ipc.c:396-482 | Response fails with a parameter error exactly for an empty or NULL payload; on success one message joins the manager's queue, with a segment exactly for a long payload |
| Net.ReceivedIsWritten | src/lib/ipc/ipc.c:374-379 | what a receiver is told it received is what has been written to its buffer and outputs |
| Wire.DecodeEncode | src/inc/ipc.h:54-79 | decoding the packed layout returns every field and the payload |
| Wire.EncodeDecode | src/inc/ipc.h:54-79 | every packet with a whole header is the encoding of what it decodes to |
| Wire.AcceptedIsInside | src/lib/ipc/ipc.c:349-381 | whatever the buffer holds, a short message accepted under a capacity of at most 2^32 - 12 has its payload end where the received bytes end |
| Wire.CapacityLimit | src/lib/ipc/ipc.c:361-373 | all accepted short messages lie inside the received bytes if and only if the capacity is at most 2^32 - 12 |
| Wire.LengthCheckNeeded | src/lib/ipc/ipc.c:361-369 | the length check refuses exactly the short messages whose payload does not end with the received bytes and decides nothing else; without it, accepted payloads lie inside the received bytes if and only if as many bytes have come as the header and the largest payload take |
| Wire.CheckRefines | src/lib/ipc/ipc.c:349-391 | on a received message the 32-bit checks decide exactly what the field comparison decides, whatever else is in the buffer |
| Wire.AcceptedReencodes | src/lib/ipc/ipc.c:366-380 | an accepted short message re-encodes to exactly the received bytes |
| Wire.ShortRequestRoundTrip | src/tsk/mgr/gui/request.c:37-46 | what Request sends short, WaitForRequest accepts with the same number, identifier and payload, for every payload that fits |
| Wire.ManagerLengthCheck | src/inc/ipc.h:14-17 | the manager's wrapping length comparison holds exactly when the payload has the announced size |
| Calls.TaskOfIs | src/tsk/mgr/inc/gui_local.h:6-6 | the identifier DECLARE_REQ_ID(t, n) names task t |
| Calls.RequestRouted | src/tsk/mgr/gui/request.c:22-116 | an accepted request with identifier DECLARE_REQ_ID(t, n) appends one message to the queue of task t and to no other: number, identifier, size and up to 500 bytes, or a segment with the payload |
| Calls.AnswerRouted | src/lib/ipc/ipc.c:396-482 | a successful Response appends one message to the manager's queue and to no other, with the payload inside up to 500 bytes and in a segment beyond |
| Calls.PacketImage | src/inc/ipc.h:64-73 | the packet of a short request, byte by byte |
| Calls.SendCodes | src/lib/ipc/ipc.c:153-184 | 6 for task 0 and beyond 11, 5 for a failed mq_send, otherwise 0 and one message in that queue |
| Calls.RequestCodes | src/tsk/mgr/gui/request.c:22-161 | the return code of Request for every call, table and failure, in the order of its checks |
| Calls.ResponseCodes | src/lib/ipc/ipc.c:396-482 | the return code of Response for every call and failure |
| Calls.WaitForRequestCodes | src/lib/ipc/ipc.c:295-394 | the return code of WaitForRequest for every message, capacity and failure |
| Calls.LongResponseCodes | src/tsk/mgr/gui/request.c:217-262 | 17, 18 and 19 for the three failing calls, and 0 once the segment has been removed, whatever the scan finds |
| Calls.MissingSegmentIsZero | src/lib/ipc/ipc.c:303-318 | a long request whose segment is missing is received as zeros |
| Ipc.Port.constructor | src/lib/ipc/ipc.c:82-107 | eleven empty queues and no segment |
| Ipc.Port.SendIpcMessage | src/lib/ipc/ipc.c:153-184 | rejects task 0 and tasks beyond 11, otherwise appends the packet to the addressed queue only |
| Ipc.Port.ShmCreate | src/lib/ipc/ipc.c:303-307 | shmget with IPC_CREAT: fails exactly when an existing segment is too small, and creates a zeroed one only under a new key |
| Ipc.Port.SendShort | src/lib/ipc/ipc.c:402-415 | the header filled field by field and the copied payload are, decoded, the short message |
| Ipc.Port.SendLong | src/lib/ipc/ipc.c:451-463 | the bare header is, decoded, the long message |
| Ipc.Port.SendShortResponse | src/lib/ipc/ipc.c:396-420 | is the message-level short response, error path included |
| Ipc.Port.SendLongResponse | src/lib/ipc/ipc.c:422-468 | is the message-level long response on every error path, segments left behind included |
| Ipc.Port.Response | src/lib/ipc/ipc.c:470-482 | refuses empty payloads and splits short from long at 512 bytes as the message-level response does |
| Ipc.Port.RecvIpcMessage | src/lib/ipc/ipc.c:109-151 | removes the oldest packet of the task's queue, and no other, into the front of the buffer |
| Ipc.Port.ReceiveLongRequest | src/lib/ipc/ipc.c:295-333 | status, segments, outputs and buffer after every failure point: outputs and payload are written once the segment is attached, whatever fails later, and the segment is gone exactly once it has been removed |
| Ipc.Port.TakeRequest | src/lib/ipc/ipc.c:354-393 | from raw bytes to status, segments, outputs and buffer exactly as at message level, for any junk behind the received bytes, on success and on every failure |
| Ipc.Port.WaitForRequest | src/lib/ipc/ipc.c:335-394 | NULL arguments, receive errors and an empty queue change nothing and return 7, 3 and 2; otherwise the head of the task's own queue is consumed and yields what the message-level receive yields; for a request as it was sent, with no failure and room for it, that is 0, its number in the handle, its identifier, its size and its bytes |
| Ipc.SentIsHanded | src/lib/ipc/ipc.c:295-394 | for a request as it was sent: the return code of every failure, outputs and buffer untouched by the first three errors and written in spite of the last two, and then holding number, identifier, size and bytes |
| Gui.GuiContext.constructor | src/tsk/mgr/gui/request.c:19-19 | the initial state of the step system, with cleared timer and notify tables |
| Gui.GuiContext.SendShortRequest | src/tsk/mgr/gui/request.c:22-57 | sends the slot's number and identifier, and clears the slot exactly on failure |
| Gui.GuiContext.SendLongRequest | src/tsk/mgr/gui/request.c:59-116 | as above through a segment, with the five failure points in order |
| Gui.GuiContext.FindFreeRequest | src/tsk/mgr/gui/request.c:135-140 | finds the first slot with identifier 0, or 16 |
| Gui.GuiContext.Request | src/tsk/mgr/gui/request.c:118-161 | result and whole new state are those of the specification function |
| Gui.GuiContext.ClearRequests | src/tsk/mgr/gui/request.c:163-172 | every slot is cleared and every waiting request dropped |
| Gui.GuiContext.RegisterTimerCallback | src/tsk/mgr/gui/timer.c:12-55 | table and error code are those of a registration in the slot table, which `Timers.RegisterCodes` and `Timers.BoundAfter` spell out |
| Gui.GuiContext.DeregisterTimer | src/tsk/mgr/gui/timer.c:80-102 | table and error code are those of a deregistration, which `Timers.DeregisterCodes` and `Timers.BoundAfter` spell out |
| Gui.GuiContext.ClearTimers | src/tsk/mgr/gui/timer.c:104-113 | the table is empty |
| Gui.GuiContext.RegisterNotifyCallback | src/tsk/mgr/gui/notify.c:9-44 | table and error code are those of a registration in the slot table, which `Notifies.RegisterCodes` and `Notifies.BoundAfter` spell out |
| Gui.GuiContext.ClearNotifies | src/tsk/mgr/gui/notify.c:62-71 | the table is empty |
| Gui.GuiContext.LoadWindow | src/tsk/mgr/inc/gui_local.h:61-79 | clears all three tables and drops every waiting request, and does nothing for the invalid window |
| Gui.GuiContext.RunScript | src/tsk/mgr/gui/request.c:188-192 | a callback's API calls act on the three tables in order, as the specification scripts do; what those leave registered is `Timers.BoundAfter` and `Notifies.BoundAfter` |
| Gui.GuiContext.FinishRequest | src/tsk/mgr/gui/request.c:206-212 | the slot is cleared before its callback runs, and the callback runs exactly if it is not NULL |
| Gui.GuiContext.TimeoutTurn | src/tsk/mgr/gui/request.c:185-195 | one turn of the sweep, on all three tables |
| Gui.GuiContext.ProcessResponseTimeouts | src/tsk/mgr/gui/request.c:175-196 | the loop over the live table is the specified sweep, with callbacks changing the tables under it |
| Gui.GuiContext.ProcessMatches | src/tsk/mgr/gui/request.c:205-214 | the scan, which stops only at a match with a callback, is the specified one; at most one script runs |
| Gui.GuiContext.ProcessShortResponses | src/tsk/mgr/gui/request.c:198-215 | result state is the specified one |
| Gui.GuiContext.ProcessLongResponses | src/tsk/mgr/gui/request.c:217-262 | the segment's bytes reach the scan and the segment is removed first; each failure returns its own code with nothing completed |
| Gui.GuiContext.ProcessNotifies | src/tsk/mgr/gui/notify.c:47-60 | runs exactly the callback that the table binds to the identifier, with the given data |
| Gui.GuiContext.TimerTurn | src/tsk/mgr/gui/timer.c:69-76 | one turn of the timer sweep: the slot is cleared before the callback runs |
| Gui.GuiContext.ProcessTimers | src/tsk/mgr/gui/timer.c:58-78 | the loop over the live table is the specified sweep and fires exactly its ticks |
| Gui.GuiContext.Dispatch | src/tsk/mgr/inc/gui_local.h:72-78 | the type switch, with the number cut to 16 bits for both response handlers |
| Gui.GuiContext.ProcessIpcMessages | src/tsk/mgr/inc/gui_local.h:72-78 | reading the fields from the raw buffer and testing lengths in 32-bit arithmetic delivers what the message-level step delivers |
| ProtocolSteps.FinishInv | src/tsk/mgr/gui/request.c:206-212 | clearing a slot and reporting its request keeps the invariant, re-entrant callback not yet run |
| Trace.NextTrace | src/tsk/mgr/gui/request.c:118-262 | every step is what it does to the transport followed by calls of Request, window changes and freed slots, in order |
| ProtocolSteps.ClearInv | src/tsk/mgr/gui/request.c:163-172 | clearing all requests keeps the invariant with answers still in flight |
| ProtocolSteps.RequestInv | src/tsk/mgr/gui/request.c:118-161 | every outcome of Request keeps the invariant, and a failed Request restores table and history exactly |
| ProtocolTasks.WaitForRequestEffect | src/lib/ipc/ipc.c:335-394 | a task gets the identifier and bytes given to Request over either transport, and a received long request's segment is gone |
| ProtocolTasks.HeadIsOldest | src/lib/ipc/ipc.c:128-128 | the head of a task's queue is the oldest request still queued for it |
| ProtocolTasks.QueuedAnswersPrecede | src/lib/ipc/ipc.c:471-482 | the answers a task has queued all precede the request it holds |
| ProtocolTasks.HeadAnswerIsOldest | src/lib/ipc/ipc.c:470-482 | the answer at the head of the inbox is the oldest unreported one of its task |
| ProtocolTasks.ReceiveInv | src/lib/task_main/task_main.c:35-47 | a task's receive, successful or failed, keeps the invariant |
| ProtocolTasks.RespondInv | src/lib/ipc/ipc.c:470-482 | a task's Response, successful or failed, keeps the invariant |
| ProtocolTasks.AbandonInv | src/lib/task_main/task_main.c:44-47 | a request left unanswered keeps the invariant |
| ProtocolTasks.TakeResponse | src/tsk/mgr/gui/request.c:198-262 | a response taken from the inbox carries the answer of a request not yet reported, and is newer than every success reported for that task |
| ProtocolRuns.EffectInv | src/tsk/mgr/gui/request.c:118-215 | each such effect, if lawful, keeps the invariant |
| ProtocolRuns.SweepLawful | src/tsk/mgr/gui/request.c:175-196 | a timeout sweep with any re-entrant callbacks reports only pending requests |
| ProtocolRuns.MatchLawful | src/tsk/mgr/gui/request.c:205-214 | delivering an answer and running its callback reports only that request, with its own answer |
| ProtocolRuns.DeliverCases | src/tsk/mgr/gui/request.c:198-262 | either transport delivers the answer itself, and below 65536 the 16-bit parameter does not lose the number |
| ProtocolRuns.StartInv | src/lib/ipc/ipc.c:295-482 | what any step does to the transport keeps the invariant, and its effects are lawful |
| ProtocolRuns.NextInv | src/tsk/mgr/gui/request.c:118-262 | every enabled step, with any fault and any callbacks, keeps the invariant |
| Theorems.RunInv | src/tsk/mgr/gui/request.c:118-262 | the invariant holds in every state of every run |
| Theorems.ExactlyOnce | src/tsk/mgr/gui/request.c:163-215 | in every run a request is waiting exactly if it occupies a slot, and its callback has run once if it was answered or timed out, with the matching outcome, and never otherwise |
| Theorems.NextGrows | src/tsk/mgr/gui/request.c:118-262 | no step rewrites an issued request, revives a completed one or shortens the log |
| Theorems.RunGrows | src/tsk/mgr/gui/request.c:118-262 | the same between any two states of a run |
| Theorems.AnswersFixed | src/lib/ipc/ipc.c:470-482 | the answer recorded for a handle never changes |
| Theorems.AnswersWereGiven | src/lib/ipc/ipc.c:470-482 | every recorded answer was passed to a successful Response by the task that held the handle |
| Theorems.RightBytes | src/tsk/mgr/gui/request.c:198-262 | in every run a callback run with GUI_SUCCESS is the one registered with its request and gets exactly the bytes that the task addressed passed to Response for it, over either transport |
| Theorems.TaskGetsRequest | src/lib/ipc/ipc.c:335-394 | in every run a task that receives a request gets the identifier and bytes given to Request, and is the task the identifier names |
| Theorems.CallbacksInOrder | src/lib/task_main/task_main.c:35-57 | in every run success callbacks of requests to one task run in the order the requests were made |
| ConsoleRuns.RequestAnswered | src/tsk/mgr/gui/request.c:118-215 | a run, for every identifier of a task, payload, answer and callback: the task receives number, identifier and bytes, and its answer is the one thing reported, to that callback, with code 0 |
| ConsoleRuns.ConsoleAnswered | src/lib/ipc/ipc.c:188-220 | a run: a request typed at the console reaches the task its identifier names, holds a slot for one hour, and its answer is given to the callback that prints it |
| Outcomes.NextExplained | src/tsk/mgr/gui/request.c:163-196 | in one step a request is dropped only by a window change and timed out only by a sweep that finds it due |
| Outcomes.RunExplained | src/tsk/mgr/gui/request.c:163-196 | in every run each timed-out request was timed out by a sweep at which its deadline had been reached, and each dropped one fell to a callback that loads a window |
| Outcomes.TimeoutsAreDue | src/tsk/mgr/gui/request.c:185-193 | in every run a callback run with GUI_ERR_RESP_TIMEOUT was run by a sweep that found the deadline of its request reached |
| Segments.SegmentConservation | src/lib/ipc/ipc.c:303-326 | throughout a run the live keys are exactly the numbers of the queued long messages if and only if no step leaks, each leak being a condition on the step and the state before it |
| Segments.DrainedSystem | src/tsk/mgr/gui/request.c:227-243 | a drained system holds exactly the segments that some step leaked, timeouts and window changes notwithstanding |
| Segments.OneTransportPerNumber | src/lib/ipc/ipc.c:431-460 | in every run no number has a request and a response in flight at once, so their segments never coexist |
| Leaks.ManagerLongLeaks | src/tsk/mgr/inc/gui_local.h:72-78 | for every long payload and every identifier of the manager, a run of two steps without failures ends drained with the segment still there |
| Leaks.SmallBufferLeaks | src/lib/ipc/ipc.c:361-364 | the same for every task whose buffer is smaller than the payload |
| Segments.FailedRequestLeak | src/tsk/mgr/gui/request.c:59-116 | a failed send leaves a segment exactly when the payload was long and shmget succeeded; a send succeeds exactly when the task exists and none of its system calls fails |
| Segments.FailedResponseLeak | src/lib/ipc/ipc.c:396-482 | the same for answers |
| Segments.NextLeaks | src/lib/ipc/ipc.c:303-326 | a step, with any faults and callbacks, adds to the leaked keys exactly those it leaks |
| Segments.SegmentAccounting | src/lib/ipc/ipc.c:303-326 | in every state of every run a key has a segment if and only if a long message with it is queued or some earlier step leaked it, never both |
| Delivery.OneMatch | src/tsk/mgr/gui/request.c:205-214 | in a well-formed table the scan completes exactly the one slot with the number, although it does not stop after a match without a callback |
| Delivery.ZeroIsHarmless | src/tsk/mgr/gui/request.c:205-214 | a response numbered 0 matches every free slot and changes nothing |
| Delivery.CorrelationLimit | src/tsk/mgr/gui/request.c:198-215 | delivering the short answer of a pending request frees its slot if and only if its number is below 65536, whatever its callback does short of loading a window |
| Delivery.CorrelationLimitLong | src/tsk/mgr/gui/request.c:217-262 | the same for the long answer, although its segment is there |
| Collision.CollisionRun | src/tsk/mgr/gui/request.c:199-206 | a run that issues 65537 numbers and then runs the callback of request 1 with what another task answered to request 65537 |
| Delivery.ResponseCompletes | src/tsk/mgr/gui/request.c:198-262 | in a run, delivering the answer of a waiting request completes that request and no other, before its callback acts |
| Delivery.LateResponseIgnored | src/tsk/mgr/gui/request.c:198-215 | in a run, an answer that comes after its request timed out or was dropped changes neither table nor log, whoever has the slot by then |
| LongRuns.RequestKeeps | src/tsk/mgr/gui/request.c:118-161 | before the counter wraps a Request keeps the numbering well formed, and a failed one restores the table |
| LongRuns.EffectsGone | src/tsk/mgr/gui/request.c:142-158 | before the counter wraps, a number that has left the table is neither reissued nor reported |
| LongRuns.RunNumbered | src/tsk/mgr/gui/request.c:19-215 | in every run of fewer than 2^32 requests free slots are all zero, used ones carry distinct nonzero numbers, and no request is reported twice |
| Occupancy.OccupiedIsWaiting | src/tsk/mgr/gui/request.c:135-148 | used slots and waiting requests are equal in number |
| Occupancy.LoadIsInFlight | src/lib/ipc/ipc.c:177-177 | messages to and from tasks and handles in hand are, one for one, the requests in flight |
| Occupancy.SlotAccounting | src/tsk/mgr/gui/request.c:135-161 | in every state of every run used slots plus overdue requests are what is in flight plus the stranded requests |
| Occupancy.QueueBound | src/lib/ipc/ipc.c:92-94 | in runs without timeouts and window changes used slots are what is in flight and the stranded requests together; at most 16 are in flight, so a task's queue of capacity 32 is never full |
| Stranding.AcceptedSucceeds | src/tsk/mgr/gui/request.c:118-161 | Request succeeds if and only if the call is well-formed, a slot is free, the task exists and none of the system calls it makes fails |
| Stranding.ReceiveStrands | src/lib/ipc/ipc.c:295-394 | a receive strands the request it takes exactly if it fails: too small a buffer, or a long one with a segment call that fails |
| Stranding.RespondStrands | src/lib/ipc/ipc.c:396-482 | a Response strands the request exactly if it fails although it has a payload |
| Stranding.ArrivalStrands | src/tsk/mgr/gui/request.c:198-262 | a response that arrives strands nothing; only what its callback then calls can |
| Stranding.NextStrands | src/lib/ipc/ipc.c:177-177 | after a step without timeouts and window changes exactly the requests stranded before and those the step strands are stranded |
| Stranding.LoadIsOccupied | src/tsk/mgr/gui/request.c:135-161 | in every state of every run without timeouts and window changes, used slots equal what is in flight if and only if no step so far has stranded a request |
| SelfRequests.SelfRequestReturns | src/tsk/mgr/inc/gui_local.h:72-78 | delivering a short request addressed to the manager puts it back under a new number and takes one more slot for an hour, or ends there when no slot is free |
| SelfRequests.SelfCallLoops | src/tsk/mgr/gui/request.c:118-161 | a call of Request that addresses the manager succeeds, takes a slot and puts such a request behind whatever is in the inbox |
| SelfRequests.SelfRequestFills | src/tsk/mgr/gui/request.c:135-161 | with nothing else in the inbox such a request takes one slot with each delivery, as long as one is free, and leaves the used ones alone |
| SelfRequests.FullTable | src/tsk/mgr/gui/request.c:135-144 | then every well-formed call of Request is turned away |
| SelfRequests.ConsoleFillsTable | src/lib/ipc/ipc.c:188-220 | a run: one console line with an identifier of the manager, sixteen deliveries, and every slot is taken, none to expire before its hour has passed |
| Scripts.ScriptUntouched | src/tsk/mgr/gui/request.c:135-148 | a callback that loads no window leaves every pending request in its slot and uses free slots for newer ones only |
| Sweeps.SweepExact | src/tsk/mgr/gui/request.c:175-196 | with callbacks that issue requests with positive timeouts, a sweep runs exactly the callbacks of the requests expired at its start, once each, in slot order, up to the first that loads a window; without one, other requests are untouched and new ones survive |
| Sweeps.SweepBound | src/tsk/mgr/gui/request.c:185-195 | whatever the callbacks do, one sweep runs at most one per slot, all as timeouts |
| Sweeps.SweepFate | src/tsk/mgr/gui/request.c:175-196 | with any callbacks and any timeouts, a pending request keeps its slot through the rest of a sweep if and only if the slot has been passed or it is not expired, and no later callback loads a window; it is reported if and only if the slot is still to come, it is expired and no callback loads a window first |
| Sweeps.IssuedDuringSweep | src/tsk/mgr/gui/request.c:185-195 | so a request issued during a sweep survives it if and only if its slot, the first free one, has been passed or its timeout has not elapsed, and neither the rest of its own callback nor a later one loads a window; it is timed out at once if and only if its slot is still to come, its timeout has elapsed and no window is loaded first |
| Sweeps.ZeroTimeoutIsSwept | src/tsk/mgr/gui/request.c:185-195 | an input: of two zero-timeout requests issued by the callback of slot 0 the second, in slot 1, is swept away at once |
| Sweeps.ZeroTimeoutRun | src/tsk/mgr/gui/request.c:175-196 | a run of two steps from the initial state that gets there |
| Sweeps.DueWhenElapsed | src/tsk/mgr/gui/request.c:145-153 | an accepted request fills the first free slot with its own number, identifier and callback, leaves the others alone, and is expired exactly when its timeout has elapsed |
| SlotTable.OnePlace | src/tsk/mgr/gui/timer.c:29-33 | an identifier in a well-formed table has one place, the one the search finds |
| SlotTable.FullIsSixteen | src/tsk/mgr/gui/timer.c:35-44 | there is no free slot exactly when sixteen identifiers are registered |
| SlotTable.Overwrite | src/tsk/mgr/gui/timer.c:46-47 | overwriting a slot replaces exactly the binding of its old identifier |
| SlotTable.RegisterInserts | src/tsk/mgr/gui/notify.c:9-44 | registration is insertion into a bounded map: it succeeds exactly for a callback under an unused nonzero identifier while fewer than 16 are registered, and otherwise changes nothing |
| SlotTable.DeregisterRemoves | src/tsk/mgr/gui/timer.c:80-102 | deregistration removes exactly that binding and reports whether there was one |
| SlotTable.ClearEmpties | src/tsk/mgr/gui/notify.c:62-71 | clearing leaves the empty map |
| Timers.SweepOncePerSlot | src/tsk/mgr/gui/timer.c:58-78 | whatever the callbacks do, a sweep fires each slot at most once, in order, and leaves a well-formed table |
| Timers.DueWhenElapsed | src/tsk/mgr/gui/timer.c:46-52 | a registered timer is over exactly when its timeout has elapsed |
| Timers.RegisterCodes | src/tsk/mgr/gui/timer.c:12-55 | 0 exactly for a callback under an unused identifier while fewer than 16 are registered, 5 exactly when 16 are, 3 exactly for NULL, 4 otherwise |
| Timers.DeregisterCodes | src/tsk/mgr/gui/timer.c:80-102 | 0 exactly if the identifier was registered, otherwise 4 |
| Timers.BoundAfter | src/tsk/mgr/gui/timer.c:12-113 | over any script a timer is registered with a callback and deadline if and only if it was before and has not been removed, or such a registration was accepted and has not been removed since |
| Timers.ScriptStays | src/tsk/mgr/gui/timer.c:12-113 | whatever else a callback does, a timer it neither deregisters nor clears away stays in its slot |
| Timers.ScriptSlot | src/tsk/mgr/gui/timer.c:12-113 | if moreover it registers with positive timeouts only, it puts nothing that is already over into any slot |
| Timers.SweepExact | src/tsk/mgr/gui/timer.c:58-78 | with positive timeouts only, a slot fires, once and with its own identifier and callback, if and only if its timer had expired at the start and no callback run earlier in the sweep removed it; unexpired timers nobody removed are untouched, and nothing registered during the sweep fires |
| TimerSweeps.SweepFate | src/tsk/mgr/gui/timer.c:58-78 | with any callbacks and any timeouts: unless a callback run before its turn removes it, a timer's slot fires, once and with its own identifier and callback, if and only if the slot is still to come and the timer is over; passed slots do not fire; a timer passed or not over, and not removed, stays in its slot |
| TimerSweeps.ScriptGone | src/tsk/mgr/gui/timer.c:80-113 | a timer that a callback removes and does not register again is in no slot |
| TimerSweeps.SweepFateById | src/tsk/mgr/gui/timer.c:58-78 | a timer that no callback registers again fires if and only if its slot is still to come, it is over and no callback run before its turn removes it; it is in its slot at the end if and only if its slot has been passed or it is not over, and no callback removes it |
| TimerSweeps.RegisteredDuringSweep | src/tsk/mgr/gui/timer.c:68-73 | so a timer registered during a sweep, unless somebody removes it first, fires in it if and only if its slot, the first free one, is still to come and its timeout has elapsed |
| TimerSweeps.RegisteredOnce | src/tsk/mgr/gui/timer.c:68-73 | and if its identifier is not registered again, it fires in it if and only if its slot is still to come, its timeout has elapsed and nobody removes it first; the same for staying in its slot |
| TimerSweeps.ZeroTimerFires | src/tsk/mgr/gui/timer.c:68-73 | an input, from the empty table: of two zero-timeout timers registered by the callback of slot 0 the one in slot 1 fires at once, the one in slot 0 does not |
| Notifies.LookupIsMap | src/tsk/mgr/gui/notify.c:47-60 | ProcessNotifies looks the identifier up in the map the table stands for, and calls nothing exactly if it is unbound |
| Notifies.ScriptWf | src/tsk/mgr/gui/notify.c:9-71 | any script keeps the table a well-formed map |
| Notifies.RegisterCodes | src/tsk/mgr/gui/notify.c:9-44 | 0 exactly for a callback under an unused identifier while fewer than 16 are registered, 11 exactly when 16 are, 3 exactly for NULL, 10 otherwise |
| Notifies.BoundAfter | src/tsk/mgr/gui/notify.c:9-71 | over any script a notification runs a callback if and only if it did before and no window has been loaded, or its registration was accepted and no window has been loaded since |
| Notifies.NothingAfterLoad | src/tsk/mgr/gui/notify.c:62-71 | a script that ends by loading a window leaves nothing registered |
| LineEditor.Turn | src/tsk/dbgx/dbgx.c:141-161 | one character updates the buffer in place as the specification does and keeps the index inside it |
| LineEditor.WaitMsg | src/tsk/dbgx/dbgx.c:135-164 | for every input the lines handed on and the buffer are the specified ones, and the index never leaves the buffer |
| LineEditor.LinesAreGood | src/tsk/dbgx/dbgx.c:142-156 | every line handed on starts with its only header, ends with its only line feed, has no backspace and fits the buffer with its NUL |
| LineEditor.GoodLinesPass | src/tsk/dbgx/dbgx.c:142-156 | the editor is the identity on its own output: any such lines typed one after the other come out as they are |
| LineEditor.SameUntilLost | src/tsk/dbgx/dbgx.c:142-161 | buffer and lines equal the simple specification (text since the last header, backspaces applied, dropped at 8191 characters) as long as no header fills the buffer |
| LineEditor.EditorIsTextSinceHeader | src/tsk/dbgx/dbgx.c:144-153 | the buffer is equal after every prefix of the input if and only if no header arrives as the character that fills the buffer, and then the lines are equal |
| LineEditor.PendingExact | src/tsk/dbgx/dbgx.c:142-161 | for every input the buffer is empty while the last header is one that was dropped, and otherwise holds the text since that header |
| LineEditor.LinesAreKept | src/tsk/dbgx/dbgx.c:142-161 | for every input the lines handed on are the expected ones without those whose header was dropped |
| LineEditor.LinesAreTextLines | src/tsk/dbgx/dbgx.c:144-153 | the lines handed on are the expected ones if and only if no line feed ends a text whose header was dropped |
| LineEditor.CommandIsLost | src/tsk/dbgx/dbgx.c:144-153 | an input: behind a header and 8189 letters a whole command is typed and not handed on |
| LineEditor.LongestLine | src/tsk/dbgx/dbgx.c:144-150 | a command with n characters between header and line feed is handed on if and only if n is at most 8188 |
| LineEditor.BackspaceUndoes | src/tsk/dbgx/dbgx.c:154-155 | backspace undoes the character typed before it |
| LineEditor.HeaderRestarts | src/tsk/dbgx/dbgx.c:151-153 | a header starts a new command |
| LineEditor.NothingWithoutHeader | src/tsk/dbgx/dbgx.c:157-161 | without a header nothing is held or handed on |
| Scanner.ScanWord | src/tsk/dbgx/dbgx.c:57-71 | the word loop copies the maximal alphanumeric run if it is shorter than eleven, and consumes the character after it |
| Scanner.DropEleven | src/tsk/dbgx/dbgx.c:85-102 | eleven digits in a row leave no trace in the values scanned |
| Scanner.TakeRun | src/tsk/dbgx/dbgx.c:86-100 | fewer than eleven digits and a terminator yield one value, or none for no digits, and the scan goes on behind it |
| Scanner.ScanNumbers | src/tsk/dbgx/dbgx.c:83-102 | stores exactly the specified values at the front of the parameter array and stops at the first LF or NUL, never beyond the appended NUL |
| Scanner.SendFakeRequest | src/tsk/dbgx/dbgx.c:106-113 | identifier, size and data bytes of the request come from the parameters in order, and nothing is sent for sizes above 500 |
| Scanner.ReadStory | src/tsk/dbgx/dbgx.c:43-131 | a line without a usable word changes nothing; otherwise the parameters are the specified values over the old ones, and a request is sent exactly for the Request command with a size that fits |
| Scanner.ReadRight | src/tsk/dbgx/dbgx.c:86-95 | one run of digits yields its value if and only if it is legible |
| Scanner.NumbersAreReadRight | src/tsk/dbgx/dbgx.c:85-102 | the values are those of the maximal digit runs in order if and only if every run is legible |
| Scanner.ShortRunsAreLegible | src/tsk/dbgx/dbgx.c:85-102 | runs of at most ten digits below 2^31 are legible |
| Scanner.Separator | src/tsk/dbgx/dbgx.c:86-98 | every character but a digit separates runs, except line feed and NUL, which end the line |
| Scanner.CommandWord | src/tsk/dbgx/dbgx.c:55-71 | a header and a word of one to ten letters and digits make a command, with the numbers behind the character after the word; no word or a longer one is ignored |
| Scanner.TabbedLine | src/tsk/dbgx/dbgx.c:43-102 | an input: a Request line with a tab between its numbers yields both |
| FakeLines.PrintData | src/lib/ipc/ipc.c:228-230 | the loop the three printers share appends every data byte and the line feed |
| FakeLines.FakeNotify | src/lib/ipc/ipc.c:222-233 | prints the line of identifier, size and data |
| FakeLines.FakeResponse | src/lib/ipc/ipc.c:235-246 | prints the line of handle, size and data |
| FakeLines.FakeRcvRequest | src/lib/ipc/ipc.c:248-259 | prints the line of handle, identifier, size and data |
| FakeLines.ScanPrint | src/tsk/dbgx/dbgx.c:55-102 | scanning any printed line yields its name and what each field reads back as |
| FakeLines.RoundTrip | src/lib/ipc/ipc.c:222-259 | scanning a printed line recovers name and fields if and only if every field is below 2^31 |
| FakeLines.ConsoleReadsPrinted | src/tsk/dbgx/dbgx.c:43-164 | any sequence of printed lines typed into the console comes out of the editor line by line, and each line scans to what it was printed from |
| FakeLines.PrintedNames | src/lib/ipc/ipc.c:222-259 | the three names are accepted words; the longest only just |
| FakeLines.NoLeadingZero | src/lib/ipc/ipc.c:227-229 | numbers are printed without leading zeros |
| FakeLines.PrintedFields | src/lib/ipc/ipc.c:227-229 | some fields as they are printed, and where the minus sign starts |
| FakeLines.TypedRequest | src/lib/ipc/ipc.c:188-220 | a Request line naming every byte makes the console send the very message of the protocol's console step |
| Strings.AddTwice | src/lib/ipc/ipc.c:40-63 | adding two strings is adding their concatenation, return values included |
| Strings.BuilderIsPrefix | src/lib/ipc/ipc.c:40-63 | over any number of calls the builder holds as much of everything added as fits, and the return values sum to its length |
| Strings.LineFeedsAreBreaks | src/lib/ipc/ipc.c:53-54 | what is counted is the positions that hold a line feed |
| Strings.LineFeedsAdd | src/lib/ipc/ipc.c:53-54 | text added behind text adds its own line feeds |
| Strings.TStrings.constructor | src/lib/ipc/ipc.c:20-31 | a new builder is empty, terminated, on line 1 |
| Strings.TStrings.AddString | src/lib/ipc/ipc.c:40-63 | appends as much as fits and returns how much; the line count is one more than the positions of the stored text that hold a line feed; index within size, and the text terminated unless full |
| RandomGen.Generator.Randomize | src/lib/random/random.c:8-12 | from every int seed the state is its absolute value modulo 100000 |
| RandomGen.Generator.Random | src/lib/random/random.c:14-18 | takes one step, with product and sum inside the 32-bit range, and returns the remainder of the new state, for any nonzero n |
| RandomGen.StepDropsDigit | src/lib/random/random.c:16-16 | a step is a congruential step modulo a million with its last digit dropped |
| RandomGen.EventuallyPeriodic | src/lib/random/random.c:14-18 | from every state the sequence repeats for ever, starting and recurring within 100000 steps |

## Left out

- Blocking sends: queues in the model are unbounded. A full queue delays the same append, in the same order, until the receiver makes room; `Occupancy.QueueBound` says when a task's queue cannot be full. A deadlock of mutually full queues is not expressed.
- Wrap-around of the sequence counter at 2^32: the counter wraps in the model, but no theorem speaks of runs that long. A request numbered 0, which comes after the wrap, would use key 0, that is a private segment; the model treats it as an ordinary key except where the manager looks for a response's segment.
- The 32-bit range of time values (year 2038) and of timeouts near 2^32 milliseconds added to them: time values are unbounded integers. `timeradd` is the macro of `sys/time.h`.
- Theorems.RightBytes: assumes one Response per handle, by the process that received it, as the step system's `Enabled` demands; a task that answers a handle twice is outside the model.
- Sweeps.SweepExact: assumes positive timeouts and that `gettimeofday` does not go backwards during a sweep; `Sweeps.SweepFate` makes neither assumption.
- Timers.SweepExact: assumes that timers registered during the sweep have positive timeouts and that `gettimeofday` does not go backwards; `TimerSweeps.SweepFate` and `TimerSweeps.SweepFateById` make neither assumption.
- Timers.ScriptSlot: makes the same assumption, without which it does not hold; `Timers.ScriptStays` does not.
- SelfRequests.SelfRequestFills: assumes that nothing else is in the inbox, since a response delivered in between frees a slot; `SelfRequests.SelfRequestReturns` holds for any inbox behind the request.
- Gui.GuiContext.Request: payload sizes within 12 bytes of 2^32, where the sum with the header wraps and the source copies the payload past a buffer of a few bytes.
- Ipc.Port.Response: payload sizes within 12 bytes of 2^32, for the same reason.
- Ipc.Port.constructor: `mq_open` failures, the check of the task's own identifier, and messages left over in queues that already exist.
- Ipc.Port.TakeRequest: packets shorter than a request header, whose missing fields the source reads from an uninitialised buffer, and capacities above 2^32 - 12, for which `Wire.CapacityLimit` gives the exact limit.
- Ipc.Port.WaitForRequest: the same packets and capacities.
- Ipc.Port.RecvIpcMessage: the timed wait, the check that a queue has been opened, and packets shorter than a request header, which only notifications are; a timeout and a receive error appear in `Ipc.Port.WaitForRequest`.
- Gui.GuiContext.LoadWindow: the touch and key tables, and the exit on a window that is in no table.
- Gui.GuiContext.Dispatch: the notification branch; callbacks of notifications are `User` steps, and `Gui.GuiContext.ProcessNotifies` is called with an identifier instead of a message.
- Gui.GuiContext.ProcessIpcMessages: notification packets, which can be as short as 8 bytes, and receive errors, on which the source returns at once.
- Gui.GuiContext.ProcessTimers: the callbacks it runs are scripts chosen by the caller, one per slot, not code reached through a pointer.
- Scanner.ReadStory: words outside the command table of four, since the lookup loop runs to seven, and lines with more numbers than the 2050 parameters; Inl, Outl and Kill do nothing beyond storing their parameters.
- The uninitialised capacity that the task main loop passes to WaitForRequest: the capacity is a parameter.
- A task process that exits when a receive fails: its queue stays in the model and it may go on receiving.
- Two processes sharing one task's queue, and messages put into a task's queue by anyone but the manager.
- Window contents, `OnLoad` beyond the API calls in its script, and drivers.
- What `ResponseToConsole` prints (the same line shape as `FakeLines.FakeResponse`); tracing and hex dumps.
- End of input in the console and the pause after each line.
- `atoi` beyond the C standard: the 32-bit glibc behaviour, saturation at 2^31 - 1, is assumed.
- Process supervision, `gpio`, `dateUtils`, build files and the demo tasks.
