/** The manager's pending-request table: what Request, the two response handlers,
    the timeout sweep and ClearRequests do to it, with callbacks that call back in. */
module Pending {
  import opened Base
  import opened Deadline
  import opened Net

  datatype Slot = Slot(seqNum: nat, id: nat, cb: Callback, expires: Timeval)

  const CLEARED := Slot(0, 0, NULL, Timeval(0, 0))

  /** One call of Request; `bytes` are the ReqSize bytes at pReqData, `at` is what
      gettimeofday answers. */
  datatype Call = Call(id: nat, isNull: bool, bytes: seq<byte>, timeout: nat, cb: Callback,
                       at: Timeval, fault: Fault)

  /** One API call made by a callback. */
  datatype Action =
    | DoRequest(call: Call)
    | DoRegisterTimer(timerId: nat, timeout: nat, cb: Callback, at: Timeval)
    | DoDeregisterTimer(timerId: nat)
    | DoRegisterNotify(notifyId: nat, cb: Callback)
    | DoLoadWindow

  type Script = seq<Action>

  // History of one accepted request, for specification.
  datatype Status = Waiting | Answered | TimedOut | Dropped

  /** Where the request is: in its task's queue, with the task, answered and in the
      inbox, consumed by the manager; or lost on the way. */
  datatype Stage = Queued | InHand | Replied | Gone | Lost

  datatype Rec = Rec(slot: nat, id: nat, cb: Callback, bytes: seq<byte>, expires: Timeval, status: Status, stage: Stage)

  type Recs = map<nat, Rec>

  /** One callback invocation. */
  datatype Event = Event(seqNum: nat, cb: Callback, data: seq<byte>, err: nat)

  /** `issued` counts the sequence numbers handed out so far; `recs` and `log` are the
      history of accepted requests and of callback invocations. */
  datatype Mgr = Mgr(slots: seq<Slot>, issued: nat, net: Net, recs: Recs, log: seq<Event>)

  predicate ValidMgr(m: Mgr) {
    |m.slots| == GUI_MAX_REQUESTS && ValidNet(m.net)
  }

  /** gSeqNum, an unsigned int that starts at 1. */
  function NextSeqNum(issued: nat): nat {
    (issued + 1) % TWO32
  }

  function FirstFree(slots: seq<Slot>, i: nat): (r: nat)
    requires i <= |slots|
    ensures i <= r <= |slots|
    ensures forall k | i <= k < r :: slots[k].id != 0
    ensures r < |slots| ==> slots[r].id == 0
    decreases |slots| - i
  {
    if i == |slots| || slots[i].id == 0 then i else FirstFree(slots, i + 1)
  }

  /** A request addressed to the manager itself never reaches a task. */
  function InitialStage(id: nat): Stage {
    if TaskOf(id) == TSKID_MGR then Lost else Queued
  }

  function Request(m: Mgr, c: Call): (r: (Mgr, nat))
    requires ValidMgr(m)
    ensures ValidMgr(r.0)
  {
    if c.isNull && |c.bytes| != 0 then (m, GUI_ERR_PARAMETER)
    else if c.id == 0 then (m, GUI_ERR_REQUESTID_INVALID)
    else
      var i := FirstFree(m.slots, 0);
      if i == GUI_MAX_REQUESTS then (m, GUI_ERR_REQUESTS_FULL)
      else
        var s := NextSeqNum(m.issued);
        var (sent, err) := SendRequest(m.net, s, c.id, c.bytes, c.fault);
        if err != GUI_SUCCESS then
          (m.(slots := m.slots[i := CLEARED], issued := m.issued + 1, net := sent), err)
        else
          var due := ExpiresAt(c.at, c.timeout);
          (m.(slots := m.slots[i := Slot(s, c.id, c.cb, due)],
              issued := m.issued + 1,
              net := sent,
              recs := m.recs[s := Rec(i, c.id, c.cb, c.bytes, due, Waiting, InitialStage(c.id))]),
           GUI_SUCCESS)
  }

  function SetStatus(recs: Recs, s: nat, status: Status): Recs {
    if s in recs then recs[s := recs[s].(status := status)] else recs
  }

  function SetStage(recs: Recs, s: nat, stage: Stage): Recs {
    if s in recs then recs[s := recs[s].(stage := stage)] else recs
  }

  function DropWaiting(recs: Recs): Recs {
    map s | s in recs :: if recs[s].status.Waiting? then recs[s].(status := Dropped) else recs[s]
  }

  function ClearRequests(m: Mgr): (r: Mgr)
    requires ValidMgr(m)
    ensures ValidMgr(r)
  {
    m.(slots := seq(GUI_MAX_REQUESTS, _ => CLEARED), recs := DropWaiting(m.recs))
  }

  /** The request-table effect of one API call. */
  function Act(m: Mgr, a: Action): (r: Mgr)
    requires ValidMgr(m)
    ensures ValidMgr(r)
  {
    match a
    case DoRequest(c) => Request(m, c).0
    case DoLoadWindow => ClearRequests(m)
    case _ => m
  }

  function RunScript(m: Mgr, script: Script): (r: Mgr)
    requires ValidMgr(m)
    ensures ValidMgr(r)
    decreases |script|
  {
    if script == [] then m else RunScript(Act(m, script[0]), script[1..])
  }

  /** Clear slot i and, unless its callback is NULL, record the invocation. */
  function Finish(m: Mgr, i: nat, status: Status, data: seq<byte>, err: nat): (r: Mgr)
    requires ValidMgr(m) && i < GUI_MAX_REQUESTS
    ensures ValidMgr(r)
  {
    var old_ := m.slots[i];
    m.(slots := m.slots[i := CLEARED],
       recs := SetStatus(m.recs, old_.seqNum, status),
       log := if old_.cb == NULL then m.log else m.log + [Event(old_.seqNum, old_.cb, data, err)])
  }

  predicate Expired(slot: Slot, now: Timeval) {
    slot.id != 0 && IsTimeOver(now, slot.expires)
  }

  /** The body of the ProcessResponseTimeouts loop for slot i; its callback, if it
      runs, executes `script`. */
  function SweepSlot(m: Mgr, now: Timeval, i: nat, script: Script): (r: Mgr)
    requires ValidMgr(m) && i < GUI_MAX_REQUESTS
    ensures ValidMgr(r)
  {
    if !Expired(m.slots[i], now) then m
    else
      var m1 := Finish(m, i, TimedOut, [], GUI_ERR_RESP_TIMEOUT);
      if m.slots[i].cb != NULL then RunScript(m1, script) else m1
  }

  /** ProcessResponseTimeouts from slot i on; `scripts[j]` is what the callback found
      in slot j does. */
  function Sweep(m: Mgr, now: Timeval, i: nat, scripts: seq<Script>): (r: Mgr)
    requires ValidMgr(m) && i <= GUI_MAX_REQUESTS && |scripts| == GUI_MAX_REQUESTS
    ensures ValidMgr(r)
    decreases GUI_MAX_REQUESTS - i
  {
    if i == GUI_MAX_REQUESTS then m else Sweep(SweepSlot(m, now, i, scripts[i]), now, i + 1, scripts)
  }

  /** The loop shared by ProcessShortResponses and ProcessLongResponses: it stops at
      the first match that has a callback, and only there. */
  function ProcessMatches(m: Mgr, seqNum: nat, i: nat, data: seq<byte>, script: Script): (r: Mgr)
    requires ValidMgr(m) && i <= GUI_MAX_REQUESTS
    ensures ValidMgr(r)
    decreases GUI_MAX_REQUESTS - i
  {
    if i == GUI_MAX_REQUESTS then m
    else if m.slots[i].seqNum == seqNum then
      var called := m.slots[i].cb != NULL;
      var m1 := Finish(m, i, Answered, data, GUI_SUCCESS);
      if called then RunScript(m1, script) else ProcessMatches(m1, seqNum, i + 1, data, script)
    else ProcessMatches(m, seqNum, i + 1, data, script)
  }

  function ProcessShortResponses(m: Mgr, seqNum: nat, data: seq<byte>, script: Script): (r: Mgr)
    requires ValidMgr(m)
    ensures ValidMgr(r)
  {
    ProcessMatches(m, seqNum, 0, data, script)
  }

  /** What shmget without IPC_CREAT finds: key 0 is IPC_PRIVATE, a new segment of
      zeros; any other key must name a segment that is large enough. */
  function FindSegment(shm: Shm, key: nat, size: nat): Option<seq<byte>> {
    if key == 0 then (if size == 0 then None else Some(seq(size, _ => 0)))
    else if key in shm && size <= |shm[key]| then Some(shm[key][..size])
    else None
  }

  function ProcessLongResponses(m: Mgr, seqNum: nat, size: nat, fault: Fault, script: Script): (r: (Mgr, nat))
    requires ValidMgr(m)
    ensures ValidMgr(r.0)
  {
    var data := FindSegment(m.net.shm, seqNum, size);
    if fault.ShmGet? || data.None? then (m, GUI_ERR_SHM_ALLOCATE)
    else if fault.ShmAt? then (m, GUI_ERR_SHM_ATTACH)
    else if fault.ShmRm? then (m, GUI_ERR_SHM_REMOVE)
    else
      var m1 := if seqNum == 0 then m else m.(net := m.net.(shm := m.net.shm - {seqNum}));
      (ProcessMatches(m1, seqNum, 0, data.value, script), GUI_SUCCESS)
  }

  const HOUR := 60 * 60 * 1000

  /** The switch of ProcessIpcMessages.  Both response handlers take the sequence
      number as a USHORT. */
  function Dispatch(m: Mgr, msg: Message, at: Timeval, fault: Fault, script: Script): (r: Mgr)
    requires ValidMgr(m)
    ensures ValidMgr(r)
  {
    if msg.kind == MSG_TYPE_SHORT_REQUEST && |msg.data| == msg.size then
      Request(m, Call(msg.id, false, msg.data, HOUR, ResponseToConsole, at, fault)).0
    else if msg.kind == MSG_TYPE_SHORT_RESPONSE && |msg.data| == msg.size then
      ProcessShortResponses(m.(recs := SetStage(m.recs, msg.seqNum, Gone)), msg.seqNum % TWO16, msg.data, script)
    else if msg.kind == MSG_TYPE_LONG_RESPONSE && |msg.data| == 0 then
      var gone := m.(recs := SetStage(m.recs, msg.seqNum, Gone));
      ProcessLongResponses(gone, msg.seqNum % TWO16, msg.size, fault, script).0
    else m
  }

  /** ProcessIpcMessages: take the head of the inbox and dispatch on its type. */
  function Deliver(m: Mgr, at: Timeval, fault: Fault, script: Script): (r: Mgr)
    requires ValidMgr(m)
    ensures ValidMgr(r)
  {
    if m.net.inbox == [] then m
    else Dispatch(m.(net := m.net.(inbox := m.net.inbox[1..])), m.net.inbox[0], at, fault, script)
  }
}
