/** The transport seen at message level: one FIFO per task, the manager's inbox and
    the System V shared-memory segments, keyed by sequence number.  Every system
    call may be made to fail through a Fault. */
module Net {
  import opened Base

  /** The fields of the packed REQUEST_MSG_T; RESPONSE_MSG_T is the same struct. */
  datatype Message = Message(kind: nat, seqNum: nat, id: nat, size: nat, data: seq<byte>)

  /** Shared-memory segments by key. */
  type Shm = map<nat, seq<byte>>

  /** `taskQ[t]` is the queue of task t (2..11); the manager's own queue is `inbox`. */
  datatype Net = Net(inbox: seq<Message>, taskQ: seq<seq<Message>>, shm: Shm)

  /** The system call that fails during one operation. */
  datatype Fault = NoFault | Calloc | ShmGet | ShmAt | ShmDt | ShmRm | MqSend

  predicate ValidNet(net: Net) {
    |net.taskQ| == TSK_NUM + 1
  }

  function TaskOf(id: nat): nat {
    id / 256
  }

  /** The short/long split of Request and Response. */
  predicate Fits(bytes: seq<byte>) {
    |bytes| + HDR_SIZE <= MAX_MESSAGE_SIZE
  }

  function ShortMessage(kind: nat, s: nat, id: nat, bytes: seq<byte>): Message {
    Message(kind, s, id, |bytes|, bytes)
  }

  function LongMessage(kind: nat, s: nat, id: nat, bytes: seq<byte>): Message {
    Message(kind, s, id, |bytes|, [])
  }

  function SendIpcMessage(net: Net, m: Message, task: nat, fault: Fault): (r: (Net, nat))
    requires ValidNet(net)
    ensures ValidNet(r.0)
  {
    if task == 0 || task > TSK_NUM then (net, IPC_ERR_INVALID_TASKID)
    else if fault.MqSend? then (net, IPC_ERR_MSG_SEND)
    else if task == TSKID_MGR then (net.(inbox := net.inbox + [m]), IPC_SUCCESS)
    else (net.(taskQ := net.taskQ[task := net.taskQ[task] + [m]]), IPC_SUCCESS)
  }

  /** shmget with IPC_CREAT and without IPC_EXCL: an existing segment is reused if it
      is large enough, otherwise the call fails; a new segment is zero-filled. */
  function ShmCreate(shm: Shm, key: nat, size: nat): Option<Shm> {
    if key !in shm then Some(shm[key := seq(size, _ => 0)])
    else if size <= |shm[key]| then Some(shm)
    else None
  }

  /** memcpy into an attached segment. */
  function ShmWrite(shm: Shm, key: nat, bytes: seq<byte>): Shm
    requires key in shm && |bytes| <= |shm[key]|
  {
    shm[key := bytes + shm[key][|bytes|..]]
  }

  /** A payload of its own is left under a fresh key. */
  lemma CreateWrite(shm: Shm, key: nat, bytes: seq<byte>)
    requires key !in shm
    ensures ShmCreate(shm, key, |bytes|).Some?
    ensures ShmWrite(ShmCreate(shm, key, |bytes|).value, key, bytes) == shm[key := bytes]
  {
    var made := ShmCreate(shm, key, |bytes|).value;
    assert bytes + made[key][|bytes|..] == bytes;
  }

  /** SendShortRequest; the slot is cleared by the caller whenever the result is not
      GUI_SUCCESS. */
  function SendShortRequest(net: Net, s: nat, id: nat, bytes: seq<byte>, fault: Fault): (r: (Net, nat))
    requires ValidNet(net)
    ensures ValidNet(r.0)
  {
    if fault.Calloc? then (net, GUI_ERR_NO_MEMORY)
    else
      var (sent, ret) := SendIpcMessage(net, ShortMessage(MSG_TYPE_SHORT_REQUEST, s, id, bytes), TaskOf(id), fault);
      if ret != IPC_SUCCESS then (sent, GUI_ERR_IPC_SEND) else (sent, GUI_SUCCESS)
  }

  function SendLongRequest(net: Net, s: nat, id: nat, bytes: seq<byte>, fault: Fault): (r: (Net, nat))
    requires ValidNet(net)
    ensures ValidNet(r.0)
  {
    var made := ShmCreate(net.shm, s, |bytes|);
    if fault.ShmGet? || made.None? then (net, GUI_ERR_SHM_ALLOCATE)
    else if fault.ShmAt? then (net.(shm := made.value), GUI_ERR_SHM_ATTACH)
    else
      var filled := net.(shm := ShmWrite(made.value, s, bytes));
      if fault.ShmDt? then (filled, GUI_ERR_SHM_DETACH)
      else if fault.Calloc? then (filled, GUI_ERR_NO_MEMORY)
      else
        var (sent, ret) := SendIpcMessage(filled, LongMessage(MSG_TYPE_LONG_REQUEST, s, id, bytes), TaskOf(id), fault);
        if ret != IPC_SUCCESS then (sent, GUI_ERR_IPC_SEND) else (sent, GUI_SUCCESS)
  }

  function SendRequest(net: Net, s: nat, id: nat, bytes: seq<byte>, fault: Fault): (r: (Net, nat))
    requires ValidNet(net)
    ensures ValidNet(r.0)
  {
    if Fits(bytes) then SendShortRequest(net, s, id, bytes, fault)
    else SendLongRequest(net, s, id, bytes, fault)
  }

  /** The message a request travels in. */
  function RequestMessage(s: nat, id: nat, bytes: seq<byte>): Message {
    if Fits(bytes) then ShortMessage(MSG_TYPE_SHORT_REQUEST, s, id, bytes)
    else LongMessage(MSG_TYPE_LONG_REQUEST, s, id, bytes)
  }

  function SendShortResponse(net: Net, h: nat, bytes: seq<byte>, fault: Fault): (r: (Net, nat))
    requires ValidNet(net)
    ensures ValidNet(r.0)
  {
    if fault.Calloc? then (net, IPC_ERR_NO_MEMORY)
    else SendIpcMessage(net, ShortMessage(MSG_TYPE_SHORT_RESPONSE, h, 0, bytes), TSKID_MGR, fault)
  }

  function SendLongResponse(net: Net, h: nat, bytes: seq<byte>, fault: Fault): (r: (Net, nat))
    requires ValidNet(net)
    ensures ValidNet(r.0)
  {
    var made := ShmCreate(net.shm, h, |bytes|);
    if fault.ShmGet? || made.None? then (net, IPC_ERR_SHM_ALLOCATE)
    else if fault.ShmAt? then (net.(shm := made.value), IPC_ERR_SHM_ATTACH)
    else
      var filled := net.(shm := ShmWrite(made.value, h, bytes));
      if fault.ShmDt? then (filled, IPC_ERR_SHM_DETACH)
      else if fault.Calloc? then (filled, IPC_ERR_NO_MEMORY)
      else SendIpcMessage(filled, LongMessage(MSG_TYPE_LONG_RESPONSE, h, 0, bytes), TSKID_MGR, fault)
  }

  /** Response: an empty payload is refused before anything is sent. */
  function Response(net: Net, h: nat, isNull: bool, bytes: seq<byte>, fault: Fault): (r: (Net, nat))
    requires ValidNet(net)
    ensures ValidNet(r.0)
  {
    if isNull || |bytes| == 0 then (net, IPC_ERR_PARAMETER)
    else if Fits(bytes) then SendShortResponse(net, h, bytes, fault)
    else SendLongResponse(net, h, bytes, fault)
  }

  function ResponseMessage(h: nat, bytes: seq<byte>): Message {
    if Fits(bytes) then ShortMessage(MSG_TYPE_SHORT_RESPONSE, h, 0, bytes)
    else LongMessage(MSG_TYPE_LONG_RESPONSE, h, 0, bytes)
  }

  /** What WaitForRequest hands to the task. */
  datatype Received = Received(handle: nat, id: nat, bytes: seq<byte>) | Failed(error: nat)

  /** ReceiveLongRequest: shmget carries IPC_CREAT here, too. */
  function ReceiveLongRequest(shm: Shm, m: Message, fault: Fault): (Shm, Received)
  {
    var made := ShmCreate(shm, m.seqNum, m.size);
    if fault.ShmGet? || made.None? then (shm, Failed(IPC_ERR_SHM_ALLOCATE))
    else if fault.ShmAt? then (made.value, Failed(IPC_ERR_SHM_ATTACH))
    else if fault.ShmRm? then (made.value, Failed(IPC_ERR_SHM_REMOVE))
    else
      var removed := made.value - {m.seqNum};
      if fault.ShmDt? then (removed, Failed(IPC_ERR_SHM_DETACH))
      else (removed, Received(m.seqNum, m.id, made.value[m.seqNum][..m.size]))
  }

  /** WaitForRequest once mq_timedreceive has delivered `m`; `capacity` is the value
      of *pReqSize on entry. */
  function WaitForRequest(shm: Shm, m: Message, capacity: nat, fault: Fault): (Shm, Received)
  {
    if m.size > capacity then (shm, Failed(IPC_ERR_RCV_BUFF_SMALL))
    else if m.kind == MSG_TYPE_SHORT_REQUEST then
      if |m.data| != m.size then (shm, Failed(IPC_ERR_MSG_FORMAT))
      else (shm, Received(m.seqNum, m.id, m.data))
    else if m.kind == MSG_TYPE_LONG_REQUEST then ReceiveLongRequest(shm, m, fault)
    else (shm, Failed(IPC_ERR_MSG_FORMAT))
  }

  /** The payload WaitForRequest has copied out, together with handle, identifier and
      size, when it returns: also if removing or detaching the segment fails later. */
  function Written(shm: Shm, m: Message, capacity: nat, fault: Fault): Option<seq<byte>> {
    if m.size > capacity then None
    else if m.kind == MSG_TYPE_SHORT_REQUEST then (if |m.data| == m.size then Some(m.data) else None)
    else if m.kind == MSG_TYPE_LONG_REQUEST then
      var made := ShmCreate(shm, m.seqNum, m.size);
      if fault.ShmGet? || fault.ShmAt? || made.None? then None else Some(made.value[m.seqNum][..m.size])
    else None
  }

  /** What is received has been written. */
  lemma ReceivedIsWritten(shm: Shm, m: Message, capacity: nat, fault: Fault)
    ensures var got := WaitForRequest(shm, m, capacity, fault).1;
            got.Received? ==> got.handle == m.seqNum && got.id == m.id && |got.bytes| == m.size <= capacity
                              && Written(shm, m, capacity, fault) == Some(got.bytes)
  {
  }

  /** What a successful or failed SendRequest under a fresh key leaves behind. */
  lemma SendRequestEffect(net: Net, s: nat, id: nat, bytes: seq<byte>, fault: Fault)
    requires ValidNet(net) && s !in net.shm
    ensures var (sent, err) := SendRequest(net, s, id, bytes, fault);
            && (forall k | k in net.shm :: k in sent.shm && sent.shm[k] == net.shm[k])
            && (forall k | k in sent.shm :: k in net.shm || (k == s && !Fits(bytes)))
            && (err != GUI_SUCCESS ==> sent.inbox == net.inbox && sent.taskQ == net.taskQ)
            && (err == GUI_SUCCESS ==>
                  && 1 <= TaskOf(id) <= TSK_NUM
                  && sent.shm == (if Fits(bytes) then net.shm else net.shm[s := bytes])
                  && (TaskOf(id) == TSKID_MGR ==>
                        sent.taskQ == net.taskQ && sent.inbox == net.inbox + [RequestMessage(s, id, bytes)])
                  && (TaskOf(id) != TSKID_MGR ==>
                        && sent.inbox == net.inbox
                        && sent.taskQ
                           == net.taskQ[TaskOf(id) := net.taskQ[TaskOf(id)] + [RequestMessage(s, id, bytes)]]))
  {
    if !Fits(bytes) {
      CreateWrite(net.shm, s, bytes);
    }
  }

  lemma ResponseEffect(net: Net, h: nat, isNull: bool, bytes: seq<byte>, fault: Fault)
    requires ValidNet(net) && h !in net.shm
    ensures var (sent, err) := Response(net, h, isNull, bytes, fault);
            && sent.taskQ == net.taskQ
            && (forall k | k in net.shm :: k in sent.shm && sent.shm[k] == net.shm[k])
            && (forall k | k in sent.shm :: k in net.shm || (k == h && !Fits(bytes)))
            && (err != IPC_SUCCESS ==> sent.inbox == net.inbox)
            && (err == IPC_SUCCESS ==>
                  && !isNull && bytes != []
                  && sent.inbox == net.inbox + [ResponseMessage(h, bytes)]
                  && sent.shm == (if Fits(bytes) then net.shm else net.shm[h := bytes]))
            && (err == IPC_ERR_PARAMETER <==> isNull || bytes == [])
            && (fault.NoFault? && !isNull && bytes != [] ==> err == IPC_SUCCESS)
  {
    if !Fits(bytes) {
      CreateWrite(net.shm, h, bytes);
    }
  }
}
