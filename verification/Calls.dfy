/** What the callers of the API observe, in the numbers of the headers: where a message
    goes, what it looks like, and which code each call returns. */
module Calls {
  import opened Base
  import opened Deadline
  import opened Net
  import opened Pending
  import W = Wire

  // ------------------------------------------------- routing

  /** DECLARE_REQ_ID(t, n) names task t. */
  lemma TaskOfIs(t: nat, n: nat)
    requires n < 256
    ensures TaskOf(256 * t + n) == t
  {
  }

  /** An accepted request with identifier DECLARE_REQ_ID(t, n) appends one message to the
      queue of task t and to no other: up to 500 bytes travel inside it, longer payloads
      in a segment under its number. */
  lemma RequestRouted(m: Mgr, c: Call, t: nat, n: nat)
    requires ValidMgr(m) && 2 <= t <= 11 && n < 256 && c.id == 256 * t + n
    requires Request(m, c).1 == 0 && NextSeqNum(m.issued) !in m.net.shm
    ensures var net, s := Request(m, c).0.net, (m.issued + 1) % 0x1_0000_0000;
            && |net.taskQ| == 12 && net.inbox == m.net.inbox
            && (forall u | 0 <= u < 12 && u != t :: net.taskQ[u] == m.net.taskQ[u])
            && (if |c.bytes| <= 500
                then net.taskQ[t] == m.net.taskQ[t] + [Message(3, s, c.id, |c.bytes|, c.bytes)] && net.shm == m.net.shm
                else net.taskQ[t] == m.net.taskQ[t] + [Message(4, s, c.id, |c.bytes|, [])]
                     && net.shm == m.net.shm[s := c.bytes])
  {
    var s := NextSeqNum(m.issued);
    TaskOfIs(t, n);
    SendRequestEffect(m.net, s, c.id, c.bytes, c.fault);
    hide SendRequest, FirstFree, ExpiresAt, TaskOf;
  }

  /** A request for the manager itself goes to the manager's own queue, and so does every
      answer: up to 500 bytes inside the message, longer ones in a segment. */
  lemma AnswerRouted(net: Net, h: nat, isNull: bool, bytes: seq<byte>, fault: Fault)
    requires ValidNet(net) && h !in net.shm && Response(net, h, isNull, bytes, fault).1 == 0
    ensures var net' := Response(net, h, isNull, bytes, fault).0;
            && net'.taskQ == net.taskQ
            && (if |bytes| <= 500
                then net'.inbox == net.inbox + [Message(5, h, 0, |bytes|, bytes)] && net'.shm == net.shm
                else net'.inbox == net.inbox + [Message(6, h, 0, |bytes|, [])] && net'.shm == net.shm[h := bytes])
  {
    ResponseEffect(net, h, isNull, bytes, fault);
    hide Response;
  }

  /** The packet of a request, byte by byte. */
  lemma PacketImage(s0: byte, s1: byte, s2: byte, s3: byte, n: byte, t: byte, data: seq<byte>)
    requires |data| <= 500
    ensures var s: int := s0 + 256 * s1 + 65536 * s2 + 16777216 * s3;
            && W.InRange(RequestMessage(s, 256 * t + n, data))
            && W.Encode(RequestMessage(s, 256 * t + n, data)) ==
               [3, 0, s0, s1, s2, s3, n, t, |data| % 256, |data| / 256, 0, 0] + data
  {
    var s: nat := s0 + 256 * s1 + 65536 * s2 + 16777216 * s3;
    NumberBytes(s, s0, s1, s2, s3);
    hide W.Le32;
    var size: byte, high: byte := |data| % 256, |data| / 256;
    NumberBytes(|data|, size, high, 0, 0);
    assert W.Le16(3) == [3, 0] && W.Le16(256 * t + n) == [n, t];
  }

  lemma NumberBytes(s: nat, s0: byte, s1: byte, s2: byte, s3: byte)
    requires s == s0 + 256 * s1 + 65536 * s2 + 16777216 * s3
    ensures s < TWO32 && W.Le32(s) == [s0, s1, s2, s3]
  {
    W.Digit(s, s1 + 256 * s2 + 65536 * s3, s0);
    W.Digit(s / 256, s2 + 256 * s3, s1);
    W.Digit(s / 256 / 256, s3, s2);
    W.DivTwice(s);
  }

  // ------------------------------------------------- return codes

  /** SendIpcMessage; 0 means that the message has been appended to one queue. */
  lemma SendCodes(net: Net, msg: Message, task: nat, fault: Fault)
    requires ValidNet(net)
    ensures var (net', ret) := SendIpcMessage(net, msg, task, fault);
            && ret == (if task == 0 || task > 11 then 6 else if fault.MqSend? then 5 else 0)
            && (ret != 0 ==> net' == net)
            && (ret == 0 && task == 1 ==> net' == net.(inbox := net.inbox + [msg]))
            && (ret == 0 && task != 1 ==>
                  net'.taskQ[task] == net.taskQ[task] + [msg] && net'.inbox == net.inbox && net'.shm == net.shm
                  && forall u | 0 <= u < 12 && u != task :: net'.taskQ[u] == net.taskQ[u])
  {
  }

  /** Request, in the order of its checks. */
  lemma RequestCodes(m: Mgr, c: Call)
    requires ValidMgr(m)
    ensures var s, t := (m.issued + 1) % 0x1_0000_0000, c.id / 256;
            Request(m, c).1 ==
            if c.isNull && |c.bytes| != 0 then 3
            else if c.id == 0 then 12
            else if forall j | 0 <= j < 16 :: m.slots[j].id != 0 then 13
            else if |c.bytes| > 500 && (c.fault.ShmGet? || (s in m.net.shm && |m.net.shm[s]| < |c.bytes|)) then 17
            else if |c.bytes| > 500 && c.fault.ShmAt? then 18
            else if |c.bytes| > 500 && c.fault.ShmDt? then 20
            else if c.fault.Calloc? then 14
            else if t == 0 || t > 11 || c.fault.MqSend? then 15
            else 0
  {
  }

  /** Response. */
  lemma ResponseCodes(net: Net, h: nat, isNull: bool, bytes: seq<byte>, fault: Fault)
    requires ValidNet(net)
    ensures Response(net, h, isNull, bytes, fault).1 ==
            if isNull || bytes == [] then 7
            else if |bytes| > 500 && (fault.ShmGet? || (h in net.shm && |net.shm[h]| < |bytes|)) then 10
            else if |bytes| > 500 && fault.ShmAt? then 11
            else if |bytes| > 500 && fault.ShmDt? then 14
            else if fault.Calloc? then 8
            else if fault.MqSend? then 5
            else 0
  {
  }

  /** WaitForRequest once a message has been received, whatever it is. */
  lemma WaitForRequestCodes(shm: Shm, msg: Message, capacity: nat, fault: Fault)
    ensures var got, s := WaitForRequest(shm, msg, capacity, fault).1, msg.seqNum;
            (if got.Received? then 0 else got.error) ==
            if msg.size > capacity then 12
            else if msg.kind == 3 then (if |msg.data| == msg.size then 0 else 9)
            else if msg.kind != 4 then 9
            else if fault.ShmGet? || (s in shm && |shm[s]| < msg.size) then 10
            else if fault.ShmAt? then 11
            else if fault.ShmRm? then 13
            else if fault.ShmDt? then 14
            else 0
  {
  }

  /** ProcessLongResponses: once the segment has been removed it succeeds.  Key 0 stands
      for a new private segment, which must not be empty. */
  lemma LongResponseCodes(m: Mgr, s: nat, size: nat, fault: Fault, script: Script)
    requires ValidMgr(m)
    ensures ProcessLongResponses(m, s, size, fault, script).1 ==
            if fault.ShmGet? || (if s == 0 then size == 0 else s !in m.net.shm || |m.net.shm[s]| < size) then 17
            else if fault.ShmAt? then 18
            else if fault.ShmRm? then 19
            else 0
  {
  }

  /** A cleared slot is all zero, and clearing leaves no other kind. */
  lemma ClearedSlots(m: Mgr, i: nat, status: Status, data: seq<byte>, err: nat)
    requires ValidMgr(m) && i < 16
    ensures ClearRequests(m).slots[i] == Slot(0, 0, 0, Timeval(0, 0))
    ensures Finish(m, i, status, data, err).slots == m.slots[i := Slot(0, 0, 0, Timeval(0, 0))]
  {
  }

  /** A private segment is all zero. */
  lemma PrivateSegmentIsZero(shm: Shm, size: nat)
    ensures var data := FindSegment(shm, 0, size);
            && (data.None? <==> size == 0)
            && (data.Some? ==> |data.value| == size && forall i | 0 <= i < size :: data.value[i] == 0)
  {
  }

  /** The checks on the raw buffer: an empty message, a payload beyond the capacity, an
      unknown type. */
  lemma CheckCodes(buf: seq<byte>, recvLen: nat, capacity: nat)
    requires |buf| == 513
    ensures var v, kind, size := W.Check(buf, recvLen, capacity), W.Get16(buf, 0), W.Get32(buf, 8);
            && (recvLen == 0 ==> v == W.Refuse(3))
            && (recvLen > 0 && size > capacity ==> v == W.Refuse(12))
            && (recvLen > 0 && size <= capacity && kind != 3 && kind != 4 ==> v == W.Refuse(9))
  {
    hide W.Get16, W.Get32;
  }

  /** A long request whose segment is missing is read from a new one, all zero. */
  lemma MissingSegmentIsZero(shm: Shm, msg: Message)
    requires msg.kind == 4 && msg.seqNum !in shm
    ensures var (shm', got) := WaitForRequest(shm, msg, msg.size, NoFault);
            && shm' == shm && got.Received? && |got.bytes| == msg.size
            && forall i | 0 <= i < msg.size :: got.bytes[i] == 0
  {
    assert shm[msg.seqNum := seq(msg.size, _ => 0)] - {msg.seqNum} == shm;
  }
}
