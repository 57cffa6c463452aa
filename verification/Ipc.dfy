/** ipc.c at byte level: packets in POSIX message queues and shared-memory segments.
    Seen through Decode it is the transport of module Net. */
module Ipc {
  import opened Base
  import N = Net
  import W = Wire

  function DecodeQueue(q: seq<seq<byte>>): (r: seq<N.Message>)
    requires forall i | 0 <= i < |q| :: |q[i]| >= HDR_SIZE
    ensures |r| == |q|
  {
    seq(|q|, i requires 0 <= i < |q| => W.Decode(q[i]))
  }

  lemma DecodeAppend(q: seq<seq<byte>>, p: seq<byte>)
    requires (forall i | 0 <= i < |q| :: |q[i]| >= HDR_SIZE) && |p| >= HDR_SIZE
    ensures DecodeQueue(q + [p]) == DecodeQueue(q) + [W.Decode(p)]
  {
  }

  lemma DecodeTail(q: seq<seq<byte>>)
    requires q != [] && forall i | 0 <= i < |q| :: |q[i]| >= HDR_SIZE
    ensures DecodeQueue(q[1..]) == DecodeQueue(q)[1..]
  {
  }

  /** Eleven queues of packets no shorter than a header and no longer than a message. */
  ghost predicate Packets(queues: seq<seq<seq<byte>>>) {
    && |queues| == TSK_NUM
    && forall t, i | 0 <= t < TSK_NUM && 0 <= i < |queues[t]| :: HDR_SIZE <= |queues[t][i]| <= MAX_MESSAGE_SIZE
  }

  ghost function TaskQueues(queues: seq<seq<seq<byte>>>): (r: seq<seq<N.Message>>)
    requires Packets(queues)
    ensures |r| == TSK_NUM + 1
  {
    seq(TSK_NUM + 1, t requires 0 <= t < TSK_NUM + 1 => if t < 2 then [] else DecodeQueue(queues[t - 1]))
  }

  /** The transport the packets stand for. */
  ghost function NetOf(queues: seq<seq<seq<byte>>>, shm: N.Shm): (net: N.Net)
    requires Packets(queues)
    ensures N.ValidNet(net)
  {
    N.Net(DecodeQueue(queues[0]), TaskQueues(queues), shm)
  }

  lemma TasksUpdate(queues: seq<seq<seq<byte>>>, task: nat, q: seq<seq<byte>>)
    requires Packets(queues) && 1 <= task <= TSK_NUM
    requires forall i | 0 <= i < |q| :: HDR_SIZE <= |q[i]| <= MAX_MESSAGE_SIZE
    ensures Packets(queues[task - 1 := q])
    ensures TaskQueues(queues[task - 1 := q])
            == if task == TSKID_MGR then TaskQueues(queues) else TaskQueues(queues)[task := DecodeQueue(q)]
  {
  }

  lemma Sizes(queues: seq<seq<seq<byte>>>, task: nat, q: seq<seq<byte>>)
    requires Packets(queues) && 1 <= task <= TSK_NUM && q == queues[task - 1]
    ensures |queues| == TSK_NUM && forall i | 0 <= i < |q| :: HDR_SIZE <= |q[i]| <= MAX_MESSAGE_SIZE
  {
  }

  lemma NetAppend(queues: seq<seq<seq<byte>>>, shm: N.Shm, task: nat, p: seq<byte>)
    requires Packets(queues) && 1 <= task <= TSK_NUM && HDR_SIZE <= |p| <= MAX_MESSAGE_SIZE
    ensures var queues' := queues[task - 1 := queues[task - 1] + [p]];
            && Packets(queues')
            && NetOf(queues', shm) == N.SendIpcMessage(NetOf(queues, shm), W.Decode(p), task, N.NoFault).0
  {
    Sizes(queues, task, queues[task - 1]);
    hide W.Decode, DecodeQueue, TaskQueues, Packets;
    DecodeAppend(queues[task - 1], p);
    TasksUpdate(queues, task, queues[task - 1] + [p]);
  }

  lemma NetTail(queues: seq<seq<seq<byte>>>, shm: N.Shm, task: nat)
    requires Packets(queues) && 1 <= task <= TSK_NUM && queues[task - 1] != []
    ensures var queues' := queues[task - 1 := queues[task - 1][1..]]; var net := NetOf(queues, shm);
            && Packets(queues')
            && NetOf(queues', shm) == if task == TSKID_MGR then net.(inbox := net.inbox[1..])
                                      else net.(taskQ := net.taskQ[task := net.taskQ[task][1..]])
  {
    DecodeTail(queues[task - 1]);
    hide W.Decode, DecodeQueue;
    TasksUpdate(queues, task, queues[task - 1][1..]);
  }

  /** pMsg->... = ...: the header of a packed message, field by field. */
  method PutHeader(pMsg: array<byte>, kind: nat, seqNum: nat, id: nat, size: nat)
    requires pMsg.Length >= HDR_SIZE && kind < TWO16 && seqNum < TWO32 && id < TWO16 && size < TWO32
    modifies pMsg
    ensures pMsg[..HDR_SIZE] == W.Le16(kind) + W.Le32(seqNum) + W.Le16(id) + W.Le32(size)
    ensures pMsg[HDR_SIZE..] == old(pMsg[HDR_SIZE..])
  {
    hide W.Le16, W.Le32;
    ghost var rest := pMsg[HDR_SIZE..];
    Put(pMsg, 0, W.Le16(kind));
    assert pMsg[..2] == W.Le16(kind) && pMsg[HDR_SIZE..] == rest;
    Put(pMsg, 2, W.Le32(seqNum));
    assert pMsg[..6] == pMsg[..2] + pMsg[2..6] && pMsg[HDR_SIZE..] == rest;
    Put(pMsg, 6, W.Le16(id));
    assert pMsg[..8] == pMsg[..6] + pMsg[6..8] && pMsg[HDR_SIZE..] == rest;
    Put(pMsg, 8, W.Le32(size));
    assert pMsg[..12] == pMsg[..8] + pMsg[8..12];
  }

  lemma Halves(s: seq<byte>, k: nat)
    requires k <= |s|
    ensures s == s[..k] + s[k..]
  {
  }

  /** memcpy to a + offset. */
  method Put(a: array<byte>, offset: nat, bytes: seq<byte>)
    requires offset + |bytes| <= a.Length
    modifies a
    ensures a[..offset] == old(a[..offset])
    ensures a[offset..offset + |bytes|] == bytes
    ensures a[offset + |bytes|..] == old(a[offset + |bytes|..])
  {
    forall k | 0 <= k < |bytes| {
      a[offset + k] := bytes[k];
    }
  }

  /** What the pointers *phReq, *pRequestID and *pReqSize hold. */
  datatype Outputs = Outputs(hReq: nat, requestId: nat, reqSize: nat)

  function ErrorOf(got: N.Received): nat {
    if got.Received? then IPC_SUCCESS else got.error
  }

  /** What a receiver's outputs and buffer hold after the call, given what they held
      before: *pReqSize is the capacity on entry. */
  ghost predicate Handed(shm: N.Shm, msg: N.Message, fault: N.Fault, outs: Outputs, after: Outputs,
                         was: seq<byte>, buf: seq<byte>) {
    match N.Written(shm, msg, outs.reqSize, fault)
    case None => after == outs && buf == was
    case Some(bytes) =>
      after == Outputs(msg.seqNum, msg.id, msg.size) && |bytes| <= |was| && buf == bytes + was[|bytes|..]
  }

  /** For a request as it was sent, with the payload in its segment if it is long: the
      return code, and what the task is handed.  Outputs and buffer are untouched by the
      first three errors, and written in spite of the last two. */
  lemma SentIsHanded(shm: N.Shm, fault: N.Fault, outs: Outputs, after: Outputs, was: seq<byte>, buf: seq<byte>,
                     s: nat, id: nat, bytes: seq<byte>)
    requires |bytes| > 500 ==> s in shm && shm[s] == bytes
    requires Handed(shm, N.RequestMessage(s, id, bytes), fault, outs, after, was, buf)
    ensures var ret := ErrorOf(N.WaitForRequest(shm, N.RequestMessage(s, id, bytes), outs.reqSize, fault).1);
            && ret == (if |bytes| > outs.reqSize then 12
                       else if |bytes| <= 500 then 0
                       else if fault.ShmGet? then 10
                       else if fault.ShmAt? then 11
                       else if fault.ShmRm? then 13
                       else if fault.ShmDt? then 14
                       else 0)
            && (ret == 12 || ret == 10 || ret == 11 ==> after == outs && buf == was)
            && (ret == 0 || ret == 13 || ret == 14 ==>
                  && after.hReq == s && after.requestId == id && after.reqSize == |bytes|
                  && |bytes| <= |was| && buf == bytes + was[|bytes|..])
  {
  }

  class Port {
    /** `queues[t - 1]` is the message queue of task t, gTskQ. */
    var queues: seq<seq<seq<byte>>>
    var shm: N.Shm

    ghost predicate Valid()
      reads this
    {
      Packets(queues)
    }

    ghost function View(): (net: N.Net)
      reads this
      requires Valid()
      ensures N.ValidNet(net)
    {
      NetOf(queues, shm)
    }

    constructor ()
      ensures Valid() && View() == N.Net([], seq(TSK_NUM + 1, _ => []), map[])
    {
      queues := seq(TSK_NUM, _ => []);
      shm := map[];
      new;
      assert TaskQueues(queues) == seq(TSK_NUM + 1, _ => []);
    }

    method SendIpcMessage(pBuf: array<byte>, bufLen: nat, task: nat, fault: N.Fault) returns (ret: nat)
      requires Valid() && HDR_SIZE <= bufLen <= MAX_MESSAGE_SIZE && bufLen <= pBuf.Length
      modifies this
      ensures Valid()
      ensures (View(), ret) == N.SendIpcMessage(old(View()), W.Decode(pBuf[..bufLen]), task, fault)
      ensures shm == old(shm)
    {
      if task == 0 || task > TSK_NUM {
        return IPC_ERR_INVALID_TASKID;
      }
      if fault.MqSend? {
        return IPC_ERR_MSG_SEND;
      }
      NetAppend(queues, shm, task, pBuf[..bufLen]);
      queues := queues[task - 1 := queues[task - 1] + [pBuf[..bufLen]]];
      return IPC_SUCCESS;
    }

    /** shmget(IPC_CREAT). */
    method ShmCreate(key: nat, size: nat) returns (ok: bool)
      requires Valid()
      modifies this`shm
      ensures queues == old(queues)
      ensures ok <==> N.ShmCreate(old(shm), key, size).Some?
      ensures shm == if ok then N.ShmCreate(old(shm), key, size).value else old(shm)
      ensures ok ==> key in shm && size <= |shm[key]|
    {
      if key !in shm {
        shm := shm[key := seq(size, _ => 0)];
        return true;
      }
      return size <= |shm[key]|;
    }

    method SendShort(kind: nat, seqNum: nat, id: nat, task: nat, bytes: seq<byte>, fault: N.Fault) returns (ret: nat)
      requires Valid() && kind < TWO16 && seqNum < TWO32 && id < TWO16 && N.Fits(bytes)
      modifies this
      ensures Valid() && shm == old(shm)
      ensures (View(), ret) == N.SendIpcMessage(old(View()), N.ShortMessage(kind, seqNum, id, bytes), task, fault)
    {
      var pMsg := new byte[|bytes| + HDR_SIZE];
      PutHeader(pMsg, kind, seqNum, id, |bytes|);
      Put(pMsg, HDR_SIZE, bytes);
      W.DecodeEncode(N.ShortMessage(kind, seqNum, id, bytes));
      Halves(pMsg[..], HDR_SIZE);
      assert pMsg[..][..HDR_SIZE] == pMsg[..HDR_SIZE] && pMsg[..][HDR_SIZE..] == bytes;
      assert pMsg[..|bytes| + HDR_SIZE] == pMsg[..] == W.Encode(N.ShortMessage(kind, seqNum, id, bytes));
      ret := SendIpcMessage(pMsg, |bytes| + HDR_SIZE, task, fault);
    }

    method SendLong(kind: nat, seqNum: nat, id: nat, task: nat, size: nat, fault: N.Fault) returns (ret: nat)
      requires Valid() && kind < TWO16 && seqNum < TWO32 && id < TWO16 && size < TWO32
      modifies this
      ensures Valid() && shm == old(shm)
      ensures (View(), ret) == N.SendIpcMessage(old(View()), N.Message(kind, seqNum, id, size, []), task, fault)
    {
      var pMsg := new byte[HDR_SIZE];
      PutHeader(pMsg, kind, seqNum, id, size);
      W.DecodeEncode(N.Message(kind, seqNum, id, size, []));
      assert pMsg[..HDR_SIZE] == W.Encode(N.Message(kind, seqNum, id, size, []));
      ret := SendIpcMessage(pMsg, HDR_SIZE, task, fault);
    }

    method SendShortResponse(h: nat, bytes: seq<byte>, fault: N.Fault) returns (ret: nat)
      requires Valid() && h < TWO32 && N.Fits(bytes)
      modifies this
      ensures Valid() && (View(), ret) == N.SendShortResponse(old(View()), h, bytes, fault)
    {
      if fault.Calloc? {
        return IPC_ERR_NO_MEMORY;
      }
      ret := SendShort(MSG_TYPE_SHORT_RESPONSE, h, 0, TSKID_MGR, bytes, fault);
    }

    method SendLongResponse(h: nat, bytes: seq<byte>, fault: N.Fault) returns (ret: nat)
      requires Valid() && h < TWO32 && |bytes| < TWO32
      modifies this
      ensures Valid() && (View(), ret) == N.SendLongResponse(old(View()), h, bytes, fault)
    {
      if fault.ShmGet? {
        return IPC_ERR_SHM_ALLOCATE;
      }
      var ok := ShmCreate(h, |bytes|);
      if !ok {
        return IPC_ERR_SHM_ALLOCATE;
      }
      if fault.ShmAt? {
        return IPC_ERR_SHM_ATTACH;
      }
      shm := N.ShmWrite(shm, h, bytes);
      if fault.ShmDt? {
        return IPC_ERR_SHM_DETACH;
      }
      if fault.Calloc? {
        return IPC_ERR_NO_MEMORY;
      }
      ret := SendLong(MSG_TYPE_LONG_RESPONSE, h, 0, TSKID_MGR, |bytes|, fault);
    }

    method Response(h: nat, isNull: bool, bytes: seq<byte>, fault: N.Fault) returns (ret: nat)
      requires Valid() && h < TWO32 && |bytes| + HDR_SIZE < TWO32
      modifies this
      ensures Valid() && (View(), ret) == N.Response(old(View()), h, isNull, bytes, fault)
    {
      if isNull || |bytes| == 0 {
        return IPC_ERR_PARAMETER;
      }
      if |bytes| + HDR_SIZE <= MAX_MESSAGE_SIZE {
        ret := SendShortResponse(h, bytes, fault);
      } else {
        ret := SendLongResponse(h, bytes, fault);
      }
    }

    /** RecvIpcMessage when a packet is waiting: it is copied to the front of IpcBuf,
        the rest of which stays uninitialised. */
    method RecvIpcMessage(task: nat, ipcBuf: array<byte>) returns (recvLen: nat)
      requires Valid() && 1 <= task <= TSK_NUM && queues[task - 1] != [] && ipcBuf.Length == W.BUF_SIZE
      modifies this`queues, ipcBuf
      ensures Valid() && shm == old(shm) && queues == old(queues[task - 1 := queues[task - 1][1..]])
      ensures HDR_SIZE <= recvLen <= MAX_MESSAGE_SIZE && ipcBuf[..recvLen] == old(queues[task - 1][0])
    {
      var packet := queues[task - 1][0];
      Put(ipcBuf, 0, packet);
      NetTail(queues, shm, task);
      queues := queues[task - 1 := queues[task - 1][1..]];
      recvLen := |packet|;
    }

    method ReceiveLongRequest(seqNum: nat, id: nat, size: nat, pReqData: array<byte>, outs: Outputs,
                              fault: N.Fault, ghost msg: N.Message) returns (ret: nat, after: Outputs)
      requires Valid() && msg == N.Message(MSG_TYPE_LONG_REQUEST, seqNum, id, size, msg.data)
      requires size <= outs.reqSize <= pReqData.Length
      modifies this`shm, pReqData
      ensures Valid() && queues == old(queues)
      ensures shm == N.ReceiveLongRequest(old(shm), msg, fault).0
      ensures ret == ErrorOf(N.ReceiveLongRequest(old(shm), msg, fault).1)
      ensures Handed(old(shm), msg, fault, outs, after, old(pReqData[..]), pReqData[..])
    {
      after := outs;
      if fault.ShmGet? {
        return IPC_ERR_SHM_ALLOCATE, after;
      }
      var ok := ShmCreate(seqNum, size);
      if !ok {
        return IPC_ERR_SHM_ALLOCATE, after;
      }
      if fault.ShmAt? {
        return IPC_ERR_SHM_ATTACH, after;
      }
      after := Outputs(seqNum, id, size);
      Put(pReqData, 0, shm[seqNum][..size]);
      assert pReqData[..] == pReqData[0..size] + pReqData[size..];
      if fault.ShmRm? {
        return IPC_ERR_SHM_REMOVE, after;
      }
      shm := shm - {seqNum};
      if fault.ShmDt? {
        return IPC_ERR_SHM_DETACH, after;
      }
      return IPC_SUCCESS, after;
    }

    /** The part of WaitForRequest that follows a successful RecvIpcMessage. */
    method TakeRequest(ipcBuf: array<byte>, recvLen: nat, pReqData: array<byte>, outs: Outputs, fault: N.Fault)
      returns (ret: nat, after: Outputs)
      requires Valid() && ipcBuf.Length == W.BUF_SIZE && HDR_SIZE <= recvLen <= MAX_MESSAGE_SIZE
      requires outs.reqSize <= pReqData.Length && outs.reqSize <= TWO32 - HDR_SIZE && ipcBuf != pReqData
      modifies this`shm, pReqData
      ensures Valid() && queues == old(queues)
      ensures var msg := W.Decode(old(ipcBuf[..recvLen]));
              && shm == N.WaitForRequest(old(shm), msg, outs.reqSize, fault).0
              && ret == ErrorOf(N.WaitForRequest(old(shm), msg, outs.reqSize, fault).1)
              && Handed(old(shm), msg, fault, outs, after, old(pReqData[..]), pReqData[..])
    {
      after := outs;
      var buf := ipcBuf[..];
      ghost var packet := ipcBuf[..recvLen];
      ghost var msg := W.Decode(packet);
      W.EncodeDecode(packet);
      assert buf == packet + buf[recvLen..];
      W.CheckRefines(msg, buf[recvLen..], outs.reqSize);
      hide W.Encode, W.Decode, W.Check, NetOf;
      var verdict := W.Check(buf, recvLen, outs.reqSize);
      match verdict {
        case Refuse(err) => ret := err;
        case TakeShort(s, id, size) =>
          after := Outputs(s, id, size);
          Put(pReqData, 0, buf[HDR_SIZE..HDR_SIZE + size]);
          assert pReqData[..] == pReqData[0..size] + pReqData[size..];
          ret := IPC_SUCCESS;
        case TakeLong(s, id, size) =>
          ret, after := ReceiveLongRequest(s, id, size, pReqData, outs, fault, msg);
      }
    }

    /** WaitForRequest by task `task`, whose buffer holds at least *pReqSize bytes;
        `nullArg` if some pointer is NULL, `broken` if mq_timedreceive fails otherwise
        than by a timeout. */
    method WaitForRequest(task: nat, nullArg: bool, broken: bool, pReqData: array<byte>, outs: Outputs, fault: N.Fault)
      returns (ret: nat, after: Outputs)
      requires Valid() && 2 <= task <= TSK_NUM
      requires outs.reqSize <= pReqData.Length && outs.reqSize <= TWO32 - HDR_SIZE
      modifies this, pReqData
      ensures Valid()
      ensures nullArg || broken || old(View()).taskQ[task] == [] ==>
                && ret == (if nullArg then 7 else if broken then 3 else 2)
                && View() == old(View()) && after == outs && pReqData[..] == old(pReqData[..])
      ensures !nullArg && !broken && old(View()).taskQ[task] != [] ==>
                var net := old(View());
                var msg := net.taskQ[task][0];
                var (shm', got) := N.WaitForRequest(net.shm, msg, outs.reqSize, fault);
                && View() == N.Net(net.inbox, net.taskQ[task := net.taskQ[task][1..]], shm') && ret == ErrorOf(got)
                && Handed(net.shm, msg, fault, outs, after, old(pReqData[..]), pReqData[..])
      ensures !nullArg && !broken && old(View()).taskQ[task] != [] ==>
                var net := old(View());
                forall s, id, bytes | net.taskQ[task][0] == N.RequestMessage(s, id, bytes)
                                      && (|bytes| > 500 ==> s in net.shm && net.shm[s] == bytes) ::
                  && (|bytes| > outs.reqSize ==> ret == 12)
                  && (|bytes| <= outs.reqSize && (|bytes| <= 500 || fault.NoFault?) ==> ret == 0)
                  && (ret == 0 ==>
                        && after.hReq == s && after.requestId == id && after.reqSize == |bytes|
                        && |bytes| <= pReqData.Length && pReqData[..] == bytes + old(pReqData[|bytes|..]))
    {
      after := outs;
      if nullArg {
        return IPC_ERR_PARAMETER, after;
      }
      if broken {
        return IPC_ERR_MSG_RECV, after;
      }
      if queues[task - 1] == [] {
        return IPC_ERR_TIMEOUT, after;
      }
      NetTail(queues, shm, task);
      ghost var net, was := View(), pReqData[..];
      var ipcBuf := new byte[W.BUF_SIZE];
      var recvLen := RecvIpcMessage(task, ipcBuf);
      hide N.WaitForRequest, N.Written, W.Decode;
      ret, after := TakeRequest(ipcBuf, recvLen, pReqData, outs, fault);
      hide Handed, ErrorOf, Packets, NetOf, N.RequestMessage;
      forall s, id, bytes | net.taskQ[task][0] == N.RequestMessage(s, id, bytes)
                            && (|bytes| > 500 ==> s in net.shm && net.shm[s] == bytes)
        ensures && (|bytes| > outs.reqSize ==> ret == 12)
                && (|bytes| <= outs.reqSize && (|bytes| <= 500 || fault.NoFault?) ==> ret == 0)
                && (ret == 0 ==>
                      && after.hReq == s && after.requestId == id && after.reqSize == |bytes|
                      && |bytes| <= |was| && pReqData[..] == bytes + was[|bytes|..])
      {
        SentIsHanded(net.shm, fault, outs, after, was, pReqData[..], s, id, bytes);
      }
    }
  }
}
