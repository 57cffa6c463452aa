/** The tasks' steps, and the manager taking a message from its inbox, keep the
    invariant. */
module ProtocolTasks {
  import opened Base
  import opened Net
  import opened Pending
  import opened Protocol
  import opened ProtocolFrames
  import opened ProtocolSteps

  function Move(recs: Recs, s: nat, stage: Stage): Recs
    requires s in recs
  {
    recs[s := recs[s].(stage := stage)]
  }

  /** The parts of the invariant that do not mention the transport. */
  ghost predicate CoreInv(m: Mgr, answers: Answers) {
    && m.issued < TWO16
    && TableOk(m.slots, m.issued, m.recs)
    && RecsOk(m.recs, m.issued, m.slots)
    && RankOk(m.recs)
    && StatusOk(m.recs)
    && AnswersOk(answers, m.recs)
    && LogOk(m.log, m.recs, answers)
  }

  lemma Assemble(m: Mgr, hands: Hands, answers: Answers)
    ensures MgrInv(m, hands, answers) <==>
            CoreInv(m, answers) && NetInv(m.net, m.issued, m.recs, hands, answers)
  {
  }

  lemma MoveTable(slots: seq<Slot>, issued: nat, recs: Recs, s: nat, stage: Stage)
    requires TableOk(slots, issued, recs) && RecsOk(recs, issued, slots) && s in recs
    ensures TableOk(slots, issued, Move(recs, s, stage)) && RecsOk(Move(recs, s, stage), issued, slots)
  {
  }

  /** Nothing earlier for the same task is behind stage `stage`. */
  ghost predicate MayMove(recs: Recs, s: nat, stage: Stage)
    requires s in recs
  {
    stage.Lost? || (Rank(stage) >= Rank(recs[s].stage) && !recs[s].stage.Lost? &&
                    forall u | u in recs && u < s :: InOrder(recs[u], recs[s].(stage := stage)))
  }

  lemma MoveCore(m: Mgr, answers: Answers, answers': Answers, s: nat, stage: Stage)
    requires CoreInv(m, answers) && s in m.recs && !m.recs[s].stage.Gone?
    requires AgreeExcept(answers, answers', s)
    requires s in answers' ==> stage.Replied? || stage.Gone?
    requires MayMove(m.recs, s, stage)
    ensures CoreInv(m.(recs := Move(m.recs, s, stage)), answers')
  {
    hide TableOk, RecsOk, LogOk;
    MoveTable(m.slots, m.issued, m.recs, s, stage);
    LogStage(m.log, m.recs, answers, answers', s, stage);
    RankFrame(m.recs, Move(m.recs, s, stage), s);
  }

  // ------------------------------------------------- WaitForRequest

  /** A task gets the identifier and the bytes of the request, over either transport,
      or nothing; only the segment of this request is touched. */
  lemma WaitForRequestEffect(shm: Shm, msg: Message, t: nat, recs: Recs, capacity: nat, fault: Fault)
    requires ReqMsgOk(msg, t, recs, shm)
    requires Fits(recs[msg.seqNum].bytes) ==> msg.seqNum !in shm
    ensures var (shm', got) := WaitForRequest(shm, msg, capacity, fault); var r := recs[msg.seqNum];
            && AgreeExcept(shm, shm', msg.seqNum) && shm'.Keys <= shm.Keys
            && (got.Received? ==> msg.seqNum !in shm' && got == Received(msg.seqNum, r.id, r.bytes))
            && (fault.NoFault? && capacity >= |r.bytes| ==> got.Received?)
  {
  }

  lemma ReceiveNet(net: Net, issued: nat, recs: Recs, hands: Hands, answers: Answers,
                   t: nat, shm': Shm, stage: Stage)
    requires NetInv(net, issued, recs, hands, answers) && IsTask(t) && hands[t].None? && net.taskQ[t] != []
    requires ReqMsgOk(net.taskQ[t][0], t, recs, net.shm)
    requires var s := net.taskQ[t][0].seqNum;
             && AgreeExcept(net.shm, shm', s) && shm'.Keys <= net.shm.Keys
             && (stage.Lost? || (stage.InHand? && s !in shm'))
    ensures var s := net.taskQ[t][0].seqNum;
            NetInv(Net(net.inbox, net.taskQ[t := net.taskQ[t][1..]], shm'), issued, Move(recs, s, stage),
                   if stage.InHand? then hands[t := Some(s)] else hands, answers)
  {
    hide InQueue, InReplies;
    var s := net.taskQ[t][0].seqNum;
    var recs', net' := Move(recs, s, stage), Net(net.inbox, net.taskQ[t := net.taskQ[t][1..]], shm');
    var hands' := if stage.InHand? then hands[t := Some(s)] else hands;
    assert QueueOk(net.taskQ[t], t, recs, net.shm) by {
      hide InboxOk, PlacesOk, HandsOk, ShmOk, QueueOk;
    }
    QueueTail(net.taskQ[t], t, recs, net.shm);
    assert QueuesOk(net'.taskQ, recs', shm') by {
      hide InboxOk, PlacesOk, HandsOk, ShmOk, QueueOk;
      forall u: nat | IsTask(u) ensures QueueOk(net'.taskQ[u], u, recs', shm') {
        if u != t {
          NotInQueue(net.taskQ[u], u, recs, net.shm, s, t);
        }
        QueueFrame(net'.taskQ[u], u, recs, recs', net.shm, shm', s);
      }
    }
    assert InboxOk(net.inbox, recs', answers, shm') by {
      hide QueuesOk, PlacesOk, HandsOk, ShmOk, QueueOk, InboxOk;
      NotInReplies(net.inbox, recs, answers, net.shm, s);
      InboxFrame(net.inbox, recs, recs', answers, answers, net.shm, shm', s);
    }
    assert PlacesOk(recs', net', hands') by {
      hide QueuesOk, InboxOk, HandsOk, ShmOk, QueueOk, ReqMsgOk;
    }
    hide QueuesOk, InboxOk, PlacesOk, ReqMsgOk, QueueOk;
  }

  /** A request addressed to task t is in no other queue. */
  lemma NotInQueue(q: seq<Message>, u: nat, recs: Recs, shm: Shm, s: nat, t: nat)
    requires QueueOk(q, u, recs, shm) && s in recs && TaskOf(recs[s].id) == t && u != t
    ensures !InQueue(q, s)
  {
  }

  lemma NotQueued(q: seq<Message>, u: nat, recs: Recs, shm: Shm, s: nat)
    requires QueueOk(q, u, recs, shm) && s in recs && !recs[s].stage.Queued?
    ensures !InQueue(q, s)
  {
  }

  lemma NotInReplies(q: seq<Message>, recs: Recs, answers: Answers, shm: Shm, s: nat)
    requires InboxOk(q, recs, answers, shm) && s in recs && !recs[s].stage.Replied?
    ensures !InReplies(q, s)
  {
  }

  /** The head of a task's queue is the oldest request still queued for it. */
  lemma HeadIsOldest(net: Net, recs: Recs, hands: Hands, t: nat)
    requires PlacesOk(recs, net, hands) && IsTask(t) && net.taskQ[t] != []
    requires QueueOk(net.taskQ[t], t, recs, net.shm)
    ensures MayMove(recs, net.taskQ[t][0].seqNum, InHand)
  {
  }

  lemma ReceiveInv(s: Sys, t: nat, capacity: nat, fault: Fault)
    requires Inv(s) && Enabled(s, ReceiveStep(t, capacity, fault))
    ensures Inv(Receive(s, t, capacity, fault).0)
  {
    assert ValidSys(s);
    hide RecsOk, TableOk, RankOk, StatusOk, LogOk, AnswersOk, QueueOk, InboxOk, PlacesOk, HandsOk, ShmOk,
         MayMove, WaitForRequest, ReqMsgOk, SetStage;
    var m, msg := s.mgr, s.mgr.net.taskQ[t][0];
    var h := msg.seqNum;
    Assemble(m, s.hands, s.answers);
    assert QueueOk(m.net.taskQ[t], t, m.recs, m.net.shm);
    HeadMessage(m, s.answers, t);
    HeadIsOldest(m.net, m.recs, s.hands, t);
    WaitForRequestEffect(m.net.shm, msg, t, m.recs, capacity, fault);
    var (shm', got) := WaitForRequest(m.net.shm, msg, capacity, fault);
    var stage := if got.Received? then InHand else Lost;
    MayLose(m.recs, h);
    SetIsMove(m.recs, h, stage);
    ReceiveNet(m.net, m.issued, m.recs, s.hands, s.answers, t, shm', stage);
    MoveCore(m, s.answers, s.answers, h, stage);
    var s' := Receive(s, t, capacity, fault).0;
    CoreIgnoresNet(m.(recs := Move(m.recs, h, stage)), s'.mgr, s.answers);
    Assemble(s'.mgr, s'.hands, s'.answers);
  }

  lemma HeadMessage(m: Mgr, answers: Answers, t: nat)
    requires IsTask(t) && ValidNet(m.net) && m.net.taskQ[t] != []
    requires QueueOk(m.net.taskQ[t], t, m.recs, m.net.shm) && AnswersOk(answers, m.recs)
             && ShmOk(m.net.shm, m.issued, m.recs)
    ensures var msg := m.net.taskQ[t][0]; var h := msg.seqNum;
            && ReqMsgOk(msg, t, m.recs, m.net.shm)
            && h in m.recs && m.recs[h].stage.Queued? && h !in answers
            && (Fits(m.recs[h].bytes) ==> h !in m.net.shm)
  {
  }

  lemma MayLose(recs: Recs, s: nat)
    requires s in recs
    ensures MayMove(recs, s, Lost)
  {
  }

  lemma SetIsMove(recs: Recs, s: nat, stage: Stage)
    requires s in recs
    ensures SetStage(recs, s, stage) == Move(recs, s, stage)
  {
  }

  lemma CoreIgnoresNet(m: Mgr, m': Mgr, answers: Answers)
    requires CoreInv(m, answers) && m' == m.(net := m'.net)
    ensures CoreInv(m', answers)
  {
  }

  // ------------------------------------------------- Response

  lemma HandHolds(s: Sys, t: nat)
    requires Inv(s) && IsTask(t) && s.hands[t].Some?
    ensures var h := s.hands[t].value;
            && h in s.mgr.recs && s.mgr.recs[h].stage.InHand? && TaskOf(s.mgr.recs[h].id) == t
            && h !in s.answers && h !in s.mgr.net.shm
            && MayMove(s.mgr.recs, h, Replied)
  {
  }

  /** Responses queued from a task precede the request it holds. */
  lemma QueuedAnswersPrecede(q: seq<Message>, recs: Recs, answers: Answers, shm: Shm, h: nat)
    requires InboxOk(q, recs, answers, shm) && RankOk(recs) && h in recs && recs[h].stage.InHand?
    ensures forall i | 0 <= i < |q| && IsResponse(q[i]) && SameTask(recs, q[i].seqNum, h) :: q[i].seqNum < h
  {
  }

  /** The task lets go of handle h: `inbox'` and `shm'` are what Response made of the
      transport. */
  lemma LetGoNet(net: Net, issued: nat, recs: Recs, hands: Hands, answers: Answers,
                 t: nat, net': Net, stage: Stage, answers': Answers)
    requires NetInv(net, issued, recs, hands, answers) && RankOk(recs) && IsTask(t) && hands[t].Some?
    requires var h := hands[t].value;
             && h in recs && recs[h].stage.InHand? && TaskOf(recs[h].id) == t && 1 <= h <= issued
             && net'.taskQ == net.taskQ && AgreeExcept(net.shm, net'.shm, h) && AgreeExcept(answers, answers', h)
             && (|| (stage.Lost? && net'.inbox == net.inbox)
                 || (&& stage.Replied? && h in answers'
                     && net'.inbox == net.inbox + [ResponseMessage(h, answers'[h])]
                     && (!Fits(answers'[h]) ==> h in net'.shm && net'.shm[h] == answers'[h])))
    ensures NetInv(net', issued, Move(recs, hands[t].value, stage), hands[t := None], answers')
  {
    hide InQueue, InReplies, RankOk;
    var h := hands[t].value;
    var recs' := Move(recs, h, stage);
    var msg := ResponseMessage(h, if h in answers' then answers'[h] else []);
    assert QueuesOk(net'.taskQ, recs', net'.shm) by {
      hide InboxOk, PlacesOk, HandsOk, ShmOk, QueueOk;
      forall u: nat | IsTask(u) ensures QueueOk(net'.taskQ[u], u, recs', net'.shm) {
        NotQueued(net.taskQ[u], u, recs, net.shm, h);
        QueueFrame(net.taskQ[u], u, recs, recs', net.shm, net'.shm, h);
      }
    }
    assert InboxOk(net'.inbox, recs', answers', net'.shm) by {
      hide QueuesOk, PlacesOk, HandsOk, ShmOk, QueueOk, InboxOk;
      NotInReplies(net.inbox, recs, answers, net.shm, h);
      QueuedAnswersPrecede(net.inbox, recs, answers, net.shm, h);
      InboxFrame(net.inbox, recs, recs', answers, answers', net.shm, net'.shm, h);
      if stage.Replied? {
        InboxAppend(net.inbox, recs', answers', net'.shm, msg);
      }
    }
    AppendKeepsQueued(net.inbox, msg);
    assert PlacesOk(recs', net', hands[t := None]) by {
      hide QueuesOk, InboxOk, HandsOk, ShmOk, QueueOk, ResponseMessage;
    }
    hide QueuesOk, InboxOk, PlacesOk, QueueOk, ResponseMessage;
  }

  lemma InRange(m: Mgr, h: nat)
    requires RecsOk(m.recs, m.issued, m.slots) && h in m.recs
    ensures 1 <= h <= m.issued
  {
  }

  /** The task lets go of its handle, answered or not. */
  lemma LetGoInv(s: Sys, t: nat, net': Net, stage: Stage, answers': Answers)
    requires Inv(s) && IsTask(t) && s.hands[t].Some?
    requires var h := s.hands[t].value;
             && net'.taskQ == s.mgr.net.taskQ && AgreeExcept(s.mgr.net.shm, net'.shm, h)
                && AgreeExcept(s.answers, answers', h)
             && (|| (stage.Lost? && net'.inbox == s.mgr.net.inbox && answers' == s.answers)
                 || (&& stage.Replied? && h in answers'
                     && net'.inbox == s.mgr.net.inbox + [ResponseMessage(h, answers'[h])]
                     && (!Fits(answers'[h]) ==> h in net'.shm && net'.shm[h] == answers'[h])))
    ensures Inv(Sys(s.mgr.(net := net', recs := SetStage(s.mgr.recs, s.hands[t].value, stage)),
                    s.hands[t := None], answers'))
  {
    HandHolds(s, t);
    hide RecsOk, TableOk, RankOk, StatusOk, LogOk, AnswersOk, QueuesOk, InboxOk, PlacesOk, HandsOk, ShmOk,
         MayMove, ResponseMessage, SetStage;
    var m, h := s.mgr, s.hands[t].value;
    Assemble(m, s.hands, s.answers);
    InRange(m, h);
    MayLose(m.recs, h);
    SetIsMove(m.recs, h, stage);
    LetGoNet(m.net, m.issued, m.recs, s.hands, s.answers, t, net', stage, answers');
    MoveCore(m, s.answers, answers', h, stage);
    var m' := m.(net := net', recs := Move(m.recs, h, stage));
    CoreIgnoresNet(m.(recs := Move(m.recs, h, stage)), m', answers');
    Assemble(m', s.hands[t := None], answers');
  }

  lemma RespondInv(s: Sys, t: nat, isNull: bool, bytes: seq<byte>, fault: Fault)
    requires Inv(s) && Enabled(s, RespondStep(t, isNull, bytes, fault))
    ensures Inv(Respond(s, t, isNull, bytes, fault).0)
  {
    assert ValidSys(s);
    HandHolds(s, t);
    hide Inv, Response, ResponseMessage, SetStage;
    var h := s.hands[t].value;
    ResponseEffect(s.mgr.net, h, isNull, bytes, fault);
    var (sent, err) := Response(s.mgr.net, h, isNull, bytes, fault);
    if err == IPC_SUCCESS {
      LetGoInv(s, t, sent, Replied, s.answers[h := bytes]);
    } else if err != IPC_ERR_PARAMETER {
      LetGoInv(s, t, sent, Lost, s.answers);
    }
  }

  lemma AbandonInv(s: Sys, t: nat)
    requires Inv(s) && Enabled(s, AbandonStep(t))
    ensures Inv(Abandon(s, t))
  {
    assert ValidSys(s);
    hide Inv;
    LetGoInv(s, t, s.mgr.net, Lost, s.answers);
  }

  // ------------------------------------------------- the inbox

  /** Messages that are not responses come and go without trace. */
  lemma OtherMessagesInv(m: Mgr, hands: Hands, answers: Answers, inbox: seq<Message>)
    requires MgrInv(m, hands, answers)
    requires || (exists msg :: inbox == m.net.inbox + [msg] && !IsResponse(msg) && ForwardOk(msg))
             || (m.net.inbox != [] && !IsResponse(m.net.inbox[0]) && inbox == m.net.inbox[1..])
    ensures MgrInv(m.(net := m.net.(inbox := inbox)), hands, answers)
  {
    hide RecsOk, TableOk, RankOk, StatusOk, LogOk, AnswersOk, QueuesOk, InboxOk, HandsOk, ShmOk, InQueue, InReplies;
    var net := m.net;
    if m.net.inbox != [] && !IsResponse(m.net.inbox[0]) && inbox == m.net.inbox[1..] {
      InboxTail(net.inbox, m.recs, answers, net.shm);
    } else {
      var msg :| inbox == m.net.inbox + [msg] && !IsResponse(msg) && ForwardOk(msg);
      InboxAppend(net.inbox, m.recs, answers, net.shm, msg);
      AppendKeepsQueued(net.inbox, msg);
    }
  }

  /** The manager takes a response: its request leaves the transport, and every
      success reported so far for that task is for an earlier request. */
  lemma TakeResponse(m: Mgr, hands: Hands, answers: Answers, shm': Shm)
    requires MgrInv(m, hands, answers) && m.net.inbox != [] && IsResponse(m.net.inbox[0])
    requires shm' == m.net.shm || shm' == m.net.shm - {m.net.inbox[0].seqNum}
    ensures var s := m.net.inbox[0].seqNum; var recs' := SetStage(m.recs, s, Gone);
            && RespMsgOk(m.net.inbox[0], m.recs, answers, m.net.shm)
            && 1 <= s <= m.issued && s in recs' && recs'[s].stage.Gone?
            && MgrInv(m.(recs := recs', net := Net(m.net.inbox[1..], m.net.taskQ, shm')), hands, answers)
            && LastSuccess(m.log, recs', s)
  {
    hide RecsOk, TableOk, RankOk, StatusOk, LogOk, AnswersOk, QueuesOk, InboxOk, PlacesOk, HandsOk, ShmOk,
         MayMove, SetStage, InQueue, InReplies, RespMsgOk, LastSuccess;
    var s := m.net.inbox[0].seqNum;
    Assemble(m, hands, answers);
    HeadResponse(m.net.inbox, m.recs, answers, m.net.shm);
    InRange(m, s);
    SetIsMove(m.recs, s, Gone);
    HeadAnswerIsOldest(m.net, m.recs, hands, answers);
    EarlierSuccesses(m.log, m.recs, answers, s);
    TakeNet(m.net, m.issued, m.recs, hands, answers, shm');
    MoveCore(m, answers, answers, s, Gone);
    var m' := m.(recs := Move(m.recs, s, Gone), net := Net(m.net.inbox[1..], m.net.taskQ, shm'));
    CoreIgnoresNet(m.(recs := Move(m.recs, s, Gone)), m', answers);
    Assemble(m', hands, answers);
  }

  lemma HeadResponse(q: seq<Message>, recs: Recs, answers: Answers, shm: Shm)
    requires q != [] && InboxOk(q, recs, answers, shm) && IsResponse(q[0])
    ensures RespMsgOk(q[0], recs, answers, shm)
    ensures q[0].seqNum in recs && recs[q[0].seqNum].stage.Replied? && q[0].seqNum in answers
  {
  }

  lemma HeadAnswerIsOldest(net: Net, recs: Recs, hands: Hands, answers: Answers)
    requires PlacesOk(recs, net, hands) && RankOk(recs) && InboxOk(net.inbox, recs, answers, net.shm)
    requires net.inbox != [] && IsResponse(net.inbox[0])
    requires net.inbox[0].seqNum in recs && recs[net.inbox[0].seqNum].stage.Replied?
    ensures MayMove(recs, net.inbox[0].seqNum, Gone)
  {
  }

  lemma EarlierSuccesses(log: seq<Event>, recs: Recs, answers: Answers, s: nat)
    requires LogOk(log, recs, answers) && RankOk(recs) && s in recs && recs[s].stage.Replied?
    ensures LastSuccess(log, Move(recs, s, Gone), s)
  {
  }

  lemma TakeNet(net: Net, issued: nat, recs: Recs, hands: Hands, answers: Answers,
                shm': Shm)
    requires NetInv(net, issued, recs, hands, answers) && net.inbox != [] && IsResponse(net.inbox[0])
    requires var s := net.inbox[0].seqNum;
             s in recs && recs[s].stage.Replied? && (shm' == net.shm || shm' == net.shm - {s})
    ensures NetInv(Net(net.inbox[1..], net.taskQ, shm'), issued, Move(recs, net.inbox[0].seqNum, Gone), hands, answers)
  {
    hide InQueue, InReplies;
    var s := net.inbox[0].seqNum;
    var recs', net' := Move(recs, s, Gone), Net(net.inbox[1..], net.taskQ, shm');
    assert QueuesOk(net'.taskQ, recs', shm') by {
      hide InboxOk, PlacesOk, HandsOk, ShmOk, QueueOk;
      forall u: nat | IsTask(u) ensures QueueOk(net'.taskQ[u], u, recs', shm') {
        NotQueued(net.taskQ[u], u, recs, net.shm, s);
        QueueFrame(net.taskQ[u], u, recs, recs', net.shm, shm', s);
      }
    }
    assert InboxOk(net'.inbox, recs', answers, shm') by {
      hide QueuesOk, PlacesOk, HandsOk, ShmOk, QueueOk, InboxOk;
      InboxTail(net.inbox, recs, answers, net.shm);
      InboxFrame(net'.inbox, recs, recs', answers, answers, net.shm, shm', s);
    }
    assert PlacesOk(recs', net', hands) by {
      InboxTail(net.inbox, recs, answers, net.shm);
      hide QueuesOk, InboxOk, HandsOk, ShmOk, QueueOk;
    }
    hide QueuesOk, InboxOk, PlacesOk, QueueOk;
  }
}
