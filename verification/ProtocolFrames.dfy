/** Every elementary step touches one sequence number.  These lemmas say that each
    part of the invariant is indifferent to the other ones. */
module ProtocolFrames {
  import opened Base
  import opened Net
  import opened Pending
  import opened Protocol

  ghost predicate AgreeExcept<V>(a: map<nat, V>, b: map<nat, V>, s: nat) {
    forall k | k != s :: (k in a <==> k in b) && (k in a ==> a[k] == b[k])
  }

  /** Histories that agree on everything but the status. */
  ghost predicate SameButStatus(r: Recs, q: Recs) {
    r.Keys == q.Keys
    && forall s | s in r :: q[s] == r[s].(status := q[s].status)
  }

  lemma QueueFrame(q: seq<Message>, t: nat, recs: Recs, recs': Recs,
                   shm: Shm, shm': Shm, s: nat)
    requires QueueOk(q, t, recs, shm) && !InQueue(q, s)
    requires AgreeExcept(recs, recs', s) && AgreeExcept(shm, shm', s)
    ensures QueueOk(q, t, recs', shm')
  {
  }

  lemma QueueAppend(q: seq<Message>, t: nat, recs: Recs, shm: Shm, msg: Message)
    requires QueueOk(q, t, recs, shm) && ReqMsgOk(msg, t, recs, shm)
    requires forall i | 0 <= i < |q| :: q[i].seqNum < msg.seqNum
    ensures QueueOk(q + [msg], t, recs, shm)
  {
  }

  lemma InboxFrame(q: seq<Message>, recs: Recs, recs': Recs,
                   answers: Answers, answers': Answers,
                   shm: Shm, shm': Shm, s: nat)
    requires InboxOk(q, recs, answers, shm) && !InReplies(q, s)
    requires AgreeExcept(recs, recs', s) && AgreeExcept(answers, answers', s) && AgreeExcept(shm, shm', s)
    ensures InboxOk(q, recs', answers', shm')
  {
  }

  lemma InboxAppend(q: seq<Message>, recs: Recs, answers: Answers,
                    shm: Shm, msg: Message)
    requires InboxOk(q, recs, answers, shm)
    requires if IsResponse(msg) then RespMsgOk(msg, recs, answers, shm) else ForwardOk(msg)
    requires IsResponse(msg)
             ==> forall i | 0 <= i < |q| && IsResponse(q[i]) && SameTask(recs, q[i].seqNum, msg.seqNum) ::
                                   q[i].seqNum < msg.seqNum
    ensures InboxOk(q + [msg], recs, answers, shm)
  {
  }

  lemma InboxTail(q: seq<Message>, recs: Recs, answers: Answers, shm: Shm)
    requires q != [] && InboxOk(q, recs, answers, shm)
    ensures InboxOk(q[1..], recs, answers, shm)
    ensures forall u :: InReplies(q, u) ==> InReplies(q[1..], u) || (IsResponse(q[0]) && u == q[0].seqNum)
    ensures IsResponse(q[0]) ==> !InReplies(q[1..], q[0].seqNum)
  {
  }

  lemma QueueTail(q: seq<Message>, t: nat, recs: Recs, shm: Shm)
    requires q != [] && QueueOk(q, t, recs, shm)
    ensures QueueOk(q[1..], t, recs, shm)
    ensures forall u :: InQueue(q, u) ==> InQueue(q[1..], u) || u == q[0].seqNum
    ensures !InQueue(q[1..], q[0].seqNum)
  {
  }

  lemma AppendKeepsQueued(q: seq<Message>, msg: Message)
    ensures forall u :: InQueue(q, u) ==> InQueue(q + [msg], u)
    ensures InQueue(q + [msg], msg.seqNum)
    ensures forall u :: InReplies(q, u) ==> InReplies(q + [msg], u)
    ensures IsResponse(msg) ==> InReplies(q + [msg], msg.seqNum)
  {
    var r := q + [msg];
    assert r[|q|] == msg;
    forall u | InQueue(q, u) ensures InQueue(r, u) {
      var i :| 0 <= i < |q| && q[i].seqNum == u;
      assert r[i] == q[i];
    }
    forall u | InReplies(q, u) ensures InReplies(r, u) {
      var i :| 0 <= i < |q| && IsResponse(q[i]) && q[i].seqNum == u;
      assert r[i] == q[i];
    }
  }

  lemma RankFrame(recs: Recs, recs': Recs, s: nat)
    requires RankOk(recs) && AgreeExcept(recs, recs', s) && s in recs'
    requires forall u | u in recs :: (u < s ==> InOrder(recs[u], recs'[s])) && (s < u ==> InOrder(recs'[s], recs[u]))
    ensures RankOk(recs')
  {
  }

  // ------------------------------------------------- the callback log

  lemma {:induction false} RunsNone(log: seq<Event>, s: nat)
    requires forall i | 0 <= i < |log| :: log[i].seqNum != s
    ensures Runs(log, s) == 0
  {
    if log != [] {
      RunsNone(log[..|log| - 1], s);
    }
  }

  /** Every success reported so far for s's task is for an earlier request. */
  ghost predicate LastSuccess(log: seq<Event>, recs: Recs, s: nat) {
    forall j | 0 <= j < |log| && log[j].err == GUI_SUCCESS && SameTask(recs, log[j].seqNum, s) :: log[j].seqNum < s
  }

  lemma FinishRuns(log: seq<Event>, recs: Recs, s: nat, status: Status, e: Event)
    requires RunsOk(log, recs) && s in recs && recs[s].status.Waiting? && !status.Waiting? && !status.Dropped?
    requires e.seqNum == s
    ensures RunsOk(if recs[s].cb == NULL then log else log + [e], recs[s := recs[s].(status := status)])
  {
  }

  /** A request that waits has not been reported. */
  lemma WaitingUnreported(log: seq<Event>, recs: Recs, answers: Answers, s: nat)
    requires EventsOk(log, recs, answers) && s in recs && recs[s].status.Waiting?
    ensures forall j | 0 <= j < |log| :: log[j].seqNum != s
  {
  }

  lemma LogFinish(log: seq<Event>, recs: Recs, answers: Answers,
                  s: nat, status: Status, data: seq<byte>, err: nat)
    requires LogOk(log, recs, answers) && s in recs && recs[s].status.Waiting?
    requires || (status.TimedOut? && data == [] && err == GUI_ERR_RESP_TIMEOUT)
             || (status.Answered? && err == GUI_SUCCESS && recs[s].stage.Gone? && s in answers
                 && data == answers[s] && LastSuccess(log, recs, s))
    ensures LogOk(if recs[s].cb == NULL then log else log + [Event(s, recs[s].cb, data, err)],
                  recs[s := recs[s].(status := status)], answers)
  {
    hide RunsOk;
    var recs' := recs[s := recs[s].(status := status)];
    var e := Event(s, recs[s].cb, data, err);
    WaitingUnreported(log, recs, answers, s);
    FinishRuns(log, recs, s, status, e);
    assert EventsOk(log, recs', answers) by {
      hide SuccessOrder;
      assert forall j | 0 <= j < |log| :: EventOk(log[j], recs, answers);
    }
  }

  /** Moving a request that is still in flight, or answering its handle, changes
      nothing that has been reported. */
  lemma LogStage(log: seq<Event>, recs: Recs, answers: Answers,
                 answers': Answers, s: nat, stage: Stage)
    requires LogOk(log, recs, answers) && s in recs && !recs[s].stage.Gone? && AgreeExcept(answers, answers', s)
    ensures LogOk(log, recs[s := recs[s].(stage := stage)], answers')
  {
  }

  lemma LogIssue(log: seq<Event>, recs: Recs, answers: Answers, s: nat, r: Rec)
    requires LogOk(log, recs, answers) && s !in recs && r.status.Waiting?
    ensures LogOk(log, recs[s := r], answers)
  {
    assert forall j | 0 <= j < |log| :: EventOk(log[j], recs, answers) && log[j].seqNum != s;
    RunsNone(log, s);
  }

  lemma LogDrop(log: seq<Event>, recs: Recs, answers: Answers)
    requires LogOk(log, recs, answers)
    ensures LogOk(log, DropWaiting(recs), answers)
  {
  }

  // ------------------------------------------------- status changes

  lemma SameStagesQueues(taskQ: seq<seq<Message>>, recs: Recs, recs': Recs, shm: Shm)
    requires QueuesOk(taskQ, recs, shm) && SameButStatus(recs, recs')
    ensures QueuesOk(taskQ, recs', shm)
  {
  }

  lemma SameStagesInbox(q: seq<Message>, recs: Recs, recs': Recs,
                        answers: Answers, shm: Shm)
    requires InboxOk(q, recs, answers, shm) && SameButStatus(recs, recs')
    ensures InboxOk(q, recs', answers, shm)
  {
  }

  /** Most of the invariant does not look at the status of a request. */
  lemma SameStages(m: Mgr, f: Mgr, hands: Hands, answers: Answers)
    requires MgrInv(m, hands, answers)
    requires f.net == m.net && f.issued == m.issued && SameButStatus(m.recs, f.recs)
    ensures RankOk(f.recs) && QueuesOk(f.net.taskQ, f.recs, f.net.shm)
    ensures InboxOk(f.net.inbox, f.recs, answers, f.net.shm) && PlacesOk(f.recs, f.net, hands)
    ensures HandsOk(hands, f.recs, f.net.shm) && ShmOk(f.net.shm, f.issued, f.recs) && AnswersOk(answers, f.recs)
  {
    hide TableOk, RecsOk, QueuesOk, InboxOk, LogOk, StatusOk;
    SameStagesQueues(m.net.taskQ, m.recs, f.recs, m.net.shm);
    SameStagesInbox(m.net.inbox, m.recs, f.recs, answers, m.net.shm);
  }
}
