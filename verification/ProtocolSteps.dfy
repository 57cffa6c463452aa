/** Each elementary change of the system keeps the invariant. */
module ProtocolSteps {
  import opened Base
  import opened Deadline
  import opened Net
  import opened Pending
  import opened Protocol
  import opened ProtocolFrames

  // ------------------------------------------------- a slot is freed

  /** What must hold before the callback of slot i may be run. */
  ghost predicate MayFinish(m: Mgr, answers: Answers, i: nat, status: Status, data: seq<byte>, err: nat)
    requires |m.slots| == GUI_MAX_REQUESTS
  {
    && i < GUI_MAX_REQUESTS && m.slots[i] != CLEARED
    && var s := m.slots[i].seqNum;
    && s in m.recs
    && (|| (status.TimedOut? && data == [] && err == GUI_ERR_RESP_TIMEOUT)
        || (&& status.Answered? && err == GUI_SUCCESS && m.recs[s].stage.Gone?
            && s in answers && data == answers[s]
            && LastSuccess(m.log, m.recs, s)))
  }

  lemma FinishTable(m: Mgr, i: nat, status: Status, data: seq<byte>, err: nat)
    requires ValidMgr(m) && TableOk(m.slots, m.issued, m.recs) && RecsOk(m.recs, m.issued, m.slots)
    requires i < GUI_MAX_REQUESTS && m.slots[i] != CLEARED && !status.Waiting?
    ensures var f := Finish(m, i, status, data, err); var s := m.slots[i].seqNum;
            && TableOk(f.slots, f.issued, f.recs) && RecsOk(f.recs, f.issued, f.slots) && SameButStatus(m.recs, f.recs)
            && s in m.recs && m.recs[s].status.Waiting? && f.recs == m.recs[s := m.recs[s].(status := status)]
            && m.slots[i].cb == m.recs[s].cb
  {
  }

  lemma FinishInv(m: Mgr, hands: Hands, answers: Answers,
                  i: nat, status: Status, data: seq<byte>, err: nat)
    requires MgrInv(m, hands, answers)
    requires MayFinish(m, answers, i, status, data, err)
    ensures MgrInv(Finish(m, i, status, data, err), hands, answers)
  {
    hide TableOk, RecsOk, RankOk, QueuesOk, InboxOk, PlacesOk, HandsOk, ShmOk, AnswersOk, LogOk;
    var f := Finish(m, i, status, data, err);
    FinishTable(m, i, status, data, err);
    LogFinish(m.log, m.recs, answers, m.slots[i].seqNum, status, data, err);
    SameStages(m, f, hands, answers);
  }

  // ------------------------------------------------- all slots are freed

  lemma ClearInv(m: Mgr, hands: Hands, answers: Answers)
    requires MgrInv(m, hands, answers)
    ensures MgrInv(ClearRequests(m), hands, answers)
  {
    hide RankOk, QueuesOk, InboxOk, PlacesOk, HandsOk, ShmOk, AnswersOk, LogOk;
    var f := ClearRequests(m);
    LogDrop(m.log, m.recs, answers);
    SameStages(m, f, hands, answers);
  }

  // ------------------------------------------------- a request is issued

  /** The parts of the invariant that mention the transport. */
  ghost predicate NetInv(net: Net, issued: nat, recs: Recs, hands: Hands, answers: Answers) {
    && ValidNet(net)
    && QueuesOk(net.taskQ, recs, net.shm)
    && InboxOk(net.inbox, recs, answers, net.shm)
    && PlacesOk(recs, net, hands)
    && HandsOk(hands, recs, net.shm)
    && ShmOk(net.shm, issued, recs)
  }

  /** No message is in flight under a sequence number nobody has used. */
  lemma FreshNowhere(net: Net, issued: nat, recs: Recs, hands: Hands, answers: Answers, s: nat)
    requires NetInv(net, issued, recs, hands, answers) && s > issued && s !in recs
    ensures s !in net.shm && !InReplies(net.inbox, s)
    ensures forall t: nat | IsTask(t) :: !InQueue(net.taskQ[t], s)
  {
  }

  /** A failed send may leave a segment behind, but nothing else. */
  lemma FailedSend(net: Net, sent: Net, issued: nat, recs: Recs, hands: Hands, answers: Answers)
    requires NetInv(net, issued, recs, hands, answers) && issued + 1 !in recs
    requires sent.inbox == net.inbox && sent.taskQ == net.taskQ && AgreeExcept(net.shm, sent.shm, issued + 1)
    ensures NetInv(sent, issued + 1, recs, hands, answers)
  {
  }

  /** The transport after a successful send of request s = issued + 1. */
  ghost predicate Sent(net: Net, sent: Net, s: nat, r: Rec) {
    var t, msg := TaskOf(r.id), RequestMessage(s, r.id, r.bytes);
    && |net.taskQ| == TSK_NUM + 1 && RecOk(r)
    && sent.shm == (if Fits(r.bytes) then net.shm else net.shm[s := r.bytes])
    && sent.inbox == (if t == TSKID_MGR then net.inbox + [msg] else net.inbox)
    && sent.taskQ == (if t == TSKID_MGR then net.taskQ else net.taskQ[t := net.taskQ[t] + [msg]])
  }

  lemma SentQueues(net: Net, sent: Net, s: nat, recs: Recs, r: Rec)
    requires Sent(net, sent, s, r) && QueuesOk(net.taskQ, recs, net.shm)
    requires (forall u | u in recs :: u < s) && r.stage == InitialStage(r.id)
    requires forall t: nat | IsTask(t) :: !InQueue(net.taskQ[t], s)
    ensures QueuesOk(sent.taskQ, recs[s := r], sent.shm)
  {
    hide InQueue;
    var t, recs' := TaskOf(r.id), recs[s := r];
    forall u: nat | IsTask(u) ensures QueueOk(sent.taskQ[u], u, recs', sent.shm) {
      QueueFrame(net.taskQ[u], u, recs, recs', net.shm, sent.shm, s);
      if u == t {
        assert forall i | 0 <= i < |net.taskQ[t]| :: ReqMsgOk(net.taskQ[t][i], t, recs, net.shm);
        QueueAppend(net.taskQ[t], t, recs', sent.shm, RequestMessage(s, r.id, r.bytes));
      }
    }
  }

  lemma SentInbox(net: Net, sent: Net, s: nat, recs: Recs, answers: Answers, r: Rec)
    requires Sent(net, sent, s, r) && InboxOk(net.inbox, recs, answers, net.shm)
    requires s !in recs && !InReplies(net.inbox, s)
    ensures InboxOk(sent.inbox, recs[s := r], answers, sent.shm)
  {
    hide InReplies, InboxOk;
    InboxFrame(net.inbox, recs, recs[s := r], answers, answers, net.shm, sent.shm, s);
    if TaskOf(r.id) == TSKID_MGR {
      InboxAppend(net.inbox, recs[s := r], answers, sent.shm, RequestMessage(s, r.id, r.bytes));
    }
  }

  lemma SentPlaces(net: Net, sent: Net, s: nat, recs: Recs, hands: Hands, r: Rec)
    requires Sent(net, sent, s, r) && PlacesOk(recs, net, hands) && r.stage == InitialStage(r.id)
    ensures PlacesOk(recs[s := r], sent, hands)
  {
    hide InQueue, InReplies;
    if TaskOf(r.id) == TSKID_MGR {
      AppendKeepsQueued(net.inbox, RequestMessage(s, r.id, r.bytes));
    } else {
      AppendKeepsQueued(net.taskQ[TaskOf(r.id)], RequestMessage(s, r.id, r.bytes));
    }
  }

  /** The message of a new request joins the right queue. */
  lemma SuccessfulSend(net: Net, sent: Net, issued: nat, recs: Recs, hands: Hands,
                       answers: Answers, r: Rec)
    requires NetInv(net, issued, recs, hands, answers)
    requires (forall s | s in recs :: s <= issued) && r.stage == InitialStage(r.id)
    requires Sent(net, sent, issued + 1, r)
    ensures NetInv(sent, issued + 1, recs[issued + 1 := r], hands, answers)
  {
    hide QueuesOk, InboxOk, PlacesOk, InQueue, InReplies;
    var s := issued + 1;
    FreshNowhere(net, issued, recs, hands, answers, s);
    SentQueues(net, sent, s, recs, r);
    SentInbox(net, sent, s, recs, answers, r);
    SentPlaces(net, sent, s, recs, hands, r);
  }

  lemma IssueTable(m: Mgr, i: nat, slot: Slot, r: Rec)
    requires ValidMgr(m) && TableOk(m.slots, m.issued, m.recs) && RecsOk(m.recs, m.issued, m.slots)
    requires i < GUI_MAX_REQUESTS && m.slots[i].id == 0
    requires RecOk(r) && r.status.Waiting? && r.slot == i && slot == Slot(m.issued + 1, r.id, r.cb, r.expires)
    ensures m.slots[i] == CLEARED
    ensures var recs' := m.recs[m.issued + 1 := r];
            && TableOk(m.slots[i := slot], m.issued + 1, recs')
            && RecsOk(recs', m.issued + 1, m.slots[i := slot])
  {
  }

  lemma IssueRank(recs: Recs, issued: nat, r: Rec)
    requires RankOk(recs) && (forall s | s in recs :: s <= issued)
    requires r.stage == InitialStage(r.id)
    ensures RankOk(recs[issued + 1 := r])
  {
  }

  /** Request, whatever it returns, keeps the invariant; and unless it returns
      GUI_SUCCESS the table is exactly as before. */
  lemma RequestInv(m: Mgr, hands: Hands, answers: Answers, c: Call)
    requires MgrInv(m, hands, answers) && CallInRange(c) && m.issued + 1 < TWO16
    ensures MgrInv(Request(m, c).0, hands, answers)
    ensures Request(m, c).1 != GUI_SUCCESS ==> Request(m, c).0.slots == m.slots && Request(m, c).0.recs == m.recs
  {
    hide TableOk, RankOk, QueuesOk, InboxOk, PlacesOk, HandsOk, LogOk, SendRequest, RequestMessage;
    var i := FirstFree(m.slots, 0);
    if !(c.isNull && |c.bytes| != 0) && c.id != 0 && i != GUI_MAX_REQUESTS {
      var s := m.issued + 1;
      assert NextSeqNum(m.issued) == s;
      FreshNowhere(m.net, m.issued, m.recs, hands, answers, s);
      SendRequestEffect(m.net, s, c.id, c.bytes, c.fault);
      var (sent, err) := SendRequest(m.net, s, c.id, c.bytes, c.fault);
      var due := ExpiresAt(c.at, c.timeout);
      var r := Rec(i, c.id, c.cb, c.bytes, due, Waiting, InitialStage(c.id));
      var slot := Slot(s, c.id, c.cb, due);
      if err != GUI_SUCCESS {
        FailedSend(m.net, sent, m.issued, m.recs, hands, answers);
        FailedTable(m, i);
      } else {
        IssueTable(m, i, slot, r);
        IssueRank(m.recs, m.issued, r);
        SuccessfulSend(m.net, sent, m.issued, m.recs, hands, answers, r);
        LogIssue(m.log, m.recs, answers, s, r);
      }
    }
  }

  lemma FailedTable(m: Mgr, i: nat)
    requires ValidMgr(m) && TableOk(m.slots, m.issued, m.recs) && RecsOk(m.recs, m.issued, m.slots)
    requires i < GUI_MAX_REQUESTS && m.slots[i].id == 0
    ensures m.slots[i := CLEARED] == m.slots
    ensures TableOk(m.slots, m.issued + 1, m.recs) && RecsOk(m.recs, m.issued + 1, m.slots)
  {
  }
}
