/** Shared memory, accounted for exactly: in every state of every run the live segments
    are those of the LONG messages still queued and those that some step has leaked. */
module Segments {
  import opened Base
  import opened Deadline
  import opened Net
  import opened Pending
  import opened Protocol
  import opened ProtocolFrames
  import opened ProtocolTasks
  import opened ProtocolRuns
  import opened Trace
  import opened Theorems

  // ------------------------------------------------- what leaks

  /** Past shmget, everything that makes a long send fail leaves its segment. */
  predicate FailsLate(task: nat, fault: Fault) {
    fault.ShmAt? || fault.ShmDt? || fault.Calloc? || fault.MqSend? || task == 0 || task > TSK_NUM
  }

  /** The key a call of Request leaves behind: a long request gets a slot and a segment
      and then fails. */
  function CallLeak(m: Mgr, c: Call): set<nat>
    requires ValidMgr(m)
  {
    if !c.isNull && c.id != 0 && FirstFree(m.slots, 0) < GUI_MAX_REQUESTS
       && !Fits(c.bytes) && !c.fault.ShmGet? && FailsLate(TaskOf(c.id), c.fault)
    then {NextSeqNum(m.issued)} else {}
  }

  function EffectLeak(m: Mgr, e: Effect): set<nat>
    requires ValidMgr(m)
  {
    if e.Ask? then CallLeak(m, e.call) else {}
  }

  function EffectsLeak(m: Mgr, es: seq<Effect>): set<nat>
    requires ValidMgr(m)
    decreases |es|
  {
    if es == [] then {} else EffectLeak(m, es[0]) + EffectsLeak(Do(m, es[0]), es[1..])
  }

  /** A segment call fails before the segment is removed. */
  predicate FailsBeforeRemoval(fault: Fault) {
    fault.ShmGet? || fault.ShmAt? || fault.ShmRm?
  }

  /** The key the transport part of a step leaves behind: a long message is taken from
      its queue and its segment is not, because the receiver's buffer is too small,
      because the message is a request and has reached the manager, or because a
      segment call fails; or a long answer fails after shmget. */
  function StartLeak(s: Sys, step: Step): set<nat>
    requires ValidSys(s) && Enabled(s, step)
  {
    match step
    case ReceiveStep(t, capacity, fault) =>
      var msg := s.mgr.net.taskQ[t][0];
      if msg.kind == MSG_TYPE_LONG_REQUEST && (msg.size > capacity || FailsBeforeRemoval(fault))
      then {msg.seqNum} else {}
    case RespondStep(t, isNull, bytes, fault) =>
      if !isNull && !Fits(bytes) && !fault.ShmGet? && FailsLate(TSKID_MGR, fault) then {s.hands[t].value} else {}
    case DeliverStep(_, fault, _) =>
      if s.mgr.net.inbox == [] then {}
      else
        var msg := s.mgr.net.inbox[0];
        if msg.kind == MSG_TYPE_LONG_REQUEST || (msg.kind == MSG_TYPE_LONG_RESPONSE && FailsBeforeRemoval(fault))
        then {msg.seqNum} else {}
    case _ => {}
  }

  function StepLeak(s: Sys, step: Step): set<nat>
    requires ValidSys(s) && Enabled(s, step)
  {
    StartLeak(s, step) + EffectsLeak(Start(s, step).mgr, Effects(s, step))
  }

  // ------------------------------------------------- what is accounted for

  /** A LONG request that has gone to the manager itself. */
  ghost predicate ToSelf(inbox: seq<Message>, k: nat) {
    exists i :: 0 <= i < |inbox| && inbox[i].kind == MSG_TYPE_LONG_REQUEST && inbox[i].seqNum == k
  }

  predicate Holds(k: nat, r: Rec, answers: Answers) {
    || (r.stage.Queued? && !Fits(r.bytes))
    || (r.stage.Replied? && k in answers && !Fits(answers[k]))
  }

  /** A message that will lead to the segment's removal, or to its loss. */
  ghost predicate Accounted(m: Mgr, answers: Answers, k: nat) {
    (k in m.recs && Holds(k, m.recs[k], answers)) || ToSelf(m.net.inbox, k)
  }

  ghost predicate Leaked(m: Mgr, answers: Answers, k: nat) {
    k in m.net.shm && !Accounted(m, answers, k)
  }

  /** LONG requests in the inbox are distinct, lost to their task, and have their
      segments. */
  ghost predicate SelfOk(m: Mgr) {
    && (forall i | 0 <= i < |m.net.inbox| && m.net.inbox[i].kind == MSG_TYPE_LONG_REQUEST ::
          var s := m.net.inbox[i].seqNum; s in m.recs && m.recs[s].stage.Lost? && s in m.net.shm)
    && (forall i, j | 0 <= i < j < |m.net.inbox| && m.net.inbox[i].kind == MSG_TYPE_LONG_REQUEST
                      && m.net.inbox[j].kind == MSG_TYPE_LONG_REQUEST ::
          m.net.inbox[i].seqNum != m.net.inbox[j].seqNum)
  }

  // ------------------------------------------------- effects

  lemma FreshKey(m: Mgr, hands: Hands, answers: Answers)
    requires ValidMgr(m) && MgrInv(m, hands, answers)
    ensures NextSeqNum(m.issued) == m.issued + 1 && NextSeqNum(m.issued) !in m.recs
            && NextSeqNum(m.issued) !in m.net.shm
  {
  }

  /** A send that fails leaves a segment behind exactly when the payload is long and
      shmget succeeded; it succeeds exactly when the task exists and none of its system
      calls fails. */
  lemma FailedRequestLeak(net: Net, s: nat, id: nat, bytes: seq<byte>, fault: Fault)
    requires ValidNet(net) && s !in net.shm
    ensures var (sent, err) := SendRequest(net, s, id, bytes, fault);
            err != GUI_SUCCESS ==>
              (s in sent.shm <==> !Fits(bytes) && !fault.ShmGet?)
    ensures var (sent, err) := SendRequest(net, s, id, bytes, fault);
            err == GUI_SUCCESS <==>
              && 1 <= TaskOf(id) <= TSK_NUM && !fault.MqSend? && !fault.Calloc?
              && (Fits(bytes) || !(fault.ShmGet? || fault.ShmAt? || fault.ShmDt?))
  {
  }

  lemma ToSelfAppend(inbox: seq<Message>, msg: Message, k: nat)
    ensures ToSelf(inbox + [msg], k) <==> ToSelf(inbox, k) || (msg.kind == MSG_TYPE_LONG_REQUEST && msg.seqNum == k)
  {
    var q := inbox + [msg];
    assert q[|inbox|] == msg;
    if i :| 0 <= i < |inbox| && inbox[i].kind == MSG_TYPE_LONG_REQUEST && inbox[i].seqNum == k {
      assert q[i] == inbox[i];
    }
  }

  /** What a call of Request does to segments, inbox and history, in the terms used here. */
  lemma RequestShape(m: Mgr, hands: Hands, answers: Answers, c: Call)
    requires ValidMgr(m) && MgrInv(m, hands, answers)
    ensures var m', s := Request(m, c).0, NextSeqNum(m.issued);
            && s !in m.recs && s !in m.net.shm
            && (forall k | k != s :: k in m'.net.shm <==> k in m.net.shm)
            && (m'.recs == m.recs ==>
                  m'.net.inbox == m.net.inbox && (s in m'.net.shm <==> s in CallLeak(m, c)))
            && (m'.recs != m.recs ==>
                  && CallLeak(m, c) == {} && s in m'.recs && m'.recs == m.recs[s := m'.recs[s]]
                  && m'.recs[s].stage == InitialStage(m'.recs[s].id)
                  && (s in m'.net.shm <==> !Fits(m'.recs[s].bytes))
                  && m'.net.inbox == if m'.recs[s].stage.Queued? then m.net.inbox
                                     else m.net.inbox + [RequestMessage(s, m'.recs[s].id, m'.recs[s].bytes)])
            && CallLeak(m, c) <= {s}
  {
    FreshKey(m, hands, answers);
    var s := NextSeqNum(m.issued);
    FailedRequestLeak(m.net, s, c.id, c.bytes, c.fault);
    SendRequestEffect(m.net, s, c.id, c.bytes, c.fault);
    hide MgrInv, SendRequest, NextSeqNum, Fits, RequestMessage;
  }

  lemma RequestSelf(m: Mgr, hands: Hands, answers: Answers, c: Call)
    requires ValidMgr(m) && MgrInv(m, hands, answers) && SelfOk(m)
    ensures SelfOk(Request(m, c).0)
  {
    RequestShape(m, hands, answers, c);
    hide MgrInv, Request, CallLeak;
  }

  lemma RequestLeaks(m: Mgr, hands: Hands, answers: Answers, c: Call, k: nat)
    requires ValidMgr(m) && MgrInv(m, hands, answers) && SelfOk(m)
    ensures Leaked(Request(m, c).0, answers, k) <==> Leaked(m, answers, k) || k in CallLeak(m, c)
  {
    RequestShape(m, hands, answers, c);
    var m', s := Request(m, c).0, NextSeqNum(m.issued);
    if ToSelf(m.net.inbox, k) {
      SelfIsKnown(m, k);
    }
    if m'.recs != m.recs {
      ToSelfAppend(m.net.inbox, RequestMessage(s, m'.recs[s].id, m'.recs[s].bytes), k);
    }
    hide MgrInv, Request, CallLeak, ToSelf, SelfOk, NextSeqNum;
  }

  lemma SelfIsKnown(m: Mgr, k: nat)
    requires SelfOk(m) && ToSelf(m.net.inbox, k)
    ensures k in m.recs && m.recs[k].stage.Lost? && k in m.net.shm
  {
  }

  /** Only the status of requests has changed. */
  lemma StatusLeaks(m: Mgr, m': Mgr, answers: Answers, k: nat)
    requires SelfOk(m) && m'.net == m.net && SameButStatus(m.recs, m'.recs)
    ensures SelfOk(m')
    ensures Leaked(m', answers, k) <==> Leaked(m, answers, k)
  {
  }

  lemma EffectLeaks(m: Mgr, hands: Hands, answers: Answers, e: Effect, k: nat)
    requires ValidMgr(m) && MgrInv(m, hands, answers) && SelfOk(m)
    ensures SelfOk(Do(m, e))
    ensures Leaked(Do(m, e), answers, k) <==> Leaked(m, answers, k) || k in EffectLeak(m, e)
  {
    hide MgrInv, SelfOk, Leaked, Request, CallLeak;
    match e
    case Ask(c) =>
      RequestSelf(m, hands, answers, c);
      RequestLeaks(m, hands, answers, c, k);
    case Wipe => StatusLeaks(m, ClearRequests(m), answers, k);
    case Report(i, status, data, err) => StatusLeaks(m, Do(m, e), answers, k);
  }

  lemma {:induction false} EffectsLeaks(m: Mgr, hands: Hands, answers: Answers, es: seq<Effect>, k: nat)
    requires ValidMgr(m) && MgrInv(m, hands, answers) && Lawful(m, answers, es) && DoAll(m, es).issued < TWO16
    requires SelfOk(m)
    ensures SelfOk(DoAll(m, es))
    ensures Leaked(DoAll(m, es), answers, k) <==> Leaked(m, answers, k) || k in EffectsLeak(m, es)
    decreases |es|
  {
    hide MgrInv, Do, EffectOk, SelfOk, Leaked, EffectLeak;
    if es != [] {
      DoAllIssues(Do(m, es[0]), es[1..]);
      EffectInv(m, hands, answers, es[0]);
      EffectLeaks(m, hands, answers, es[0], k);
      EffectsLeaks(Do(m, es[0]), hands, answers, es[1..], k);
    }
  }

  // ------------------------------------------------- the transport

  /** Messages that are not LONG requests come and go. */
  lemma InboxLeaks(m: Mgr, inbox: seq<Message>, answers: Answers, k: nat)
    requires SelfOk(m)
    requires || (exists msg :: inbox == m.net.inbox + [msg] && msg.kind != MSG_TYPE_LONG_REQUEST)
             || (m.net.inbox != [] && m.net.inbox[0].kind != MSG_TYPE_LONG_REQUEST && inbox == m.net.inbox[1..])
    ensures var m' := m.(net := m.net.(inbox := inbox));
            SelfOk(m') && (Leaked(m', answers, k) <==> Leaked(m, answers, k))
  {
    var q := m.net.inbox;
    if q != [] && q[0].kind != MSG_TYPE_LONG_REQUEST && inbox == q[1..] {
      assert forall i | 0 <= i < |inbox| :: inbox[i] == q[i + 1];
      assert forall i | 1 <= i < |q| :: q[i] == inbox[i - 1];
    } else {
      var msg :| inbox == q + [msg] && msg.kind != MSG_TYPE_LONG_REQUEST;
      ToSelfAppend(q, msg, k);
    }
  }

  /** The manager drops a LONG request of its own: nothing will remove the segment. */
  lemma SelfDropped(m: Mgr, answers: Answers, k: nat)
    requires SelfOk(m) && m.net.inbox != [] && m.net.inbox[0].kind == MSG_TYPE_LONG_REQUEST
    ensures var m' := m.(net := m.net.(inbox := m.net.inbox[1..]));
            SelfOk(m') && (Leaked(m', answers, k) <==> Leaked(m, answers, k) || k == m.net.inbox[0].seqNum)
  {
    var q := m.net.inbox;
    var inbox := q[1..];
    assert forall i | 0 <= i < |inbox| :: inbox[i] == q[i + 1];
    assert forall i | 1 <= i < |q| :: q[i] == inbox[i - 1];
  }

  /** Request h moves to another stage, and only its own segment and answer may change. */
  lemma MoveLeaks(m: Mgr, m': Mgr, answers: Answers, answers': Answers, h: nat, leak: bool, k: nat)
    requires SelfOk(m) && h in m.recs && !m.recs[h].stage.Lost? && m'.net.inbox == m.net.inbox
    requires AgreeExcept(m.recs, m'.recs, h) && AgreeExcept(m.net.shm, m'.net.shm, h)
             && AgreeExcept(answers, answers', h)
    requires Leaked(m', answers', h) <==> Leaked(m, answers, h) || leak
    ensures SelfOk(m')
    ensures Leaked(m', answers', k) <==> Leaked(m, answers, k) || (leak && k == h)
  {
  }

  /** A request that is not lost is no LONG request of the manager's own. */
  lemma NotToSelf(m: Mgr, h: nat)
    requires SelfOk(m) && h in m.recs && !m.recs[h].stage.Lost?
    ensures !ToSelf(m.net.inbox, h)
  {
    if ToSelf(m.net.inbox, h) {
      SelfIsKnown(m, h);
    }
  }

  lemma ReceiveKeeps(s: Sys, t: nat, capacity: nat, fault: Fault)
    requires Inv(s) && Enabled(s, ReceiveStep(t, capacity, fault))
    ensures var m, m', h := s.mgr, Receive(s, t, capacity, fault).0.mgr, s.mgr.net.taskQ[t][0].seqNum;
            && h in m.recs && m.recs[h].stage.Queued? && (h in m.net.shm ==> !Fits(m.recs[h].bytes))
            && AgreeExcept(m.recs, m'.recs, h) && AgreeExcept(m.net.shm, m'.net.shm, h) && m'.net.inbox == m.net.inbox
            && h in m'.recs && (m'.recs[h].stage.InHand? || m'.recs[h].stage.Lost?)
            && (h in m'.net.shm <==> h in StartLeak(s, ReceiveStep(t, capacity, fault)))
            && StartLeak(s, ReceiveStep(t, capacity, fault)) <= {h}
  {
    assert ValidSys(s);
    var m := s.mgr;
    assert QueueOk(m.net.taskQ[t], t, m.recs, m.net.shm);
    HeadMessage(m, s.answers, t);
    hide MgrInv, QueueOk;
    WaitForRequestEffect(m.net.shm, m.net.taskQ[t][0], t, m.recs, capacity, fault);
  }

  lemma ReceiveLeaks(s: Sys, t: nat, capacity: nat, fault: Fault, k: nat)
    requires Inv(s) && Enabled(s, ReceiveStep(t, capacity, fault)) && SelfOk(s.mgr)
    ensures var step := ReceiveStep(t, capacity, fault); var s' := Start(s, step);
            && SelfOk(s'.mgr)
            && (Leaked(s'.mgr, s'.answers, k) <==> Leaked(s.mgr, s.answers, k) || k in StartLeak(s, step))
  {
    assert ValidSys(s);
    var step, h := ReceiveStep(t, capacity, fault), s.mgr.net.taskQ[t][0].seqNum;
    ReceiveKeeps(s, t, capacity, fault);
    NotToSelf(s.mgr, h);
    var s' := Start(s, step);
    assert s'.mgr == Receive(s, t, capacity, fault).0.mgr && s'.answers == s.answers;
    hide Inv, Start, Receive, StartLeak, SelfOk, ToSelf, AgreeExcept, Leaked;
    assert !Leaked(s.mgr, s.answers, h) by {
      QueuedIsAccounted(s.mgr, s.answers, h);
    }
    MoveLeaks(s.mgr, s'.mgr, s.answers, s.answers, h, h in StartLeak(s, step), k);
  }

  lemma QueuedIsAccounted(m: Mgr, answers: Answers, h: nat)
    requires h in m.recs && m.recs[h].stage.Queued? && (h in m.net.shm ==> !Fits(m.recs[h].bytes))
    ensures !Leaked(m, answers, h)
  {
  }

  /** As for requests: what a failed answer leaves behind, and when it fails. */
  lemma FailedResponseLeak(net: Net, h: nat, isNull: bool, bytes: seq<byte>, fault: Fault)
    requires ValidNet(net) && h !in net.shm
    ensures var (sent, err) := Response(net, h, isNull, bytes, fault);
            && (err != IPC_SUCCESS ==>
                  (h in sent.shm <==> !isNull && !Fits(bytes) && !fault.ShmGet?) && sent.inbox == net.inbox)
            && (err == IPC_SUCCESS <==>
                  && !isNull && bytes != [] && !fault.MqSend? && !fault.Calloc?
                  && (Fits(bytes) || !(fault.ShmGet? || fault.ShmAt? || fault.ShmDt?)))
  {
  }

  lemma RespondLeaks(s: Sys, t: nat, isNull: bool, bytes: seq<byte>, fault: Fault, k: nat)
    requires Inv(s) && Enabled(s, RespondStep(t, isNull, bytes, fault)) && SelfOk(s.mgr)
    ensures var step := RespondStep(t, isNull, bytes, fault); var s' := Start(s, step);
            && SelfOk(s'.mgr)
            && (Leaked(s'.mgr, s'.answers, k) <==> Leaked(s.mgr, s.answers, k) || k in StartLeak(s, step))
  {
    assert ValidSys(s);
    HandHolds(s, t);
    var step, m, h := RespondStep(t, isNull, bytes, fault), s.mgr, s.hands[t].value;
    NotToSelf(m, h);
    FailedResponseLeak(m.net, h, isNull, bytes, fault);
    ResponseEffect(m.net, h, isNull, bytes, fault);
    var (sent, err) := Response(m.net, h, isNull, bytes, fault);
    var s' := Start(s, step);
    assert s' == Respond(s, t, isNull, bytes, fault).0;
    if err == IPC_SUCCESS {
      hide MgrInv, SelfOk, ToSelf, Response, Leaked;
      var m1 := m.(net := m.net.(inbox := sent.inbox));
      InboxLeaks(m, sent.inbox, s.answers, k);
      InboxLeaks(m, sent.inbox, s.answers, h);
      NotToSelf(m1, h);
      NoSegment(m1, s.answers, h);
      MoveLeaks(m1, s'.mgr, s.answers, s'.answers, h, false, k);
    } else if err != IPC_ERR_PARAMETER {
      hide MgrInv, SelfOk, ToSelf, Response, Leaked;
      NoSegment(m, s.answers, h);
      MoveLeaks(m, s'.mgr, s.answers, s.answers, h, h in StartLeak(s, step), k);
    }
  }

  lemma NoSegment(m: Mgr, answers: Answers, h: nat)
    requires h !in m.net.shm
    ensures !Leaked(m, answers, h)
  {
  }

  lemma AbandonLeaks(s: Sys, t: nat, k: nat)
    requires Inv(s) && Enabled(s, AbandonStep(t)) && SelfOk(s.mgr)
    ensures var s' := Start(s, AbandonStep(t));
            && SelfOk(s'.mgr)
            && (Leaked(s'.mgr, s'.answers, k) <==> Leaked(s.mgr, s.answers, k))
  {
    assert ValidSys(s);
    HandHolds(s, t);
    var m, h := s.mgr, s.hands[t].value;
    var s' := Start(s, AbandonStep(t));
    assert s'.mgr == m.(recs := SetStage(m.recs, h, Lost)) && s'.answers == s.answers;
    NotToSelf(m, h);
    NoSegment(m, s.answers, h);
    hide MgrInv, SelfOk, ToSelf, Leaked, Start;
    MoveLeaks(m, s'.mgr, s.answers, s.answers, h, false, k);
  }

  /** What delivery of a response leaves of its segment. */
  lemma TookShm(s: Sys, at: Timeval, fault: Fault, script: Script)
    requires ValidSys(s) && Enabled(s, DeliverStep(at, fault, script)) && s.mgr.net.inbox != []
    requires var m, msg := s.mgr, s.mgr.net.inbox[0];
             && IsResponse(msg) && m.issued < TWO16 && 1 <= msg.seqNum <= m.issued
             && RespMsgOk(msg, m.recs, s.answers, m.net.shm)
    ensures var m, m', h := s.mgr, Took(s.mgr, fault), s.mgr.net.inbox[0].seqNum;
            var leak := StartLeak(s, DeliverStep(at, fault, script));
            && m'.recs == SetStage(m.recs, h, Gone) && m'.net.inbox == m.net.inbox[1..]
            && m'.net.shm
               == (if Arrives(m.net.inbox[0], fault) && !Fits(s.answers[h]) then m.net.shm - {h} else m.net.shm)
            && leak == (if Arrives(m.net.inbox[0], fault) then {} else {h})
  {
    DeliverCases(s.mgr, s.answers, at, fault, script);
    hide Took, Deliver, DeliverEffects, SetStage;
  }

  /** The same in the terms used here. */
  lemma TookShape(s: Sys, at: Timeval, fault: Fault, script: Script)
    requires Inv(s) && Enabled(s, DeliverStep(at, fault, script))
    requires s.mgr.net.inbox != [] && IsResponse(s.mgr.net.inbox[0])
    ensures var m, m', h := s.mgr, Took(s.mgr, fault), s.mgr.net.inbox[0].seqNum;
            var leak := StartLeak(s, DeliverStep(at, fault, script));
            && h in m.recs && m.recs[h].stage.Replied? && h in s.answers
            && AgreeExcept(m.recs, m'.recs, h) && h in m'.recs && m'.recs[h].stage.Gone?
            && AgreeExcept(m.net.shm, m'.net.shm, h) && m'.net.inbox == m.net.inbox[1..]
            && leak <= {h}
            && (Fits(s.answers[h]) ==> leak == {} && m'.net.shm == m.net.shm)
            && (!Fits(s.answers[h]) ==> (h in m'.net.shm <==> h in leak))
  {
    var m := s.mgr;
    assert ValidSys(s) && m.issued < TWO16;
    hide MgrInv, Took, RespMsgOk, StartLeak, Enabled, SetStage, Fits, LastSuccess;
    TakeResponse(m, s.hands, s.answers, m.net.shm);
    RepliedHasSegment(m, s.hands, s.answers);
    TookShm(s, at, fault, script);
    StageSet(m.recs, m.net.inbox[0].seqNum, Gone);
  }

  lemma StageSet(recs: Recs, h: nat, stage: Stage)
    requires h in recs
    ensures var recs' := SetStage(recs, h, stage);
            AgreeExcept(recs, recs', h) && h in recs' && recs'[h].stage == stage
  {
  }

  lemma TookLeaks(s: Sys, at: Timeval, fault: Fault, script: Script, k: nat)
    requires Inv(s) && Enabled(s, DeliverStep(at, fault, script)) && SelfOk(s.mgr)
    requires s.mgr.net.inbox != [] && IsResponse(s.mgr.net.inbox[0])
    ensures var m' := Took(s.mgr, fault);
            && SelfOk(m')
            && (Leaked(m', s.answers, k)
               <==> Leaked(s.mgr, s.answers, k) || k in StartLeak(s, DeliverStep(at, fault, script)))
  {
    assert ValidSys(s);
    hide Inv, SelfOk, ToSelf, Leaked, Took, AgreeExcept, Fits, StartLeak, Enabled;
    TookShape(s, at, fault, script);
    var m, m', h := s.mgr, Took(s.mgr, fault), s.mgr.net.inbox[0].seqNum;
    var m1, leak := m.(net := m.net.(inbox := m'.net.inbox)), h in StartLeak(s, DeliverStep(at, fault, script));
    InboxLeaks(m, m'.net.inbox, s.answers, k);
    InboxLeaks(m, m'.net.inbox, s.answers, h);
    NotToSelf(m1, h);
    TookLeaksOwn(m1, m', s.answers, h, leak);
    MoveLeaks(m1, m', s.answers, s.answers, h, leak, k) by {
      SameMap(s.answers, h);
    }
  }

  lemma SameMap(answers: Answers, h: nat)
    ensures AgreeExcept(answers, answers, h)
  {
  }

  lemma TookLeaksOwn(m: Mgr, m': Mgr, answers: Answers, h: nat, leak: bool)
    requires h in m.recs && m.recs[h].stage.Replied? && h in answers && !ToSelf(m.net.inbox, h)
    requires h in m'.recs && m'.recs[h].stage.Gone? && m'.net.inbox == m.net.inbox
    requires Fits(answers[h]) ==> !leak && m'.net.shm == m.net.shm
    requires !Fits(answers[h]) ==> (h in m'.net.shm <==> leak)
    ensures Leaked(m', answers, h) <==> Leaked(m, answers, h) || leak
  {
  }

  lemma RepliedHasSegment(m: Mgr, hands: Hands, answers: Answers)
    requires ValidMgr(m) && MgrInv(m, hands, answers) && m.net.inbox != [] && IsResponse(m.net.inbox[0])
    ensures var h := m.net.inbox[0].seqNum;
            && h in m.recs && m.recs[h].stage.Replied? && h in answers
            && (!Fits(answers[h]) ==> h in m.net.shm)
            && (m.net.inbox[0].kind == MSG_TYPE_LONG_RESPONSE <==> !Fits(answers[h]))
  {
  }

  /** A message that is no response reaches the manager. */
  lemma TookOtherLeaks(s: Sys, at: Timeval, fault: Fault, script: Script, k: nat)
    requires ValidSys(s) && Enabled(s, DeliverStep(at, fault, script)) && SelfOk(s.mgr)
    requires s.mgr.net.inbox != [] && !IsResponse(s.mgr.net.inbox[0])
    ensures var m' := Took(s.mgr, fault);
            && SelfOk(m')
            && (Leaked(m', s.answers, k)
               <==> Leaked(s.mgr, s.answers, k) || k in StartLeak(s, DeliverStep(at, fault, script)))
  {
    var m := s.mgr;
    assert Took(m, fault) == m.(net := m.net.(inbox := m.net.inbox[1..]));
    hide SelfOk, Leaked, Took;
    if m.net.inbox[0].kind == MSG_TYPE_LONG_REQUEST {
      SelfDropped(m, s.answers, k);
    } else {
      InboxLeaks(m, m.net.inbox[1..], s.answers, k);
    }
  }

  lemma StartLeaks(s: Sys, step: Step, k: nat)
    requires Inv(s) && Enabled(s, step) && SelfOk(s.mgr)
    ensures var s' := Start(s, step);
            && SelfOk(s'.mgr)
            && (Leaked(s'.mgr, s'.answers, k) <==> Leaked(s.mgr, s.answers, k) || k in StartLeak(s, step))
  {
    assert ValidSys(s);
    hide MgrInv, SelfOk, Leaked, Took, Receive, Respond, Abandon, ScriptInRange;
    match step
    case DeliverStep(at, fault, script) =>
      if s.mgr.net.inbox != [] {
        if IsResponse(s.mgr.net.inbox[0]) {
          TookLeaks(s, at, fault, script, k);
        } else {
          TookOtherLeaks(s, at, fault, script, k);
        }
      }
    case ReceiveStep(t, capacity, fault) => ReceiveLeaks(s, t, capacity, fault, k);
    case RespondStep(t, isNull, bytes, fault) => RespondLeaks(s, t, isNull, bytes, fault, k);
    case AbandonStep(t) => AbandonLeaks(s, t, k);
    case ConsoleStep(id, bytes) =>
      InboxLeaks(s.mgr, s.mgr.net.inbox + [ShortMessage(MSG_TYPE_SHORT_REQUEST, 0, id, bytes)], s.answers, k);
    case _ =>
  }

  /** After a step exactly the keys leaked before and those the step leaks are leaked. */
  lemma NextLeaks(s: Sys, step: Step, k: nat)
    requires Inv(s) && Enabled(s, step) && Next(s, step).mgr.issued < TWO16 && SelfOk(s.mgr)
    ensures var s' := Next(s, step);
            && SelfOk(s'.mgr)
            && (Leaked(s'.mgr, s'.answers, k) <==> Leaked(s.mgr, s.answers, k) || k in StepLeak(s, step))
  {
    assert ValidSys(s);
    hide MgrInv, SelfOk, Leaked, Start, Next, Effects, Lawful, StartLeak, EffectsLeak;
    var s' := Start(s, step);
    StartInv(s, step);
    StartLeaks(s, step, k);
    NextTrace(s, step);
    EffectsLeaks(s'.mgr, s'.hands, s'.answers, Effects(s, step), k);
  }

  // ------------------------------------------------- over whole runs

  /** Some step before state n leaked key k. */
  ghost predicate LeakedBefore(states: seq<Sys>, steps: seq<Step>, n: nat, k: nat)
    requires IsRun(states, steps) && n < |states|
  {
    exists i :: 0 <= i < n && k in StepLeak(states[i], steps[i])
  }

  lemma {:induction false} RunLeaks(states: seq<Sys>, steps: seq<Step>, n: nat, k: nat)
    requires IsRun(states, steps) && n < |states| && states[n].mgr.issued < TWO16
    ensures SelfOk(states[n].mgr)
    ensures Leaked(states[n].mgr, states[n].answers, k) <==> LeakedBefore(states, steps, n, k)
  {
    hide Inv, Next, Enabled, SelfOk, Leaked, StepLeak;
    if n == 0 {
      NothingYet(k);
    } else {
      NextIssues(states[n - 1], steps[n - 1]);
      RunInv(states, steps, n - 1);
      RunLeaks(states, steps, n - 1, k);
      NextLeaks(states[n - 1], steps[n - 1], k);
    }
  }

  lemma NothingYet(k: nat)
    ensures SelfOk(Init().mgr) && !Leaked(Init().mgr, Init().answers, k)
  {
  }

  /** A LONG message: a request in a task's queue or in the manager's inbox, or a
      response in the inbox. */
  ghost predicate LongQueued(net: Net, k: nat)
    requires ValidNet(net)
  {
    || (exists t: nat, i :: IsTask(t) && 0 <= i < |net.taskQ[t]|
                            && net.taskQ[t][i].kind == MSG_TYPE_LONG_REQUEST && net.taskQ[t][i].seqNum == k)
    || ToSelf(net.inbox, k)
    || (exists i :: 0 <= i < |net.inbox| && net.inbox[i].kind == MSG_TYPE_LONG_RESPONSE && net.inbox[i].seqNum == k)
  }

  lemma LongQueuedIsAccounted(m: Mgr, hands: Hands, answers: Answers, k: nat)
    requires ValidMgr(m) && MgrInv(m, hands, answers) && SelfOk(m) && LongQueued(m.net, k)
    ensures Accounted(m, answers, k) && k in m.net.shm
  {
    hide TableOk, RecsOk, RankOk, StatusOk, AnswersOk, PlacesOk, HandsOk, ShmOk, LogOk, ToSelf;
    if t: nat, i :| IsTask(t) && 0 <= i < |m.net.taskQ[t]|
                    && m.net.taskQ[t][i].kind == MSG_TYPE_LONG_REQUEST && m.net.taskQ[t][i].seqNum == k {
      assert ReqMsgOk(m.net.taskQ[t][i], t, m.recs, m.net.shm);
    } else if ToSelf(m.net.inbox, k) {
      SelfIsKnown(m, k);
    } else {
      var i :| 0 <= i < |m.net.inbox| && m.net.inbox[i].kind == MSG_TYPE_LONG_RESPONSE && m.net.inbox[i].seqNum == k;
      assert RespMsgOk(m.net.inbox[i], m.recs, answers, m.net.shm);
    }
  }

  lemma AccountedIsLongQueued(m: Mgr, hands: Hands, answers: Answers, k: nat)
    requires ValidMgr(m) && MgrInv(m, hands, answers) && Accounted(m, answers, k)
    ensures LongQueued(m.net, k)
  {
    hide TableOk, RecsOk, RankOk, StatusOk, AnswersOk, HandsOk, ShmOk, LogOk, ToSelf;
    if !ToSelf(m.net.inbox, k) {
      var r := m.recs[k];
      if r.stage.Queued? {
        var t := TaskOf(r.id);
        assert IsTask(t) && InQueue(m.net.taskQ[t], k);
        var i :| 0 <= i < |m.net.taskQ[t]| && m.net.taskQ[t][i].seqNum == k;
        assert ReqMsgOk(m.net.taskQ[t][i], t, m.recs, m.net.shm);
      } else {
        assert InReplies(m.net.inbox, k);
        var i :| 0 <= i < |m.net.inbox| && IsResponse(m.net.inbox[i]) && m.net.inbox[i].seqNum == k;
        assert RespMsgOk(m.net.inbox[i], m.recs, answers, m.net.shm);
      }
    }
  }

  /** In every state of every run, whatever fails, times out or is dropped: a key has a
      segment if and only if a LONG message with it is queued or some step leaked it,
      and never both; what is leaked stays. */
  lemma SegmentAccounting(states: seq<Sys>, steps: seq<Step>, n: nat, k: nat)
    requires IsRun(states, steps) && n < |states| && states[n].mgr.issued < TWO16
    ensures ValidSys(states[n])
    ensures k in states[n].mgr.net.shm <==> LongQueued(states[n].mgr.net, k) || LeakedBefore(states, steps, n, k)
    ensures !(LongQueued(states[n].mgr.net, k) && LeakedBefore(states, steps, n, k))
  {
    RunInv(states, steps, n);
    RunLeaks(states, steps, n, k);
    hide IsRun, MgrInv, SelfOk, Accounted, LeakedBefore;
    var s := states[n];
    SysIsValid(s);
    if Accounted(s.mgr, s.answers, k) {
      AccountedIsLongQueued(s.mgr, s.hands, s.answers, k);
    }
    if LongQueued(s.mgr.net, k) {
      LongQueuedIsAccounted(s.mgr, s.hands, s.answers, k);
    }
  }

  lemma SysIsValid(s: Sys)
    requires Inv(s)
    ensures ValidSys(s)
  {
  }

  /** The live segments are those of the queued LONG messages, no more and no fewer. */
  ghost predicate Conserved(s: Sys) {
    ValidSys(s) && forall k: nat :: k in s.mgr.net.shm <==> LongQueued(s.mgr.net, k)
  }

  /** Segments are conserved throughout a run if and only if no step of it leaks. */
  lemma SegmentConservation(states: seq<Sys>, steps: seq<Step>)
    requires IsRun(states, steps) && states[|steps|].mgr.issued < TWO16
    ensures (forall n | 0 <= n < |states| :: Conserved(states[n]))
            <==> (forall i | 0 <= i < |steps| :: StepLeak(states[i], steps[i]) == {})
  {
    hide Next, Enabled, StepLeak, LongQueued;
    forall n | 0 <= n < |states| ensures states[n].mgr.issued < TWO16 {
      RunGrows(states, steps, n, |steps|);
      assert Grows(states[n].mgr, states[|steps|].mgr);
    }
    if i :| 0 <= i < |steps| && StepLeak(states[i], steps[i]) != {} {
      var k :| k in StepLeak(states[i], steps[i]);
      assert LeakedBefore(states, steps, i + 1, k);
      SegmentAccounting(states, steps, i + 1, k);
      assert !Conserved(states[i + 1]);
    } else {
      forall n | 0 <= n < |states| ensures Conserved(states[n]) {
        SegmentAccounting(states, steps, n, 0);
        forall k: nat ensures k in states[n].mgr.net.shm <==> LongQueued(states[n].mgr.net, k) {
          SegmentAccounting(states, steps, n, k);
        }
      }
    }
  }

  /** A drained system holds exactly the segments that some step leaked. */
  lemma DrainedSystem(states: seq<Sys>, steps: seq<Step>, n: nat, k: nat)
    requires IsRun(states, steps) && n < |states| && states[n].mgr.issued < TWO16 && ValidSys(states[n])
    requires states[n].mgr.net.inbox == [] && forall t: nat | IsTask(t) :: states[n].mgr.net.taskQ[t] == []
    ensures k in states[n].mgr.net.shm <==> LeakedBefore(states, steps, n, k)
  {
    hide IsRun, LeakedBefore;
    SegmentAccounting(states, steps, n, k);
  }

  /** No sequence number has a request and a response in flight at the same time. */
  lemma OneTransportPerNumber(states: seq<Sys>, steps: seq<Step>, k: nat, t: nat, i: nat, j: nat)
    requires IsRun(states, steps) && k < |states| && states[k].mgr.issued < TWO16
    requires IsTask(t) && ValidSys(states[k]) && i < |states[k].mgr.net.taskQ[t]|
    requires j < |states[k].mgr.net.inbox| && IsResponse(states[k].mgr.net.inbox[j])
    ensures states[k].mgr.net.taskQ[t][i].seqNum != states[k].mgr.net.inbox[j].seqNum
  {
    RunInv(states, steps, k);
    hide IsRun, TableOk, RecsOk, RankOk, StatusOk, AnswersOk, PlacesOk, HandsOk, ShmOk, LogOk;
    var m := states[k].mgr;
    assert ReqMsgOk(m.net.taskQ[t][i], t, m.recs, m.net.shm);
    assert RespMsgOk(m.net.inbox[j], m.recs, states[k].answers, m.net.shm);
  }
}
