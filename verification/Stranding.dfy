/** What strands a request: the steps after which a slot waits for an answer that nothing
    in flight can bring any more, and runs in which there are none. */
module Stranding {
  import opened Base
  import opened Deadline
  import opened Net
  import opened Pending
  import opened Protocol
  import opened ProtocolFrames
  import opened ProtocolTasks
  import opened ProtocolRuns
  import opened Trace
  import opened Theorems
  import opened Segments
  import opened Scripts
  import opened Delivery
  import opened Occupancy

  // ------------------------------------------------- what strands

  /** A call of Request that succeeds: well-formed, a slot free, the task known, and none
      of its system calls fails. */
  predicate Accepted(m: Mgr, c: Call)
    requires ValidMgr(m)
  {
    && !(c.isNull && |c.bytes| != 0) && c.id != 0 && FirstFree(m.slots, 0) < GUI_MAX_REQUESTS
    && 1 <= TaskOf(c.id) <= TSK_NUM && !c.fault.MqSend? && !c.fault.Calloc?
    && (Fits(c.bytes) || !(c.fault.ShmGet? || c.fault.ShmAt? || c.fault.ShmDt?))
  }

  /** A request that is accepted and addresses the manager itself: no task will see it. */
  function CallStrands(m: Mgr, c: Call): set<nat>
    requires ValidMgr(m)
  {
    if Accepted(m, c) && TaskOf(c.id) == TSKID_MGR then {NextSeqNum(m.issued)} else {}
  }

  function EffectsStrand(m: Mgr, es: seq<Effect>): set<nat>
    requires ValidMgr(m)
    decreases |es|
  {
    if es == [] then {}
    else (if es[0].Ask? then CallStrands(m, es[0].call) else {}) + EffectsStrand(Do(m, es[0]), es[1..])
  }

  /** WaitForRequest returns an error for this message. */
  predicate ReceiveFails(msg: Message, capacity: nat, fault: Fault) {
    || msg.size > capacity
    || (msg.kind == MSG_TYPE_LONG_REQUEST && (fault.ShmGet? || fault.ShmAt? || fault.ShmRm? || fault.ShmDt?))
  }

  /** Response returns an error, and not because there is no payload. */
  predicate RespondFails(isNull: bool, bytes: seq<byte>, fault: Fault) {
    && !isNull && bytes != []
    && (fault.MqSend? || fault.Calloc? || (!Fits(bytes) && (fault.ShmGet? || fault.ShmAt? || fault.ShmDt?)))
  }

  /** The request that the transport part of a step strands: a receive or a Response that
      fails, an abandoned handle, a long response whose segment cannot be taken. */
  function StartStrands(s: Sys, step: Step): set<nat>
    requires ValidSys(s) && Enabled(s, step)
  {
    match step
    case ReceiveStep(t, capacity, fault) =>
      var msg := s.mgr.net.taskQ[t][0];
      if ReceiveFails(msg, capacity, fault) then {msg.seqNum} else {}
    case RespondStep(t, isNull, bytes, fault) =>
      if RespondFails(isNull, bytes, fault) then {s.hands[t].value} else {}
    case AbandonStep(t) => {s.hands[t].value}
    case DeliverStep(_, fault, _) =>
      if s.mgr.net.inbox == [] then {}
      else
        var msg := s.mgr.net.inbox[0];
        if IsResponse(msg) && !Arrives(msg, fault) then {msg.seqNum} else {}
    case _ => {}
  }

  function StepStrands(s: Sys, step: Step): set<nat>
    requires ValidSys(s) && Enabled(s, step)
  {
    StartStrands(s, step) + EffectsStrand(Start(s, step).mgr, Effects(s, step))
  }

  // ------------------------------------------------- calls

  /** Success can be told before the call. */
  lemma AcceptedSucceeds(m: Mgr, hands: Hands, answers: Answers, c: Call)
    requires ValidMgr(m) && MgrInv(m, hands, answers)
    ensures Request(m, c).1 == GUI_SUCCESS <==> Accepted(m, c)
  {
    FreshKey(m, hands, answers);
    FailedRequestLeak(m.net, NextSeqNum(m.issued), c.id, c.bytes, c.fault);
    hide MgrInv, SendRequest, NextSeqNum, Fits, FirstFree;
  }

  lemma CallStranded(m: Mgr, hands: Hands, answers: Answers, c: Call, k: nat)
    requires ValidMgr(m) && MgrInv(m, hands, answers)
    ensures k in Stranded(Request(m, c).0.recs) <==> k in Stranded(m.recs) || k in CallStrands(m, c)
  {
    AcceptedSucceeds(m, hands, answers, c);
    FreshKey(m, hands, answers);
    hide MgrInv, SendRequest, NextSeqNum, Accepted, FirstFree;
  }

  ghost predicate OnlyAsks(es: seq<Effect>) {
    forall i | 0 <= i < |es| :: es[i].Ask?
  }

  lemma {:induction false} AsksStrand(m: Mgr, hands: Hands, answers: Answers, es: seq<Effect>, k: nat)
    requires ValidMgr(m) && MgrInv(m, hands, answers) && Lawful(m, answers, es) && DoAll(m, es).issued < TWO16
    requires OnlyAsks(es)
    ensures k in Stranded(DoAll(m, es).recs) <==> k in Stranded(m.recs) || k in EffectsStrand(m, es)
    decreases |es|
  {
    hide MgrInv, EffectOk, Stranded, Request, CallStrands;
    if es != [] {
      var next := Do(m, es[0]);
      DoAllIssues(next, es[1..]);
      EffectInv(m, hands, answers, es[0]);
      CallStranded(m, hands, answers, es[0].call, k);
      AsksStrand(next, hands, answers, es[1..], k);
    }
  }

  lemma {:induction false} ScriptAsks(script: Script)
    requires !Loads(script)
    ensures OnlyAsks(ScriptEffects(script))
  {
    if script != [] {
      ScriptAsks(script[1..]);
    }
  }

  // ------------------------------------------------- the transport

  /** One request moves to another stage. */
  lemma MoveStrands(recs: Recs, recs': Recs, h: nat, k: nat)
    requires h in recs && recs[h].status.Waiting? && Moving(recs[h])
    requires h in recs' && recs' == recs[h := recs'[h]] && recs'[h].status.Waiting?
    ensures k in Stranded(recs') <==> k in Stranded(recs) || (k == h && !Moving(recs'[h]))
  {
  }

  /** In a run without timeouts and window changes, what is on its way still waits. */
  lemma MovingWaits(s: Sys, h: nat)
    requires Inv(s) && NoneLate(s.mgr.recs) && h in s.mgr.recs && Moving(s.mgr.recs[h])
    ensures s.mgr.recs[h].status.Waiting?
  {
    hide TableOk, RecsOk, RankOk, AnswersOk, QueuesOk, InboxOk, PlacesOk, HandsOk, ShmOk, LogOk;
  }

  lemma ReceiveStrands(s: Sys, t: nat, capacity: nat, fault: Fault, k: nat)
    requires Inv(s) && NoneLate(s.mgr.recs) && Enabled(s, ReceiveStep(t, capacity, fault))
    ensures var step := ReceiveStep(t, capacity, fault);
            k in Stranded(Start(s, step).mgr.recs) <==> k in Stranded(s.mgr.recs) || k in StartStrands(s, step)
  {
    assert ValidSys(s);
    var m := s.mgr;
    var msg := m.net.taskQ[t][0];
    assert QueueOk(m.net.taskQ[t], t, m.recs, m.net.shm);
    HeadMessage(m, s.answers, t);
    MovingWaits(s, msg.seqNum);
    ReceiveOutcome(m.net.shm, msg, t, m.recs, capacity, fault);
    var recs' := Receive(s, t, capacity, fault).0.mgr.recs;
    hide MgrInv, QueueOk, ReqMsgOk, WaitForRequest, Stranded, NoneLate, ReceiveFails;
    MoveStrands(m.recs, recs', msg.seqNum, k);
  }

  lemma ReceiveOutcome(shm: Shm, msg: Message, t: nat, recs: Recs, capacity: nat, fault: Fault)
    requires ReqMsgOk(msg, t, recs, shm)
    ensures WaitForRequest(shm, msg, capacity, fault).1.Received? <==> !ReceiveFails(msg, capacity, fault)
  {
  }

  lemma RespondStrands(s: Sys, t: nat, isNull: bool, bytes: seq<byte>, fault: Fault, k: nat)
    requires Inv(s) && NoneLate(s.mgr.recs) && Enabled(s, RespondStep(t, isNull, bytes, fault))
    ensures var step := RespondStep(t, isNull, bytes, fault);
            k in Stranded(Start(s, step).mgr.recs) <==> k in Stranded(s.mgr.recs) || k in StartStrands(s, step)
  {
    assert ValidSys(s);
    HandHolds(s, t);
    var m, h := s.mgr, s.hands[t].value;
    MovingWaits(s, h);
    FailedResponseLeak(m.net, h, isNull, bytes, fault);
    ResponseEffect(m.net, h, isNull, bytes, fault);
    var err := Response(m.net, h, isNull, bytes, fault).1;
    var recs' := Respond(s, t, isNull, bytes, fault).0.mgr.recs;
    hide MgrInv, Response, Stranded, NoneLate;
    if err != IPC_ERR_PARAMETER {
      MoveStrands(m.recs, recs', h, k);
    }
  }

  lemma AbandonStrands(s: Sys, t: nat, k: nat)
    requires Inv(s) && NoneLate(s.mgr.recs) && Enabled(s, AbandonStep(t))
    ensures var step := AbandonStep(t);
            k in Stranded(Start(s, step).mgr.recs) <==> k in Stranded(s.mgr.recs) || k in StartStrands(s, step)
  {
    assert ValidSys(s);
    HandHolds(s, t);
    MovingWaits(s, s.hands[t].value);
    hide MgrInv, Stranded, NoneLate;
    MoveStrands(s.mgr.recs, Abandon(s, t).mgr.recs, s.hands[t].value, k);
  }

  // ------------------------------------------------- delivery

  lemma {:induction false} NoMatchEffects(m: Mgr, s: nat, i: nat, data: seq<byte>, script: Script)
    requires ValidMgr(m) && i <= GUI_MAX_REQUESTS
    requires forall j | i <= j < GUI_MAX_REQUESTS :: m.slots[j].seqNum != s
    ensures MatchEffects(m, s, i, data, script) == []
    decreases GUI_MAX_REQUESTS - i
  {
    if i < GUI_MAX_REQUESTS {
      NoMatchEffects(m, s, i + 1, data, script);
    }
  }

  /** The scan for a number in the table has the effects of completing its slot. */
  lemma {:induction false} OneMatchEffects(m: Mgr, s: nat, i: nat, i0: nat, data: seq<byte>, script: Script)
    requires ValidMgr(m) && TableWf(m.slots) && s != 0
    requires i <= i0 < GUI_MAX_REQUESTS && m.slots[i0].seqNum == s
    ensures MatchEffects(m, s, i, data, script) == CallbackEffects(m, i0, Answered, data, GUI_SUCCESS, script)
    decreases i0 - i
  {
    hide CallbackEffects;
    if i < i0 {
      OneMatchEffects(m, s, i + 1, i0, data, script);
    } else {
      var es := CallbackEffects(m, i0, Answered, data, GUI_SUCCESS, script);
      assert es + [] == es;
      if m.slots[i0].cb == NULL {
        NoMatchEffects(Finish(m, i0, Answered, data, GUI_SUCCESS), s, i0 + 1, data, script);
      }
    }
  }

  /** A response that arrives completes its request: nothing is stranded by that. */
  lemma AnswerStrands(m: Mgr, took: Mgr, j: nat, h: nat, data: seq<byte>, k: nat)
    requires ValidMgr(took) && j < GUI_MAX_REQUESTS && took.slots[j].seqNum == h
    requires h in m.recs && Moving(m.recs[h]) && took.recs == SetStage(m.recs, h, Gone)
    ensures k in Stranded(Finish(took, j, Answered, data, GUI_SUCCESS).recs) <==> k in Stranded(m.recs)
  {
  }

  lemma LaterEffects(m: Mgr, i: nat, data: seq<byte>, script: Script)
    requires ValidMgr(m) && i < GUI_MAX_REQUESTS && !Loads(script)
    ensures var es := CallbackEffects(m, i, Answered, data, GUI_SUCCESS, script);
            es != [] && es[0] == Report(i, Answered, data, GUI_SUCCESS) && OnlyAsks(es[1..])
  {
    hide ScriptEffects;
    ScriptAsks(script);
    var es := CallbackEffects(m, i, Answered, data, GUI_SUCCESS, script);
    assert es[1..] == if m.slots[i].cb != NULL then ScriptEffects(script) else [];
  }

  /** Delivery of a response as one report and the calls its callback makes. */
  lemma ArrivalEffects(s: Sys, at: Timeval, fault: Fault, script: Script)
    requires Inv(s) && NoneLate(s.mgr.recs) && Enabled(s, DeliverStep(at, fault, script)) && !Loads(script)
    requires s.mgr.net.inbox != [] && IsResponse(s.mgr.net.inbox[0]) && Arrives(s.mgr.net.inbox[0], fault)
    ensures var m, h := s.mgr, s.mgr.net.inbox[0].seqNum; var took := Took(m, fault);
            && h in m.recs && Moving(m.recs[h]) && took.recs == SetStage(m.recs, h, Gone) && h in s.answers
            && var j, es := m.recs[h].slot, DeliverEffects(m, at, fault, script);
               && j < GUI_MAX_REQUESTS && took.slots[j].seqNum == h
               && es != [] && es[0] == Report(j, Answered, s.answers[h], GUI_SUCCESS) && OnlyAsks(es[1..])
  {
    var m, h := s.mgr, s.mgr.net.inbox[0].seqNum;
    assert ValidSys(s) && m.issued < TWO16;
    TakeResponse(m, s.hands, s.answers, m.net.shm);
    assert Moving(m.recs[h]);
    MovingWaits(s, h);
    DeliverCases(m, s.answers, at, fault, script);
    InvTableWf(m, s.hands, s.answers);
    WaitsInSlot(m, s.hands, s.answers, h);
    hide MgrInv, NoneLate, TableWf, Deliver, Took, DeliverEffects, MatchEffects, CallbackEffects, SetStage, RespMsgOk,
         LastSuccess, OnlyAsks;
    var took := Took(m, fault);
    OneMatchEffects(took, h, 0, m.recs[h].slot, s.answers[h], script);
    LaterEffects(took, m.recs[h].slot, s.answers[h], script);
  }

  lemma ArrivalStrands(s: Sys, at: Timeval, fault: Fault, script: Script, k: nat)
    requires Inv(s) && NoneLate(s.mgr.recs) && Enabled(s, DeliverStep(at, fault, script)) && !Loads(script)
    requires s.mgr.net.inbox != [] && IsResponse(s.mgr.net.inbox[0]) && Arrives(s.mgr.net.inbox[0], fault)
    requires Next(s, DeliverStep(at, fault, script)).mgr.issued < TWO16
    ensures var step := DeliverStep(at, fault, script);
            k in Stranded(Next(s, step).mgr.recs) <==> k in Stranded(s.mgr.recs) || k in StepStrands(s, step)
  {
    assert ValidSys(s);
    var step, m, h := DeliverStep(at, fault, script), s.mgr, s.mgr.net.inbox[0].seqNum;
    var took, es := Took(m, fault), DeliverEffects(m, at, fault, script);
    ArrivalEffects(s, at, fault, script);
    StartInv(s, step);
    NextTrace(s, step);
    var mid := Do(took, es[0]);
    hide MgrInv, NoneLate, Next, Took, DeliverEffects, Stranded, Moving, OnlyAsks, SetStage, Arrives, EffectOk;
    DoAllIssues(mid, es[1..]);
    EffectInv(took, s.hands, s.answers, es[0]);
    AnswerStrands(m, took, m.recs[h].slot, h, s.answers[h], k);
    AsksStrand(mid, s.hands, s.answers, es[1..], k);
  }

  /** A response that does not arrive has been taken all the same. */
  lemma LostResponseStrands(s: Sys, at: Timeval, fault: Fault, script: Script, k: nat)
    requires Inv(s) && NoneLate(s.mgr.recs) && Enabled(s, DeliverStep(at, fault, script)) && s.mgr.net.inbox != []
    requires IsResponse(s.mgr.net.inbox[0]) && !Arrives(s.mgr.net.inbox[0], fault)
    ensures var took, h := Took(s.mgr, fault), s.mgr.net.inbox[0].seqNum;
            && (k in Stranded(took.recs) <==> k in Stranded(s.mgr.recs) || k == h)
            && DeliverEffects(s.mgr, at, fault, script) == []
  {
    assert ValidSys(s);
    var m, h := s.mgr, s.mgr.net.inbox[0].seqNum;
    assert m.issued < TWO16;
    TakeResponse(m, s.hands, s.answers, m.net.shm);
    RepliedHasSegment(m, s.hands, s.answers);
    MovingWaits(s, h);
    DeliverCases(m, s.answers, at, fault, script);
    hide MgrInv, NoneLate, MatchEffects, Stranded, RespMsgOk, LastSuccess, Deliver, Took, DeliverEffects;
    MoveStrands(m.recs, Took(m, fault).recs, h, k);
  }

  /** Any other message. */
  lemma NonArrivalStrands(s: Sys, at: Timeval, fault: Fault, script: Script, k: nat)
    requires Inv(s) && NoneLate(s.mgr.recs) && Enabled(s, DeliverStep(at, fault, script)) && s.mgr.net.inbox != []
    requires !(IsResponse(s.mgr.net.inbox[0]) && Arrives(s.mgr.net.inbox[0], fault))
    ensures var step := DeliverStep(at, fault, script);
            && (k in Stranded(Start(s, step).mgr.recs) <==> k in Stranded(s.mgr.recs) || k in StartStrands(s, step))
            && OnlyAsks(Effects(s, step))
  {
    assert ValidSys(s);
    hide MgrInv, NoneLate, MatchEffects, Stranded, LongData, SetStage, Arrives;
    if IsResponse(s.mgr.net.inbox[0]) {
      hide Took, DeliverEffects, IsResponse;
      LostResponseStrands(s, at, fault, script, k);
    }
  }

  // ------------------------------------------------- steps

  lemma {:induction false} NoSweepEffects(m: Mgr, now: Timeval, i: nat, scripts: seq<Script>)
    requires ValidMgr(m) && i <= GUI_MAX_REQUESTS && |scripts| == GUI_MAX_REQUESTS
    requires forall j | i <= j < GUI_MAX_REQUESTS :: !Expired(m.slots[j], now)
    ensures SweepEffects(m, now, i, scripts) == []
    decreases GUI_MAX_REQUESTS - i
  {
    hide Expired;
    if i < GUI_MAX_REQUESTS {
      NoSweepEffects(m, now, i + 1, scripts);
    }
  }

  predicate AnswerArrives(s: Sys, step: Step) {
    step.DeliverStep? && s.mgr.net.inbox != [] && IsResponse(s.mgr.net.inbox[0])
    && Arrives(s.mgr.net.inbox[0], step.fault)
  }

  lemma StartStranded(s: Sys, step: Step, k: nat)
    requires Inv(s) && NoneLate(s.mgr.recs) && ValidSys(s) && Enabled(s, step) && QuietStep(s, step)
    requires !AnswerArrives(s, step)
    ensures k in Stranded(Start(s, step).mgr.recs) <==> k in Stranded(s.mgr.recs) || k in StartStrands(s, step)
    ensures OnlyAsks(Effects(s, step))
  {
    hide MgrInv, NoneLate, Stranded, Took, DeliverEffects, ScriptEffects, SweepEffects, Receive, Respond, Abandon,
         ScriptInRange, Expired, IsResponse, Arrives;
    match step
    case User(script) => ScriptAsks(script);
    case SweepStep(now, scripts) => NoSweepEffects(s.mgr, now, 0, scripts);
    case DeliverStep(at, fault, script) =>
      if s.mgr.net.inbox != [] {
        NonArrivalStrands(s, at, fault, script, k);
      }
    case ReceiveStep(t, capacity, fault) => ReceiveStrands(s, t, capacity, fault, k);
    case RespondStep(t, isNull, bytes, fault) => RespondStrands(s, t, isNull, bytes, fault, k);
    case AbandonStep(t) => AbandonStrands(s, t, k);
    case ConsoleStep(id, bytes) =>
  }

  /** After a step without timeouts and window changes, the requests stranded before and
      those the step strands are stranded, and no others. */
  lemma NextStrands(s: Sys, step: Step, k: nat)
    requires Inv(s) && NoneLate(s.mgr.recs) && ValidSys(s) && Enabled(s, step) && QuietStep(s, step)
    requires Next(s, step).mgr.issued < TWO16
    ensures k in Stranded(Next(s, step).mgr.recs) <==> k in Stranded(s.mgr.recs) || k in StepStrands(s, step)
  {
    hide MgrInv, NoneLate, Stranded, Start, Next, Effects, Lawful, StartStrands, EffectsStrand, OnlyAsks, Expired;
    if AnswerArrives(s, step) {
      ArrivalStrands(s, step.at, step.fault, step.script, k);
    } else {
      var s' := Start(s, step);
      StartInv(s, step);
      StartStranded(s, step, k);
      NextTrace(s, step);
      AsksStrand(s'.mgr, s'.hands, s'.answers, Effects(s, step), k);
    }
  }

  // ------------------------------------------------- over whole runs

  ghost predicate StrandedBefore(states: seq<Sys>, steps: seq<Step>, n: nat, k: nat)
    requires IsRun(states, steps) && n < |states|
  {
    exists i :: 0 <= i < n && k in StepStrands(states[i], steps[i])
  }

  /** In a run without timeouts and window changes the stranded requests are those that
      some step has stranded. */
  lemma {:induction false} RunStrands(states: seq<Sys>, steps: seq<Step>, n: nat, k: nat)
    requires QuietRun(states, steps) && n < |states| && states[n].mgr.issued < TWO16
    ensures k in Stranded(states[n].mgr.recs) <==> StrandedBefore(states, steps, n, k)
  {
    hide Inv, Next, Enabled, Stranded, StepStrands, QuietStep, NoneLate;
    if n == 0 {
      NothingStranded(k);
    } else {
      NextIssues(states[n - 1], steps[n - 1]);
      RunInv(states, steps, n - 1);
      RunNotLate(states, steps, n - 1);
      RunStrands(states, steps, n - 1, k);
      NextStrands(states[n - 1], steps[n - 1], k);
    }
  }

  lemma NothingStranded(k: nat)
    ensures k !in Stranded(Init().mgr.recs)
  {
  }

  /** While nothing times out and no window is loaded, the used slots are exactly what is
      in flight if and only if no step so far has stranded a request. */
  lemma LoadIsOccupied(states: seq<Sys>, steps: seq<Step>, n: nat)
    requires QuietRun(states, steps) && n < |states| && states[n].mgr.issued < TWO16
    ensures var s := states[n];
            && ValidSys(s)
            && (Load(s) == Occupied(s.mgr) <==> forall i | 0 <= i < n :: StepStrands(states[i], steps[i]) == {})
  {
    hide Stranded, StepStrands, Load, Occupied, Enabled, Next, QuietStep;
    QueueBound(states, steps, n, 2);
    var stranded := Stranded(states[n].mgr.recs);
    if i :| 0 <= i < n && StepStrands(states[i], steps[i]) != {} {
      var k :| k in StepStrands(states[i], steps[i]);
      RunStrands(states, steps, n, k);
    } else if stranded != {} {
      var k :| k in stranded;
      RunStrands(states, steps, n, k);
    }
  }
}
