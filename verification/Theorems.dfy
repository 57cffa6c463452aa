/** What every run of the manager and its tasks guarantees while at most 65535
    sequence numbers have been issued. */
module Theorems {
  import opened Base
  import opened Net
  import opened Pending
  import opened Protocol
  import opened ProtocolSteps
  import opened ProtocolTasks
  import opened ProtocolRuns
  import opened Trace

  /** The invariant holds in every state of every run. */
  lemma {:induction false} RunInv(states: seq<Sys>, steps: seq<Step>, k: nat)
    requires IsRun(states, steps) && k < |states| && states[k].mgr.issued < TWO16
    ensures Inv(states[k])
  {
    hide Inv, Next, Enabled;
    if k == 0 {
      InitInv();
    } else {
      NextIssues(states[k - 1], steps[k - 1]);
      RunInv(states, steps, k - 1);
      NextInv(states[k - 1], steps[k - 1]);
    }
  }

  // ------------------------------------------------- exactly once

  ghost predicate OccupiesSlot(slots: seq<Slot>, s: nat) {
    exists i :: 0 <= i < |slots| && slots[i].seqNum == s
  }

  /** Every accepted request is waiting (in a slot), answered, timed out or dropped by a
      window change; its callback, unless NULL, has run exactly once in the answered
      and timed-out cases and never in the others, with the matching outcome. */
  lemma ExactlyOnce(states: seq<Sys>, steps: seq<Step>, k: nat, s: nat)
    requires IsRun(states, steps) && k < |states| && states[k].mgr.issued < TWO16
    requires s in states[k].mgr.recs
    ensures var m := states[k].mgr; var r := m.recs[s];
            && (r.status.Waiting? <==> OccupiesSlot(m.slots, s))
            && Runs(m.log, s) == (if r.cb != NULL && (r.status.Answered? || r.status.TimedOut?) then 1 else 0)
            && forall j | 0 <= j < |m.log| && m.log[j].seqNum == s ::
                 && m.log[j].cb == r.cb
                 && (r.status.Answered? ==> m.log[j].err == GUI_SUCCESS)
                 && (r.status.TimedOut? ==> m.log[j].err == GUI_ERR_RESP_TIMEOUT && m.log[j].data == [])
  {
    RunInv(states, steps, k);
    hide IsRun, RankOk, StatusOk, AnswersOk, QueuesOk, InboxOk, PlacesOk, HandsOk, ShmOk;
    var m := states[k].mgr;
    assert s >= 1;
    if OccupiesSlot(m.slots, s) {
      var i :| 0 <= i < |m.slots| && m.slots[i].seqNum == s;
      assert SlotOk(m.slots[i], i, m.issued, m.recs);
    }
    forall j | 0 <= j < |m.log| ensures EventOk(m.log[j], m.recs, states[k].answers) {
    }
  }

  /** What is recorded is never unsaid: requests stay as issued, completion is final,
      the log only grows and a handle's answer never changes. */
  ghost predicate Grows(m: Mgr, m': Mgr) {
    && m.issued <= m'.issued && m.log <= m'.log
    && forall s | s in m.recs :: s in m'.recs && SameRequest(m.recs[s], m'.recs[s])
  }

  predicate SameRequest(r: Rec, q: Rec) {
    && q.slot == r.slot && q.id == r.id && q.cb == r.cb && q.bytes == r.bytes && q.expires == r.expires
    && (!r.status.Waiting? ==> q.status == r.status)
  }

  lemma GrowsTrans(a: Mgr, b: Mgr, c: Mgr)
    requires Grows(a, b) && Grows(b, c)
    ensures Grows(a, c)
  {
  }

  lemma FreshSeqNum(m: Mgr, hands: Hands, answers: Answers)
    requires ValidMgr(m) && MgrInv(m, hands, answers)
    ensures NextSeqNum(m.issued) == m.issued + 1 && NextSeqNum(m.issued) !in m.recs
  {
  }

  lemma RequestGrows(m: Mgr, hands: Hands, answers: Answers, c: Call)
    requires ValidMgr(m) && MgrInv(m, hands, answers)
    ensures Grows(m, Request(m, c).0)
  {
    assert ValidMgr(m);
    FreshSeqNum(m, hands, answers);
    hide MgrInv, SendRequest, FirstFree, NextSeqNum;
  }

  lemma GrowsRefl(m: Mgr)
    ensures Grows(m, m)
  {
  }

  lemma ClearGrows(m: Mgr)
    requires ValidMgr(m)
    ensures Grows(m, ClearRequests(m))
  {
  }

  lemma FinishGrows(m: Mgr, hands: Hands, answers: Answers, i: nat, status: Status, data: seq<byte>, err: nat)
    requires ValidMgr(m) && MgrInv(m, hands, answers) && MayFinish(m, answers, i, status, data, err)
    ensures Grows(m, Finish(m, i, status, data, err))
  {
    SlotOfMgr(m, hands, answers, i);
    hide MgrInv;
  }

  lemma EffectGrows(m: Mgr, hands: Hands, answers: Answers, e: Effect)
    requires ValidMgr(m) && MgrInv(m, hands, answers) && EffectOk(m, answers, e)
    ensures Grows(m, Do(m, e))
  {
    hide MgrInv, Request, ClearRequests, Finish, Grows;
    match e
    case Ask(c) => RequestGrows(m, hands, answers, c);
    case Wipe => ClearGrows(m);
    case Report(i, status, data, err) =>
      GrowsRefl(m);
      FinishGrows(m, hands, answers, i, status, data, err);
  }

  lemma {:induction false} EffectsGrow(m: Mgr, hands: Hands, answers: Answers, es: seq<Effect>)
    requires ValidMgr(m) && MgrInv(m, hands, answers) && Lawful(m, answers, es) && DoAll(m, es).issued < TWO16
    ensures Grows(m, DoAll(m, es))
    decreases |es|
  {
    hide MgrInv, Do, EffectOk, Grows;
    GrowsRefl(m);
    if es != [] {
      var next := Do(m, es[0]);
      DoAllIssues(next, es[1..]);
      EffectInv(m, hands, answers, es[0]);
      EffectGrows(m, hands, answers, es[0]);
      EffectsGrow(next, hands, answers, es[1..]);
      GrowsTrans(m, next, DoAll(m, es));
    }
  }

  /** The transport part of a step moves at most one request to another stage. */
  lemma StartStage(s: Sys, step: Step)
    requires ValidSys(s) && Enabled(s, step)
    ensures var recs := Start(s, step).mgr.recs;
            recs == s.mgr.recs || exists h, stage :: recs == SetStage(s.mgr.recs, h, stage)
  {
    hide WaitForRequest, Response, LongData, SetStage, RunScript, Sweep, Deliver;
    var m := s.mgr;
    match step
    case DeliverStep(_, fault, _) =>
      if m.net.inbox != [] {
        assert Took(m, fault).recs == SetStage(m.recs, m.net.inbox[0].seqNum, Gone) || Took(m, fault).recs == m.recs;
      }
    case ReceiveStep(t, capacity, fault) =>
      var h := m.net.taskQ[t][0].seqNum;
      var recs := Receive(s, t, capacity, fault).0.mgr.recs;
      assert recs == SetStage(m.recs, h, InHand) || recs == SetStage(m.recs, h, Lost);
    case RespondStep(t, isNull, bytes, fault) =>
      var h := s.hands[t].value;
      var recs := Respond(s, t, isNull, bytes, fault).0.mgr.recs;
      assert recs == m.recs || recs == SetStage(m.recs, h, Replied) || recs == SetStage(m.recs, h, Lost);
    case AbandonStep(t) =>
      assert Abandon(s, t).mgr.recs == SetStage(m.recs, s.hands[t].value, Lost);
    case _ =>
      assert Start(s, step).mgr.recs == m.recs;
  }

  lemma StageGrows(m: Mgr, m': Mgr, h: nat, stage: Stage)
    requires m'.recs == SetStage(m.recs, h, stage) || m'.recs == m.recs
    requires m'.issued == m.issued && m'.log == m.log
    ensures Grows(m, m')
  {
  }

  /** No step rewrites history. */
  lemma NextGrows(s: Sys, step: Step)
    requires Inv(s) && Enabled(s, step) && Next(s, step).mgr.issued < TWO16
    ensures Grows(s.mgr, Next(s, step).mgr)
  {
    assert ValidSys(s);
    hide MgrInv, Grows, Start, Next, Effects, Lawful, SetStage;
    var s' := Start(s, step);
    StartInv(s, step);
    StartIssues(s, step);
    StartStage(s, step);
    if s'.mgr.recs == s.mgr.recs {
      StageGrows(s.mgr, s'.mgr, 0, Lost);
    } else {
      var h, stage :| s'.mgr.recs == SetStage(s.mgr.recs, h, stage);
      StageGrows(s.mgr, s'.mgr, h, stage);
    }
    NextTrace(s, step);
    EffectsGrow(s'.mgr, s'.hands, s'.answers, Effects(s, step));
    GrowsTrans(s.mgr, s'.mgr, Next(s, step).mgr);
  }

  /** A handle is answered at most once. */
  lemma AnswersFixed(s: Sys, step: Step)
    requires Inv(s) && Enabled(s, step)
    ensures forall h | h in s.answers :: h in Next(s, step).answers && Next(s, step).answers[h] == s.answers[h]
  {
    assert ValidSys(s);
    NextAnswers(s, step);
    if step.RespondStep? {
      HandHolds(s, step.task);
    }
    hide MgrInv, Next;
  }

  lemma {:induction false} RunGrows(states: seq<Sys>, steps: seq<Step>, j: nat, k: nat)
    requires IsRun(states, steps) && j <= k < |states| && states[k].mgr.issued < TWO16
    ensures Grows(states[j].mgr, states[k].mgr)
  {
    hide Inv, Next, Enabled, Grows;
    if j == k {
      GrowsRefl(states[j].mgr);
    } else {
      NextIssues(states[k - 1], steps[k - 1]);
      RunInv(states, steps, k - 1);
      RunGrows(states, steps, j, k - 1);
      NextGrows(states[k - 1], steps[k - 1]);
      GrowsTrans(states[j].mgr, states[k - 1].mgr, states[k].mgr);
    }
  }

  // ------------------------------------------------- the right bytes

  /** Step i is the successful Response call by which the task holding handle h answers
      it with `bytes`. */
  ghost predicate AnsweredAt(states: seq<Sys>, steps: seq<Step>, i: nat, h: nat, bytes: seq<byte>) {
    && i < |steps| && i + 1 < |states| && steps[i].RespondStep?
    && ValidSys(states[i]) && Enabled(states[i], steps[i])
    && states[i].hands[steps[i].task] == Some(h)
    && steps[i].bytes == bytes
    && Respond(states[i], steps[i].task, steps[i].isNull, bytes, steps[i].fault).1 == IPC_SUCCESS
  }

  /** Answers come only from Response calls. */
  lemma NextAnswers(s: Sys, step: Step)
    requires ValidSys(s) && Enabled(s, step)
    ensures Next(s, step).answers == s.answers
            || (&& step.RespondStep? && s.hands[step.task].Some?
                && Respond(s, step.task, step.isNull, step.bytes, step.fault).1 == IPC_SUCCESS
                && Next(s, step).answers == s.answers[s.hands[step.task].value := step.bytes])
  {
    hide RunScript, Deliver, Sweep, WaitForRequest, Response;
  }

  lemma {:induction false} AnswersWereGiven(states: seq<Sys>, steps: seq<Step>, k: nat, h: nat)
    requires IsRun(states, steps) && k < |states| && h in states[k].answers
    ensures exists i: nat :: i < k && AnsweredAt(states, steps, i, h, states[k].answers[h])
  {
    hide Next, Enabled;
    assert k > 0;
    NextAnswers(states[k - 1], steps[k - 1]);
    if AnsweredAt(states, steps, k - 1, h, states[k].answers[h]) {
    } else {
      AnswersWereGiven(states, steps, k - 1, h);
    }
  }

  /** A callback that runs with GUI_SUCCESS is the one registered with its request and
      gets exactly the bytes that the task the request was addressed to passed to
      Response for it, over either transport. */
  lemma RightBytes(states: seq<Sys>, steps: seq<Step>, k: nat, j: nat)
    requires IsRun(states, steps) && k < |states| && states[k].mgr.issued < TWO16
    requires j < |states[k].mgr.log| && states[k].mgr.log[j].err == GUI_SUCCESS
    ensures var e := states[k].mgr.log[j];
            && e.seqNum in states[k].mgr.recs && e.cb == states[k].mgr.recs[e.seqNum].cb
            && exists i: nat :: i < k && AnsweredAt(states, steps, i, e.seqNum, e.data)
                                && steps[i].task == states[k].mgr.recs[e.seqNum].id / 256
  {
    var e := states[k].mgr.log[j];
    RunInv(states, steps, k);
    assert EventOk(e, states[k].mgr.recs, states[k].answers) by {
      hide TableOk, RecsOk, RankOk, StatusOk, AnswersOk, QueuesOk, InboxOk, PlacesOk, HandsOk, ShmOk, IsRun;
    }
    hide Inv, IsRun, Enabled, Respond;
    AnswersWereGiven(states, steps, k, e.seqNum);
    var i: nat :| i < k && AnsweredAt(states, steps, i, e.seqNum, e.data);
    RunGrows(states, steps, i, k);
    RunInv(states, steps, i);
    assert IsTask(steps[i].task) by {
      assert Enabled(states[i], steps[i]);
      EnabledTask(states[i], steps[i]);
    }
    HandHolds(states[i], steps[i].task);
    assert SameRequest(states[i].mgr.recs[e.seqNum], states[k].mgr.recs[e.seqNum]);
  }

  lemma EnabledTask(s: Sys, step: Step)
    requires ValidSys(s) && Enabled(s, step) && step.RespondStep?
    ensures IsTask(step.task)
  {
  }

  /** A task that receives a request gets the identifier and the bytes given to
      Request under that sequence number, and it is the task the identifier names. */
  lemma TaskGetsRequest(states: seq<Sys>, steps: seq<Step>, k: nat)
    requires IsRun(states, steps) && k < |steps| && states[k].mgr.issued < TWO16
    requires steps[k].ReceiveStep?
    requires Enabled(states[k], steps[k])
    ensures var got := Receive(states[k], steps[k].task, steps[k].capacity, steps[k].fault).1;
            got.Received? ==>
              && got.handle in states[k].mgr.recs && got.id / 256 == steps[k].task
              && got.id == states[k].mgr.recs[got.handle].id && got.bytes == states[k].mgr.recs[got.handle].bytes
  {
    RunInv(states, steps, k);
    hide TableOk, RecsOk, RankOk, StatusOk, LogOk, InboxOk, PlacesOk, HandsOk, IsRun;
    var m, t := states[k].mgr, steps[k].task;
    HeadMessage(m, states[k].answers, t);
    WaitForRequestEffect(m.net.shm, m.net.taskQ[t][0], t, m.recs, steps[k].capacity, steps[k].fault);
  }

  /** Success callbacks of requests to one task run in the order the requests were made. */
  lemma CallbacksInOrder(states: seq<Sys>, steps: seq<Step>, k: nat, i: nat, j: nat)
    requires IsRun(states, steps) && k < |states| && states[k].mgr.issued < TWO16
    requires i < j < |states[k].mgr.log|
    requires states[k].mgr.log[i].err == GUI_SUCCESS && states[k].mgr.log[j].err == GUI_SUCCESS
    requires SameTask(states[k].mgr.recs, states[k].mgr.log[i].seqNum, states[k].mgr.log[j].seqNum)
    ensures states[k].mgr.log[i].seqNum < states[k].mgr.log[j].seqNum
  {
    RunInv(states, steps, k);
    hide IsRun, TableOk, RecsOk, RankOk, StatusOk, AnswersOk, QueuesOk, InboxOk, PlacesOk, HandsOk, ShmOk;
  }
}
