/** How full the queues can get: slots and messages counted against each other. */
module Occupancy {
  import opened Base
  import opened Deadline
  import opened Net
  import opened Pending
  import opened Protocol
  import opened ProtocolRuns
  import opened Theorems
  import opened Segments
  import opened Scripts
  import opened Sweeps
  import opened Outcomes

  // ------------------------------------------------- counting

  /** Used slots among the first n. */
  function Used(slots: seq<Slot>, n: nat): nat
    requires n <= |slots|
  {
    if n == 0 then 0 else Used(slots, n - 1) + (if slots[n - 1] == CLEARED then 0 else 1)
  }

  /** Requests queued for tasks below n; tasks start at 2. */
  function Queued(taskQ: seq<seq<Message>>, n: nat): nat
    requires n <= |taskQ|
  {
    if n <= 2 then 0 else Queued(taskQ, n - 1) + |taskQ[n - 1]|
  }

  /** Requests in the hands of tasks below n. */
  function Held(hands: Hands, n: nat): nat
    requires n <= |hands|
  {
    if n <= 2 then 0 else Held(hands, n - 1) + (if hands[n - 1].Some? then 1 else 0)
  }

  /** Responses among the first n messages of the inbox. */
  function Replies(inbox: seq<Message>, n: nat): nat
    requires n <= |inbox|
  {
    if n == 0 then 0 else Replies(inbox, n - 1) + (if IsResponse(inbox[n - 1]) then 1 else 0)
  }

  function Occupied(m: Mgr): nat
    requires ValidMgr(m)
  {
    Used(m.slots, GUI_MAX_REQUESTS)
  }

  /** Requests queued, requests in the tasks' hands and responses queued. */
  function Load(s: Sys): nat
    requires ValidSys(s)
  {
    Queued(s.mgr.net.taskQ, TSK_NUM + 1) + Held(s.hands, TSK_NUM + 1) + Replies(s.mgr.net.inbox, |s.mgr.net.inbox|)
  }

  lemma {:induction false} UsedBound(slots: seq<Slot>, n: nat)
    requires n <= |slots|
    ensures Used(slots, n) <= n
  {
    if n > 0 {
      UsedBound(slots, n - 1);
    }
  }

  lemma {:induction false} QueuedBound(taskQ: seq<seq<Message>>, n: nat, t: nat)
    requires n <= |taskQ| && 2 <= t < n
    ensures |taskQ[t]| <= Queued(taskQ, n)
  {
    if t < n - 1 {
      QueuedBound(taskQ, n - 1, t);
    }
  }

  // ------------------------------------------------- the requests behind the counts

  function Waiting(recs: Recs): set<nat> {
    set s | s in recs && recs[s].status.Waiting?
  }

  predicate Moving(r: Rec) {
    r.stage.Queued? || r.stage.InHand? || r.stage.Replied?
  }

  function InFlight(recs: Recs): set<nat> {
    set s | s in recs && Moving(recs[s])
  }

  /** Waiting, but nothing is in flight any more that could complete them. */
  function Stranded(recs: Recs): set<nat> {
    set s | s in recs && recs[s].status.Waiting? && (recs[s].stage.Lost? || recs[s].stage.Gone?)
  }

  /** Still in flight, but timed out or dropped. */
  function Overdue(recs: Recs): set<nat> {
    set s | s in recs && Moving(recs[s]) && !recs[s].status.Waiting?
  }

  // Used slots are waiting requests.

  function WaitingBelow(recs: Recs, n: nat): set<nat> {
    set s | s in recs && recs[s].status.Waiting? && recs[s].slot < n
  }

  /** A used slot has one waiting request, a free one none. */
  lemma SlotHolds(m: Mgr, hands: Hands, answers: Answers, j: nat)
    requires ValidMgr(m) && MgrInv(m, hands, answers) && j < GUI_MAX_REQUESTS
    ensures forall s | s in m.recs && m.recs[s].status.Waiting? && m.recs[s].slot == j ::
              m.slots[j] != CLEARED && s == m.slots[j].seqNum
    ensures m.slots[j] != CLEARED ==>
              var s := m.slots[j].seqNum; s in m.recs && m.recs[s].status.Waiting? && m.recs[s].slot == j
  {
    SlotOfMgr(m, hands, answers, j);
    hide TableOk, RankOk, StatusOk, AnswersOk, QueuesOk, InboxOk, PlacesOk, HandsOk, ShmOk, LogOk;
  }

  lemma WaitingStep(m: Mgr, hands: Hands, answers: Answers, j: nat)
    requires ValidMgr(m) && MgrInv(m, hands, answers) && j < GUI_MAX_REQUESTS
    ensures |WaitingBelow(m.recs, j + 1)| == |WaitingBelow(m.recs, j)| + (if m.slots[j] == CLEARED then 0 else 1)
  {
    SlotHolds(m, hands, answers, j);
    hide MgrInv;
    var before, after, s := WaitingBelow(m.recs, j), WaitingBelow(m.recs, j + 1), m.slots[j].seqNum;
    if m.slots[j] == CLEARED {
      assert after == before;
    } else {
      assert after == before + {s} && s !in before;
      OneMore(before, after, s);
    }
  }

  lemma {:induction false} UsedIsWaiting(m: Mgr, hands: Hands, answers: Answers, n: nat)
    requires ValidMgr(m) && MgrInv(m, hands, answers) && n <= GUI_MAX_REQUESTS
    ensures Used(m.slots, n) == |WaitingBelow(m.recs, n)|
  {
    if n == 0 {
      assert WaitingBelow(m.recs, 0) == {};
    } else {
      hide MgrInv, WaitingBelow;
      UsedIsWaiting(m, hands, answers, n - 1);
      WaitingStep(m, hands, answers, n - 1);
    }
  }

  /** Every used slot is one waiting request. */
  lemma OccupiedIsWaiting(m: Mgr, hands: Hands, answers: Answers)
    requires ValidMgr(m) && MgrInv(m, hands, answers)
    ensures Occupied(m) == |Waiting(m.recs)|
  {
    UsedIsWaiting(m, hands, answers, GUI_MAX_REQUESTS);
    assert WaitingBelow(m.recs, GUI_MAX_REQUESTS) == Waiting(m.recs) by {
      hide TableOk, RankOk, StatusOk, AnswersOk, QueuesOk, InboxOk, PlacesOk, HandsOk, ShmOk, LogOk;
    }
  }

  // Messages and handles are requests in flight.

  function Numbers(q: seq<Message>, n: nat): set<nat>
    requires n <= |q|
  {
    set i | 0 <= i < n :: q[i].seqNum
  }

  lemma {:induction false} DistinctNumbers(q: seq<Message>, n: nat)
    requires n <= |q| && forall i, j | 0 <= i < j < n :: q[i].seqNum != q[j].seqNum
    ensures |Numbers(q, n)| == n
  {
    if n > 0 {
      DistinctNumbers(q, n - 1);
      assert Numbers(q, n) == Numbers(q, n - 1) + {q[n - 1].seqNum};
      OneMore(Numbers(q, n - 1), Numbers(q, n), q[n - 1].seqNum);
    }
  }

  function StageBelow(recs: Recs, stage: Stage, n: nat): set<nat> {
    set s | s in recs && recs[s].stage == stage && TaskOf(recs[s].id) < n
  }

  function AtTask(recs: Recs, stage: Stage, t: nat): set<nat> {
    set s | s in recs && recs[s].stage == stage && TaskOf(recs[s].id) == t
  }

  lemma TaskStep(recs: Recs, stage: Stage, t: nat)
    ensures |StageBelow(recs, stage, t + 1)| == |StageBelow(recs, stage, t)| + |AtTask(recs, stage, t)|
  {
    assert StageBelow(recs, stage, t + 1) == StageBelow(recs, stage, t) + AtTask(recs, stage, t);
    assert StageBelow(recs, stage, t) !! AtTask(recs, stage, t);
  }

  lemma QueueIsStage(m: Mgr, hands: Hands, answers: Answers, t: nat)
    requires ValidMgr(m) && MgrInv(m, hands, answers) && IsTask(t)
    ensures |AtTask(m.recs, Stage.Queued, t)| == |m.net.taskQ[t]|
  {
    hide TableOk, RecsOk, RankOk, StatusOk, AnswersOk, InboxOk, HandsOk, ShmOk, LogOk;
    var q := m.net.taskQ[t];
    assert QueueOk(q, t, m.recs, m.net.shm);
    DistinctNumbers(q, |q|);
    forall s | s in AtTask(m.recs, Stage.Queued, t) ensures s in Numbers(q, |q|) {
      assert InQueue(q, s);
    }
    forall s | s in Numbers(q, |q|) ensures s in AtTask(m.recs, Stage.Queued, t) {
      var i :| 0 <= i < |q| && q[i].seqNum == s;
      assert ReqMsgOk(q[i], t, m.recs, m.net.shm);
    }
    assert AtTask(m.recs, Stage.Queued, t) == Numbers(q, |q|);
  }

  lemma HandIsStage(m: Mgr, hands: Hands, answers: Answers, t: nat)
    requires ValidMgr(m) && MgrInv(m, hands, answers) && IsTask(t)
    ensures |hands| == TSK_NUM + 1
    ensures |AtTask(m.recs, InHand, t)| == if hands[t].Some? then 1 else 0
  {
    hide TableOk, RecsOk, RankOk, StatusOk, AnswersOk, QueuesOk, InboxOk, ShmOk, LogOk;
    if hands[t].Some? {
      assert AtTask(m.recs, InHand, t) == {hands[t].value};
    } else {
      assert AtTask(m.recs, InHand, t) == {};
    }
  }

  /** Only tasks have requests queued or in hand. */
  lemma NoneBelowTasks(m: Mgr, hands: Hands, answers: Answers, n: nat)
    requires ValidMgr(m) && MgrInv(m, hands, answers) && n <= 2
    ensures StageBelow(m.recs, Stage.Queued, n) == {} && StageBelow(m.recs, InHand, n) == {}
  {
    hide TableOk, RecsOk, RankOk, StatusOk, AnswersOk, QueuesOk, InboxOk, HandsOk, ShmOk, LogOk;
  }

  lemma {:induction false} TasksAreStages(m: Mgr, hands: Hands, answers: Answers, n: nat)
    requires ValidMgr(m) && MgrInv(m, hands, answers) && n <= TSK_NUM + 1 && |hands| == TSK_NUM + 1
    ensures Queued(m.net.taskQ, n) == |StageBelow(m.recs, Stage.Queued, n)|
    ensures Held(hands, n) == |StageBelow(m.recs, InHand, n)|
  {
    hide MgrInv, StageBelow, AtTask;
    if n <= 2 {
      NoneBelowTasks(m, hands, answers, n);
    } else {
      TasksAreStages(m, hands, answers, n - 1);
      QueueIsStage(m, hands, answers, n - 1);
      HandIsStage(m, hands, answers, n - 1);
      TaskStep(m.recs, Stage.Queued, n - 1);
      TaskStep(m.recs, InHand, n - 1);
    }
  }

  function Replied(inbox: seq<Message>, n: nat): set<nat>
    requires n <= |inbox|
  {
    set i | 0 <= i < n && IsResponse(inbox[i]) :: inbox[i].seqNum
  }

  lemma RepliedStep(inbox: seq<Message>, n: nat)
    requires n < |inbox| && forall i, j | 0 <= i < j < |inbox| && IsResponse(inbox[i]) && IsResponse(inbox[j]) ::
                              inbox[i].seqNum != inbox[j].seqNum
    ensures var before, after, s := Replied(inbox, n), Replied(inbox, n + 1), inbox[n].seqNum;
            if IsResponse(inbox[n]) then after == before + {s} && s !in before else after == before
  {
    hide IsResponse;
  }

  lemma {:induction false} RepliesCount(inbox: seq<Message>, n: nat)
    requires n <= |inbox| && forall i, j | 0 <= i < j < |inbox| && IsResponse(inbox[i]) && IsResponse(inbox[j]) ::
                               inbox[i].seqNum != inbox[j].seqNum
    ensures Replies(inbox, n) == |Replied(inbox, n)|
  {
    hide IsResponse, Replied;
    if n == 0 {
      NoneReplied(inbox);
    } else {
      RepliesCount(inbox, n - 1);
      RepliedStep(inbox, n - 1);
      if IsResponse(inbox[n - 1]) {
        OneMore(Replied(inbox, n - 1), Replied(inbox, n), inbox[n - 1].seqNum);
      }
    }
  }

  lemma NoneReplied(inbox: seq<Message>)
    ensures Replied(inbox, 0) == {}
  {
  }

  function AtStage(recs: Recs, stage: Stage): set<nat> {
    set s | s in recs && recs[s].stage == stage
  }

  lemma RepliesAreStage(m: Mgr, hands: Hands, answers: Answers)
    requires ValidMgr(m) && MgrInv(m, hands, answers)
    ensures Replies(m.net.inbox, |m.net.inbox|) == |AtStage(m.recs, Stage.Replied)|
  {
    hide TableOk, RecsOk, RankOk, StatusOk, AnswersOk, QueuesOk, HandsOk, ShmOk, LogOk;
    var q := m.net.inbox;
    forall i, j | 0 <= i < j < |q| && IsResponse(q[i]) && IsResponse(q[j]) ensures q[i].seqNum != q[j].seqNum {
      assert RespMsgOk(q[i], m.recs, answers, m.net.shm);
    }
    forall s | s in Replied(q, |q|) ensures s in AtStage(m.recs, Stage.Replied) {
      var i :| 0 <= i < |q| && IsResponse(q[i]) && q[i].seqNum == s;
      assert RespMsgOk(q[i], m.recs, answers, m.net.shm);
    }
    forall s | s in AtStage(m.recs, Stage.Replied) ensures s in Replied(q, |q|) {
      assert InReplies(q, s);
    }
    assert AtStage(m.recs, Stage.Replied) == Replied(q, |q|);
    RepliesCount(q, |q|);
  }

  lemma StagesJoin(recs: Recs)
    ensures |InFlight(recs)| ==
            |AtStage(recs, Stage.Queued)| + |AtStage(recs, InHand)| + |AtStage(recs, Stage.Replied)|
  {
    var a, b, c := AtStage(recs, Stage.Queued), AtStage(recs, InHand), AtStage(recs, Stage.Replied);
    assert InFlight(recs) == a + b + c;
    assert |a + b| == |a| + |b| && (a + b) !! c;
  }

  /** Every message to or from a task and every handle in a task's hands is one request
      in flight. */
  lemma LoadIsInFlight(s: Sys)
    requires Inv(s)
    ensures ValidSys(s) && Load(s) == |InFlight(s.mgr.recs)|
  {
    SysIsValid(s);
    hide TableOk, RankOk, StatusOk, AnswersOk, QueuesOk, InboxOk, PlacesOk, HandsOk, ShmOk, LogOk;
    var recs := s.mgr.recs;
    assert StageBelow(recs, Stage.Queued, TSK_NUM + 1) == AtStage(recs, Stage.Queued);
    assert StageBelow(recs, InHand, TSK_NUM + 1) == AtStage(recs, InHand);
    hide MgrInv, StageBelow, AtStage, InFlight;
    TasksAreStages(s.mgr, s.hands, s.answers, TSK_NUM + 1);
    RepliesAreStage(s.mgr, s.hands, s.answers);
    StagesJoin(recs);
  }

  // ------------------------------------------------- the account

  lemma SetAccount(recs: Recs)
    ensures |Waiting(recs)| + |Overdue(recs)| == |InFlight(recs)| + |Stranded(recs)|
  {
    var w, f := Waiting(recs), InFlight(recs);
    assert w == (w * f) + Stranded(recs) && (w * f) !! Stranded(recs);
    assert f == (w * f) + Overdue(recs) && (w * f) !! Overdue(recs);
  }

  /** In every state of every run: used slots and overdue requests together are what is
      in flight and the stranded requests together. */
  lemma SlotAccounting(states: seq<Sys>, steps: seq<Step>, k: nat)
    requires IsRun(states, steps) && k < |states| && states[k].mgr.issued < TWO16
    ensures var s := states[k];
            && ValidSys(s)
            && Occupied(s.mgr) + |Overdue(s.mgr.recs)| == Load(s) + |Stranded(s.mgr.recs)|
            && Occupied(s.mgr) <= GUI_MAX_REQUESTS
  {
    RunInv(states, steps, k);
    hide IsRun, MgrInv, Occupied, Load, Waiting, InFlight, Overdue, Stranded;
    var s := states[k];
    LoadIsInFlight(s);
    OccupiedIsWaiting(s.mgr, s.hands, s.answers);
    SetAccount(s.mgr.recs);
    OccupiedBound(s.mgr);
  }

  lemma OccupiedBound(m: Mgr)
    requires ValidMgr(m)
    ensures Occupied(m) <= GUI_MAX_REQUESTS
  {
    UsedBound(m.slots, GUI_MAX_REQUESTS);
  }

  // ------------------------------------------------- quiet runs

  /** Nothing times out and no window is loaded. */
  predicate QuietStep(s: Sys, step: Step)
    requires ValidSys(s) && Enabled(s, step)
  {
    match step
    case User(script) => !Loads(script)
    case DeliverStep(_, _, script) => !Loads(script)
    case SweepStep(now, _) => forall i | 0 <= i < GUI_MAX_REQUESTS :: !Expired(s.mgr.slots[i], now)
    case _ => true
  }

  ghost predicate QuietRun(states: seq<Sys>, steps: seq<Step>) {
    && IsRun(states, steps)
    && forall i | 0 <= i < |steps| :: QuietStep(states[i], steps[i])
  }

  /** No request has timed out or been dropped. */
  ghost predicate NoneLate(recs: Recs) {
    forall s | s in recs :: recs[s].status.Waiting? || recs[s].status.Answered?
  }

  /** A sweep that finds nothing expired changes nothing. */
  lemma IdleSweep(s: Sys, step: Step)
    requires ValidSys(s) && Enabled(s, step) && QuietStep(s, step) && step.SweepStep?
    ensures Next(s, step) == s
  {
    hide Expired;
    SweepNothing(s.mgr, step.now, 0, step.scripts);
  }

  lemma QuietNext(states: seq<Sys>, steps: seq<Step>, i: nat, r: nat, expires: Timeval)
    requires QuietRun(states, steps)
    ensures !TimesOut(states, steps, i, r, expires) && !Drops(states, steps, i, r)
  {
    if i < |steps| && steps[i].SweepStep? {
      IdleSweep(states[i], steps[i]);
    } else if i < |steps| {
      assert QuietStep(states[i], steps[i]);
      hide Loads, Enabled, Next, ValidSys, HasStatus, IsTimeOver;
    }
  }

  lemma RunNotLate(states: seq<Sys>, steps: seq<Step>, k: nat)
    requires QuietRun(states, steps) && k < |states| && states[k].mgr.issued < TWO16
    ensures NoneLate(states[k].mgr.recs)
  {
    hide TimesOut, Drops, QuietStep, Next, Enabled;
    var recs := states[k].mgr.recs;
    forall r | r in recs ensures !recs[r].status.TimedOut? && !recs[r].status.Dropped? {
      RunExplained(states, steps, k, r);
      forall i: nat ensures !TimesOut(states, steps, i, r, recs[r].expires) && !Drops(states, steps, i, r) {
        QuietNext(states, steps, i, r, recs[r].expires);
      }
    }
  }

  /** While nothing times out and no window is loaded, used slots are what is in flight
      and the stranded requests together.  So they equal what is in flight if and only
      if no request is stranded; in any case at most 16 are in flight, no task's queue
      comes near its capacity, and a send to a task never blocks. */
  lemma QueueBound(states: seq<Sys>, steps: seq<Step>, k: nat, t: nat)
    requires QuietRun(states, steps) && k < |states| && states[k].mgr.issued < TWO16 && IsTask(t)
    ensures var s := states[k];
            && ValidSys(s)
            && Occupied(s.mgr) == Load(s) + |Stranded(s.mgr.recs)|
            && (Load(s) == Occupied(s.mgr) <==> Stranded(s.mgr.recs) == {})
            && Load(s) <= GUI_MAX_REQUESTS
            && |s.mgr.net.taskQ[t]| <= 16 < NUM_MAX_MESSAGES == 32
  {
    RunNotLate(states, steps, k);
    SlotAccounting(states, steps, k);
    RunInv(states, steps, k);
    var s := states[k];
    assert Overdue(s.mgr.recs) == {} by {
      hide TableOk, RecsOk, RankOk, AnswersOk, QueuesOk, InboxOk, PlacesOk, HandsOk, ShmOk, LogOk;
    }
    hide Inv, QuietRun, Occupied, Stranded, Queued, Held, Replies, Overdue;
    QueuedBound(s.mgr.net.taskQ, TSK_NUM + 1, t);
  }
}
