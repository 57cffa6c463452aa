/** The manager and its tasks as one step system, and the invariant every run keeps
    while no more than 65535 sequence numbers have been issued. */
module Protocol {
  import opened Base
  import opened Deadline
  import opened Net
  import opened Pending

  type Hands = seq<Option<nat>>

  type Answers = map<nat, seq<byte>>

  /** `hands[t]` is the handle task t has received and not yet answered; `answers`
      remembers what each handle was answered with. */
  datatype Sys = Sys(mgr: Mgr, hands: Hands, answers: Answers)

  datatype Step =
    | User(script: Script)                                            // timer, notify, key or touch callbacks
    | DeliverStep(at: Timeval, fault: Fault, script: Script)          // ProcessIpcMessages
    | SweepStep(now: Timeval, scripts: seq<Script>)                   // ProcessResponseTimeouts
    | ReceiveStep(task: nat, capacity: nat, fault: Fault)             // WaitForRequest
    | RespondStep(task: nat, isNull: bool, bytes: seq<byte>, fault: Fault) // Response
    | AbandonStep(task: nat)                                          // ProcessRequest returns unanswered
    | ConsoleStep(id: nat, bytes: seq<byte>)                          // FakeRequest

  predicate ValidSys(s: Sys) {
    ValidMgr(s.mgr) && |s.hands| == TSK_NUM + 1
  }

  predicate IsTask(t: nat) {
    2 <= t <= TSK_NUM
  }

  predicate CallInRange(c: Call) {
    c.id < TWO16 && |c.bytes| + HDR_SIZE < TWO32
  }

  predicate ScriptInRange(script: Script) {
    forall k | 0 <= k < |script| && script[k].DoRequest? :: CallInRange(script[k].call)
  }

  /** Argument ranges of the C types, and the order each task's main loop imposes:
      it waits only with empty hands and answers only what it holds. */
  predicate Enabled(s: Sys, step: Step)
    requires ValidSys(s)
  {
    match step
    case User(script) => ScriptInRange(script)
    case DeliverStep(_, _, script) => ScriptInRange(script)
    case SweepStep(_, scripts) =>
      |scripts| == GUI_MAX_REQUESTS && forall i | 0 <= i < GUI_MAX_REQUESTS :: ScriptInRange(scripts[i])
    case ReceiveStep(t, _, _) => IsTask(t) && s.hands[t].None? && s.mgr.net.taskQ[t] != []
    case RespondStep(t, _, bytes, _) => IsTask(t) && s.hands[t].Some? && |bytes| + HDR_SIZE < TWO32
    case AbandonStep(t) => IsTask(t) && s.hands[t].Some?
    case ConsoleStep(id, bytes) => id < TWO16 && Fits(bytes)
  }

  function Receive(s: Sys, t: nat, capacity: nat, fault: Fault): (r: (Sys, Received))
    requires ValidSys(s) && IsTask(t) && s.mgr.net.taskQ[t] != []
    ensures ValidSys(r.0)
  {
    var net := s.mgr.net;
    var msg := net.taskQ[t][0];
    var (shm, got) := WaitForRequest(net.shm, msg, capacity, fault);
    var popped := Net(net.inbox, net.taskQ[t := net.taskQ[t][1..]], shm);
    match got
    case Received(h, _, _) =>
      (Sys(s.mgr.(net := popped, recs := SetStage(s.mgr.recs, msg.seqNum, InHand)),
           s.hands[t := Some(h)], s.answers), got)
    case Failed(_) =>
      (s.(mgr := s.mgr.(net := popped, recs := SetStage(s.mgr.recs, msg.seqNum, Lost))), got)
  }

  /** A refused call (no payload) leaves the handle with the task; any other outcome
      ends its life there. */
  function Respond(s: Sys, t: nat, isNull: bool, bytes: seq<byte>, fault: Fault): (r: (Sys, nat))
    requires ValidSys(s) && IsTask(t) && s.hands[t].Some?
    ensures ValidSys(r.0)
  {
    var h := s.hands[t].value;
    var (sent, err) := Response(s.mgr.net, h, isNull, bytes, fault);
    if err == IPC_ERR_PARAMETER then (s, err)
    else if err != IPC_SUCCESS then
      (s.(mgr := s.mgr.(net := sent, recs := SetStage(s.mgr.recs, h, Lost)), hands := s.hands[t := None]), err)
    else
      (Sys(s.mgr.(net := sent, recs := SetStage(s.mgr.recs, h, Replied)),
           s.hands[t := None], s.answers[h := bytes]), err)
  }

  function Abandon(s: Sys, t: nat): (r: Sys)
    requires ValidSys(s) && IsTask(t) && s.hands[t].Some?
    ensures ValidSys(r)
  {
    s.(mgr := s.mgr.(recs := SetStage(s.mgr.recs, s.hands[t].value, Lost)), hands := s.hands[t := None])
  }

  /** FakeRequest leaves SeqNum zero. */
  function Console(s: Sys, id: nat, bytes: seq<byte>): (r: Sys)
    requires ValidSys(s)
    ensures ValidSys(r)
  {
    var net := s.mgr.net;
    s.(mgr := s.mgr.(net := net.(inbox := net.inbox + [ShortMessage(MSG_TYPE_SHORT_REQUEST, 0, id, bytes)])))
  }

  function Next(s: Sys, step: Step): (r: Sys)
    requires ValidSys(s) && Enabled(s, step)
    ensures ValidSys(r)
  {
    match step
    case User(script) => s.(mgr := RunScript(s.mgr, script))
    case DeliverStep(at, fault, script) => s.(mgr := Deliver(s.mgr, at, fault, script))
    case SweepStep(now, scripts) => s.(mgr := Sweep(s.mgr, now, 0, scripts))
    case ReceiveStep(t, capacity, fault) => Receive(s, t, capacity, fault).0
    case RespondStep(t, isNull, bytes, fault) => Respond(s, t, isNull, bytes, fault).0
    case AbandonStep(t) => Abandon(s, t)
    case ConsoleStep(id, bytes) => Console(s, id, bytes)
  }

  function Init(): (s: Sys)
    ensures ValidSys(s)
  {
    Sys(Mgr(seq(GUI_MAX_REQUESTS, _ => CLEARED), 0, Net([], seq(TSK_NUM + 1, _ => []), map[]), map[], []),
        seq(TSK_NUM + 1, _ => None), map[])
  }

  /** A run: from the initial state, each state follows from the one before it by an
      enabled step. */
  ghost predicate IsRun(states: seq<Sys>, steps: seq<Step>) {
    && |states| == |steps| + 1
    && states[0] == Init()
    && forall i | 0 <= i < |steps| ::
         ValidSys(states[i]) && Enabled(states[i], steps[i]) && states[i + 1] == Next(states[i], steps[i])
  }

  // ---------------------------------------------------------------- invariant

  function Rank(stage: Stage): nat {
    match stage
    case Queued => 0
    case InHand => 1
    case Replied => 2
    case _ => 3
  }

  predicate RecOk(r: Rec) {
    r.slot < GUI_MAX_REQUESTS && 0 < r.id < TWO16 && 1 <= TaskOf(r.id) <= TSK_NUM && |r.bytes| + HDR_SIZE < TWO32
  }

  predicate SlotOk(slot: Slot, i: nat, issued: nat, recs: Recs) {
    && 1 <= slot.seqNum <= issued
    && slot.id != 0
    && slot.seqNum in recs
    && recs[slot.seqNum].status.Waiting? && recs[slot.seqNum].slot == i
    && Slot(slot.seqNum, recs[slot.seqNum].id, recs[slot.seqNum].cb, recs[slot.seqNum].expires) == slot
  }

  /** A slot is all zero or holds a waiting request; since the history names the slot,
      live sequence numbers are distinct. */
  ghost predicate TableOk(slots: seq<Slot>, issued: nat, recs: Recs) {
    |slots| == GUI_MAX_REQUESTS
    && forall i | 0 <= i < GUI_MAX_REQUESTS :: slots[i] == CLEARED || SlotOk(slots[i], i, issued, recs)
  }

  ghost predicate RecsOk(recs: Recs, issued: nat, slots: seq<Slot>) {
    |slots| == GUI_MAX_REQUESTS
    && forall s | s in recs ::
         1 <= s <= issued && RecOk(recs[s]) && (recs[s].status.Waiting? ==> slots[recs[s].slot].seqNum == s)
  }

  /** Requests to one task that are not lost move through their stages in
      sequence-number order. */
  ghost predicate RankOk(recs: Recs) {
    forall s, u | s in recs && u in recs && s < u :: InOrder(recs[s], recs[u])
  }

  predicate InOrder(r: Rec, q: Rec) {
    r.stage.Lost? || q.stage.Lost? || TaskOf(r.id) != TaskOf(q.id) || Rank(r.stage) >= Rank(q.stage)
  }

  predicate ReqMsgOk(msg: Message, t: nat, recs: Recs, shm: Shm) {
    var s := msg.seqNum;
    && s in recs && recs[s].stage.Queued? && TaskOf(recs[s].id) == t
    && msg == RequestMessage(s, recs[s].id, recs[s].bytes)
    && (!Fits(recs[s].bytes) ==> s in shm && shm[s] == recs[s].bytes)
  }

  ghost predicate QueueOk(q: seq<Message>, t: nat, recs: Recs, shm: Shm) {
    && (forall i | 0 <= i < |q| :: ReqMsgOk(q[i], t, recs, shm))
    && (forall i, j | 0 <= i < j < |q| :: q[i].seqNum < q[j].seqNum)
  }

  predicate IsResponse(msg: Message) {
    msg.kind == MSG_TYPE_SHORT_RESPONSE || msg.kind == MSG_TYPE_LONG_RESPONSE
  }

  predicate RespMsgOk(msg: Message, recs: Recs, answers: Answers, shm: Shm) {
    var s := msg.seqNum;
    && s in recs && recs[s].stage.Replied? && s in answers
    && msg == ResponseMessage(s, answers[s])
    && (!Fits(answers[s]) ==> s in shm && shm[s] == answers[s])
  }

  predicate ForwardOk(msg: Message) {
    msg.id < TWO16 && Fits(msg.data)
  }

  predicate SameTask(recs: Recs, s: nat, u: nat) {
    s in recs && u in recs && TaskOf(recs[s].id) == TaskOf(recs[u].id)
  }

  ghost predicate InboxOk(q: seq<Message>, recs: Recs, answers: Answers, shm: Shm) {
    && (forall i | 0 <= i < |q| :: if IsResponse(q[i]) then RespMsgOk(q[i], recs, answers, shm) else ForwardOk(q[i]))
    && (forall i, j | 0 <= i < j < |q| && IsResponse(q[i]) && IsResponse(q[j])
                      && SameTask(recs, q[i].seqNum, q[j].seqNum) ::
          q[i].seqNum < q[j].seqNum)
  }

  ghost predicate InQueue(q: seq<Message>, s: nat) {
    exists i :: 0 <= i < |q| && q[i].seqNum == s
  }

  ghost predicate InReplies(q: seq<Message>, s: nat) {
    exists i :: 0 <= i < |q| && IsResponse(q[i]) && q[i].seqNum == s
  }

  /** Every request in flight really is where its stage says. */
  ghost predicate PlacesOk(recs: Recs, net: Net, hands: Hands) {
    && ValidNet(net) && |hands| == TSK_NUM + 1
    && forall s | s in recs ::
         && (recs[s].stage.Queued? ==> IsTask(TaskOf(recs[s].id)) && InQueue(net.taskQ[TaskOf(recs[s].id)], s))
         && (recs[s].stage.InHand? ==> IsTask(TaskOf(recs[s].id)) && hands[TaskOf(recs[s].id)] == Some(s))
         && (recs[s].stage.Replied? ==> IsTask(TaskOf(recs[s].id)) && InReplies(net.inbox, s))
  }

  ghost predicate HandsOk(hands: Hands, recs: Recs, shm: Shm) {
    && |hands| == TSK_NUM + 1
    && forall t: nat | IsTask(t) && hands[t].Some? ::
         var s := hands[t].value;
         s in recs && recs[s].stage.InHand? && TaskOf(recs[s].id) == t
  }

  ghost predicate ShmOk(shm: Shm, issued: nat, recs: Recs) {
    forall k | k in shm :: 1 <= k <= issued && !(k in recs && recs[k].stage.InHand?)
      && (k in recs && recs[k].stage.Queued? ==> !Fits(recs[k].bytes))
  }

  ghost predicate AnswersOk(answers: Answers, recs: Recs) {
    forall s | s in answers :: s in recs && (recs[s].stage.Replied? || recs[s].stage.Gone?)
  }

  predicate EventOk(e: Event, recs: Recs, answers: Answers) {
    && e.seqNum in recs && e.cb != NULL && e.cb == recs[e.seqNum].cb
    && (|| (e.err == GUI_SUCCESS && recs[e.seqNum].status.Answered? && recs[e.seqNum].stage.Gone?
            && e.seqNum in answers && e.data == answers[e.seqNum])
        || (e.err == GUI_ERR_RESP_TIMEOUT && recs[e.seqNum].status.TimedOut? && e.data == []))
  }

  function Runs(log: seq<Event>, s: nat): nat {
    if log == [] then 0 else Runs(log[..|log| - 1], s) + (if log[|log| - 1].seqNum == s then 1 else 0)
  }

  predicate Completed(r: Rec) {
    r.cb != NULL && (r.status.Answered? || r.status.TimedOut?)
  }

  ghost predicate EventsOk(log: seq<Event>, recs: Recs, answers: Answers) {
    forall i | 0 <= i < |log| :: EventOk(log[i], recs, answers)
  }

  /** Successes for one task are reported in sequence-number order. */
  ghost predicate SuccessOrder(log: seq<Event>, recs: Recs) {
    forall i, j | 0 <= i < j < |log| && log[i].err == GUI_SUCCESS && log[j].err == GUI_SUCCESS
                  && SameTask(recs, log[i].seqNum, log[j].seqNum) :: log[i].seqNum < log[j].seqNum
  }

  /** The callback of a request has run once if the request has completed and has a
      callback, and never otherwise. */
  ghost predicate RunsOk(log: seq<Event>, recs: Recs) {
    forall s | s in recs :: Runs(log, s) == if Completed(recs[s]) then 1 else 0
  }

  ghost predicate LogOk(log: seq<Event>, recs: Recs, answers: Answers) {
    EventsOk(log, recs, answers) && SuccessOrder(log, recs) && RunsOk(log, recs)
  }

  ghost predicate QueuesOk(taskQ: seq<seq<Message>>, recs: Recs, shm: Shm) {
    |taskQ| == TSK_NUM + 1 && forall t: nat | IsTask(t) :: QueueOk(taskQ[t], t, recs, shm)
  }

  /** An answered request has consumed its response. */
  ghost predicate StatusOk(recs: Recs) {
    forall s | s in recs && recs[s].status.Answered? :: recs[s].stage.Gone?
  }

  ghost predicate MgrInv(m: Mgr, hands: Hands, answers: Answers) {
    && ValidMgr(m)
    && m.issued < TWO16
    && TableOk(m.slots, m.issued, m.recs)
    && RecsOk(m.recs, m.issued, m.slots)
    && RankOk(m.recs)
    && StatusOk(m.recs)
    && QueuesOk(m.net.taskQ, m.recs, m.net.shm)
    && InboxOk(m.net.inbox, m.recs, answers, m.net.shm)
    && PlacesOk(m.recs, m.net, hands)
    && HandsOk(hands, m.recs, m.net.shm)
    && ShmOk(m.net.shm, m.issued, m.recs)
    && AnswersOk(answers, m.recs)
    && LogOk(m.log, m.recs, answers)
  }

  ghost predicate Inv(s: Sys) {
    MgrInv(s.mgr, s.hands, s.answers)
  }
}
