/** A request typed at the console goes all the way: to the task its identifier names and
    back to the callback that prints the answer. */
module ConsoleRuns {
  import opened Base
  import opened Deadline
  import opened Net
  import opened Pending
  import opened Protocol
  import opened ProtocolRuns
  import opened Trace
  import opened Theorems
  import opened Scripts
  import opened Delivery
  import opened Calls

  /** What the manager makes of the console's message. */
  function Forwarded(id: nat, bytes: seq<byte>, at: Timeval): Call {
    Call(id, false, bytes, HOUR, ResponseToConsole, at, NoFault)
  }

  lemma DeliverForwards(s: Sys, id: nat, bytes: seq<byte>, at: Timeval, script: Script)
    requires ValidSys(s) && s.mgr.net.inbox == [] && |bytes| <= 500
    ensures Deliver(Console(s, id, bytes).mgr, at, NoFault, script) == Request(s.mgr, Forwarded(id, bytes, at)).0
  {
    hide Request;
    var m := Console(s, id, bytes).mgr;
    assert m.net.inbox[1..] == [] && m.(net := m.net.(inbox := [])) == s.mgr;
  }

  /** Request 1 is in the queue of task t, with its segment if it is long, and no other
      segment is there. */
  predicate OnlyRequest(net: Net, t: nat, id: nat, bytes: seq<byte>) {
    && t < |net.taskQ|
    && (if |bytes| <= 500 then net.taskQ[t] == [Message(3, 1, id, |bytes|, bytes)] && net.shm == map[]
        else net.taskQ[t] == [Message(4, 1, id, |bytes|, [])] && net.shm == map[1 := bytes])
  }

  /** The first request of a run. */
  lemma FirstCall(c: Call, t: nat, n: nat)
    requires 2 <= t <= 11 && n < 256 && c.id == 256 * t + n && !c.isNull && c.fault.NoFault?
    ensures var m0 := Init().mgr; var m := Request(m0, c).0;
            && m.slots[0] == Slot(1, c.id, c.cb, ExpiresAt(c.at, c.timeout))
            && m.issued == 1 && m.log == [] && m.net.inbox == []
            && m.recs == map[1 := Rec(0, c.id, c.cb, c.bytes, ExpiresAt(c.at, c.timeout), Waiting, Queued)]
            && OnlyRequest(m.net, t, c.id, c.bytes)
  {
    var m0 := Init().mgr;
    TaskOfIs(t, n);
    assert FirstFree(m0.slots, 0) == 0;
    hide FirstFree, ExpiresAt, TaskOf;
    assert m0.net.taskQ[t] == [] && Request(m0, c).1 == 0;
    RequestRouted(m0, c, t, n);
  }

  /** The task receives it and answers. */
  lemma TaskAnswers(s: Sys, t: nat, id: nat, bytes: seq<byte>, capacity: nat, answer: seq<byte>)
    requires ValidSys(s) && 2 <= t <= 11 && s.hands[t].None? && |bytes| <= capacity
    requires s.mgr.net.inbox == [] && OnlyRequest(s.mgr.net, t, id, bytes)
    requires answer != [] && |answer| + HDR_SIZE < TWO32 && 1 in s.mgr.recs
    ensures var step := ReceiveStep(t, capacity, NoFault); var r := Receive(s, t, capacity, NoFault);
            && Enabled(s, step) && r.1 == Received(1, id, bytes)
            && Enabled(r.0, RespondStep(t, false, answer, NoFault))
            && var a := Respond(r.0, t, false, answer, NoFault);
               && a.1 == 0 && a.0.answers == s.answers[1 := answer]
               && a.0.mgr.slots == s.mgr.slots && a.0.mgr.issued == s.mgr.issued && a.0.mgr.log == s.mgr.log
               && 1 in a.0.mgr.recs && a.0.mgr.recs[1].status == s.mgr.recs[1].status
               && a.0.mgr.recs[1].cb == s.mgr.recs[1].cb
               && |a.0.mgr.net.inbox| == 1 && a.0.mgr.net.inbox[0] == ResponseMessage(1, answer)
  {
    var s1 := Receive(s, t, capacity, NoFault).0;
    assert s1.hands[t] == Some(1);
    assert s1.mgr.net.shm == map[] by {
      if |bytes| > 500 {
        assert map[1 := bytes] - {1} == map[];
      }
    }
    ResponseCodes(s1.mgr.net, 1, false, answer, NoFault);
    AnswerRouted(s1.mgr.net, 1, false, answer, NoFault);
    hide Response, WaitForRequest;
  }

  /** Request 1, which is the only one and still waits, has been answered. */
  ghost predicate Answered1(s: Sys, cb: Callback, answer: seq<byte>) {
    && |s.mgr.net.inbox| == 1 && s.mgr.net.inbox[0] == ResponseMessage(1, answer) && s.mgr.issued == 1
    && 1 in s.mgr.recs && s.mgr.recs[1].status.Waiting? && s.mgr.recs[1].cb == cb && s.mgr.log == []
    && s.answers == map[1 := answer]
  }

  /** Its answer is delivered to its callback. */
  lemma AnswerArrives(s: Sys, at: Timeval, script: Script, cb: Callback, answer: seq<byte>)
    requires Inv(s) && Answered1(s, cb, answer) && ValidSys(s) && Enabled(s, DeliverStep(at, NoFault, script))
    ensures Next(s, DeliverStep(at, NoFault, script)).mgr.log == if cb == NULL then [] else [Event(1, cb, answer, 0)]
  {
    var m := s.mgr;
    ResponseCompletes(m, s.hands, s.answers, at, NoFault, script);
    hide MgrInv, Deliver, RunScript;
    var took := Took(m, NoFault);
    ScriptsDoNotLog(Finish(took, m.recs[1].slot, Answered, answer, GUI_SUCCESS), script);
  }

  /** The first request of a run, addressed to task t, has just been accepted. */
  ghost predicate Asked(s: Sys, c: Call, t: nat) {
    && ValidSys(s) && s.mgr == Request(Init().mgr, c).0 && s.hands == Init().hands && s.answers == map[]
    && 2 <= t <= 11 && c.id / 256 == t && !c.isNull && c.fault.NoFault?
  }

  lemma AnswerSteps(s: Sys, t: nat, c: Call, capacity: nat, answer: seq<byte>)
    requires Asked(s, c, t) && |c.bytes| <= capacity && answer != [] && |answer| + HDR_SIZE < TWO32
    ensures ValidSys(s) && Enabled(s, ReceiveStep(t, capacity, NoFault))
    ensures Receive(s, t, capacity, NoFault).1 == Received(1, c.id, c.bytes)
    ensures var s1 := Next(s, ReceiveStep(t, capacity, NoFault));
            && Enabled(s1, RespondStep(t, false, answer, NoFault))
            && Answered1(Next(s1, RespondStep(t, false, answer, NoFault)), c.cb, answer)
  {
    FirstCall(c, t, c.id % 256);
    assert s.hands[t].None?;
    TaskAnswers(s, t, c.id, c.bytes, capacity, answer);
    hide Receive, Respond, Request;
  }

  /** A run that has issued one request, addressed to task t, goes on with the task's
      answer and its delivery. */
  lemma AnsweredRun(states: seq<Sys>, steps: seq<Step>, t: nat, c: Call, capacity: nat, answer: seq<byte>,
                    back: Timeval, script: Script) returns (all: seq<Sys>)
    requires IsRun(states, steps) && Asked(states[|steps|], c, t)
    requires |c.bytes| <= capacity && answer != [] && |answer| + HDR_SIZE < TWO32 && ScriptInRange(script)
    ensures IsRun(all, steps + [ReceiveStep(t, capacity, NoFault)] + [RespondStep(t, false, answer, NoFault)]
                       + [DeliverStep(back, NoFault, script)])
    ensures |all| == |steps| + 4 && all[..|states|] == states
    ensures states[|steps|].mgr.net.taskQ[t] != []
    ensures Receive(states[|steps|], t, capacity, NoFault).1 == Received(1, c.id, c.bytes)
    ensures all[|steps| + 3].mgr.log == if c.cb == NULL then [] else [Event(1, c.cb, answer, 0)]
  {
    var s := states[|steps|];
    var receive, respond, deliver :=
      ReceiveStep(t, capacity, NoFault), RespondStep(t, false, answer, NoFault), DeliverStep(back, NoFault, script);
    AnswerSteps(s, t, c, capacity, answer);
    var s1 := Next(s, receive);
    var s2 := Next(s1, respond);
    assert Enabled(s2, deliver);
    var s3 := Next(s2, deliver);
    hide IsRun, Next, Enabled, Receive, Request, ScriptInRange, Inv, Answered1, Asked, ValidSys;
    RunGoesOn(states, steps, receive);
    RunGoesOn(states + [s1], steps + [receive], respond);
    RunInv(states + [s1] + [s2], steps + [receive] + [respond], |steps| + 2) by {
      FewIssued(s2, c.cb, answer);
    }
    RunGoesOn(states + [s1] + [s2], steps + [receive] + [respond], deliver);
    AnswerArrives(s2, back, script, c.cb, answer);
    all := states + [s1] + [s2] + [s3];
  }

  lemma FewIssued(s: Sys, cb: Callback, answer: seq<byte>)
    requires Answered1(s, cb, answer)
    ensures s.mgr.issued < TWO16
  {
  }

  /** A request made by a program: the task its identifier names receives number,
      identifier and bytes, of any length, and its answer is what the callback gets. */
  lemma RequestAnswered(c: Call, t: nat, n: nat, capacity: nat, answer: seq<byte>, back: Timeval, script: Script)
    returns (states: seq<Sys>)
    requires 2 <= t <= 11 && n < 256 && c.id == 256 * t + n && !c.isNull && c.fault.NoFault?
    requires |c.bytes| + HDR_SIZE < TWO32 && |c.bytes| <= capacity
    requires answer != [] && |answer| + HDR_SIZE < TWO32 && ScriptInRange(script)
    ensures IsRun(states, [User([DoRequest(c)]), ReceiveStep(t, capacity, NoFault),
                           RespondStep(t, false, answer, NoFault), DeliverStep(back, NoFault, script)])
    ensures ValidSys(states[1]) && states[1].mgr.net.taskQ[t] != []
    ensures Receive(states[1], t, capacity, NoFault).1 == Received(1, 256 * t + n, c.bytes)
    ensures states[4].mgr.log == if c.cb == NULL then [] else [Event(1, c.cb, answer, 0)]
  {
    var call := User([DoRequest(c)]);
    var s1 := Init().(mgr := Request(Init().mgr, c).0);
    OneAct(Init().mgr, DoRequest(c));
    assert ScriptInRange([DoRequest(c)]);
    assert Enabled(Init(), call) && Next(Init(), call) == s1;
    hide IsRun, Next, Enabled, Receive, Request, ScriptInRange;
    EmptyRun();
    RunGoesOn([Init()], [], call);
    assert [Init()] + [s1] == [Init(), s1] && [] + [call] == [call];
    states := AnsweredRun([Init(), s1], [call], t, c, capacity, answer, back, script);
    var receive, respond, deliver :=
      ReceiveStep(t, capacity, NoFault), RespondStep(t, false, answer, NoFault), DeliverStep(back, NoFault, script);
    assert [call] + [receive] + [respond] + [deliver] == [call, receive, respond, deliver];
    assert states[1] == states[..2][1];
  }

  /** A request typed at the console: the task receives identifier and bytes, the slot is
      taken for one hour, and the callback that prints the answer gets it. */
  lemma ConsoleAnswered(t: nat, n: nat, bytes: seq<byte>, at: Timeval, capacity: nat, answer: seq<byte>,
                        back: Timeval, script: Script) returns (states: seq<Sys>)
    requires 2 <= t <= 11 && n < 256 && |bytes| <= 500 && |bytes| <= capacity && Normal(at)
    requires answer != [] && |answer| + HDR_SIZE < TWO32 && ScriptInRange(script)
    ensures IsRun(states, [ConsoleStep(256 * t + n, bytes), DeliverStep(at, NoFault, []),
                           ReceiveStep(t, capacity, NoFault), RespondStep(t, false, answer, NoFault),
                           DeliverStep(back, NoFault, script)])
    ensures ValidSys(states[2]) && states[2].mgr.net.taskQ[t] != []
    ensures Receive(states[2], t, capacity, NoFault).1 == Received(1, 256 * t + n, bytes)
    ensures Micros(states[2].mgr.slots[0].expires) == Micros(at) + 3_600_000_000
    ensures states[5].mgr.log == [Event(1, ResponseToConsole, answer, 0)]
  {
    var c := Forwarded(256 * t + n, bytes, at);
    var typed, forward := ConsoleStep(256 * t + n, bytes), DeliverStep(at, NoFault, []);
    var s0, s1, s2 := ConsoleForwards(t, n, bytes, at);
    hide *;
    states := AnsweredRun([s0, s1, s2], [typed, forward], t, c, capacity, answer, back, script);
    var receive, respond, deliver :=
      ReceiveStep(t, capacity, NoFault), RespondStep(t, false, answer, NoFault), DeliverStep(back, NoFault, script);
    assert [typed, forward] + [receive] + [respond] + [deliver] == [typed, forward, receive, respond, deliver];
    assert states[2] == states[..3][2];
  }

  /** Its first two steps. */
  lemma ConsoleForwards(t: nat, n: nat, bytes: seq<byte>, at: Timeval) returns (s0: Sys, s1: Sys, s2: Sys)
    requires 2 <= t <= 11 && n < 256 && |bytes| <= 500 && Normal(at)
    ensures IsRun([s0, s1, s2], [ConsoleStep(256 * t + n, bytes), DeliverStep(at, NoFault, [])])
    ensures ValidSys(s2) && s2.mgr == Request(Init().mgr, Forwarded(256 * t + n, bytes, at)).0
    ensures s2.hands == Init().hands && s2.answers == map[]
    ensures Micros(s2.mgr.slots[0].expires) == Micros(at) + 3_600_000_000
  {
    var id, c := 256 * t + n, Forwarded(256 * t + n, bytes, at);
    var typed, forward := ConsoleStep(id, bytes), DeliverStep(at, NoFault, []);
    s0 := Init();
    s1, s2 := Console(s0, id, bytes), s0.(mgr := Request(s0.mgr, c).0);
    FirstSteps(id, bytes, at);
    FirstSlot(c, t, n);
    hide *;
    TwoSteps(typed, forward);
  }

  lemma FirstSteps(id: nat, bytes: seq<byte>, at: Timeval)
    requires id < TWO16 && |bytes| <= 500
    ensures var s, typed, forward := Init(), ConsoleStep(id, bytes), DeliverStep(at, NoFault, []);
            var s1 := Console(s, id, bytes);
            && Enabled(s, typed) && Next(s, typed) == s1 && Enabled(s1, forward)
            && Next(s1, forward) == s.(mgr := Request(s.mgr, Forwarded(id, bytes, at)).0)
            && s.answers == map[]
  {
    hide Request, Deliver, Forwarded;
    DeliverForwards(Init(), id, bytes, at, []);
  }

  lemma FirstSlot(c: Call, t: nat, n: nat)
    requires 2 <= t <= 11 && n < 256 && c.id == 256 * t + n && !c.isNull && c.fault.NoFault? && Normal(c.at)
    ensures Micros(Request(Init().mgr, c).0.slots[0].expires) == Micros(c.at) + c.timeout * 1000
  {
    hide Request, ExpiresAt, Micros, OnlyRequest;
    FirstCall(c, t, n);
    ExpiresAtExact(c.at, c.timeout);
  }
}
