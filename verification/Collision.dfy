/** The 16-bit limit on correlation is reached: a run in which a callback gets the
    answer to somebody else's request. */
module Collision {
  import opened Base
  import opened Deadline
  import opened Net
  import opened Pending
  import opened Protocol
  import opened Delivery
  import opened Trace

  const NOW := Timeval(0, 0)

  /** Without a payload, for task 3 with callback 7 and for task 4 with callback 8. */
  const FIRST := Call(0x301, true, [], HOUR, 7, NOW, NoFault)
  const LAST := Call(0x401, true, [], HOUR, 8, NOW, NoFault)

  /** A request that cannot be sent still uses up a number. */
  const FAILING := Call(0x301, true, [], HOUR, 9, NOW, MqSend)

  function Failing(n: nat): Script {
    seq(n, _ => DoRequest(FAILING))
  }

  lemma {:induction false} FailingOnlyCounts(m: Mgr, n: nat)
    requires ValidMgr(m) && FirstFree(m.slots, 0) < GUI_MAX_REQUESTS && m.slots[FirstFree(m.slots, 0)] == CLEARED
    ensures RunScript(m, Failing(n)) == m.(issued := m.issued + n)
    decreases n
  {
    hide FirstFree;
    if n > 0 {
      var next := m.(issued := m.issued + 1);
      assert m.slots[FirstFree(m.slots, 0) := CLEARED] == m.slots;
      assert Act(m, DoRequest(FAILING)) == next;
      assert Failing(n)[1..] == Failing(n - 1);
      hide Act;
      FailingOnlyCounts(next, n - 1);
    }
  }

  function Calls(): Script {
    [DoRequest(FIRST)] + Failing(TWO16 - 1) + [DoRequest(LAST)]
  }

  function Due(): Timeval {
    ExpiresAt(NOW, HOUR)
  }

  function Short(s: nat, id: nat): Message {
    ShortMessage(MSG_TYPE_SHORT_REQUEST, s, id, [])
  }

  /** An accepted call that finds slot i free. */
  function Accepted(m: Mgr, c: Call, i: nat): Mgr
    requires ValidMgr(m) && i < GUI_MAX_REQUESTS && IsTask(TaskOf(c.id))
  {
    var s, t := NextSeqNum(m.issued), TaskOf(c.id);
    Mgr(m.slots[i := Slot(s, c.id, c.cb, Due())], m.issued + 1,
        m.net.(taskQ := m.net.taskQ[t := m.net.taskQ[t] + [Short(s, c.id)]]),
        m.recs[s := Rec(i, c.id, c.cb, [], Due(), Waiting, Queued)], m.log)
  }

  lemma CallAccepted(m: Mgr, c: Call, i: nat)
    requires ValidMgr(m) && i < GUI_MAX_REQUESTS && FirstFree(m.slots, 0) == i && (c == FIRST || c == LAST)
    ensures RunScript(m, [DoRequest(c)]) == Accepted(m, c, i)
  {
    hide FirstFree;
    assert Act(m, DoRequest(c)) == Accepted(m, c, i);
    hide Act, Accepted;
    assert [DoRequest(c)][1..] == [];
    assert RunScript(Act(m, DoRequest(c)), []) == Act(m, DoRequest(c));
  }

  /** The manager after the first request, and after all of them. */
  function AfterFirst(): (m: Mgr)
    ensures ValidMgr(m)
  {
    Accepted(Init().mgr, FIRST, 0)
  }

  function AfterLast(): (m: Mgr)
    ensures ValidMgr(m)
  {
    Accepted(AfterFirst().(issued := TWO16), LAST, 1)
  }

  lemma CallsMade()
    ensures RunScript(Init().mgr, Calls()) == AfterLast()
  {
    var m0, m1 := Init().mgr, AfterFirst();
    assert FirstFree(m0.slots, 0) == 0 && m1.issued == 1;
    assert FirstFree(m1.slots, 0) == 1 && m1.slots[1] == CLEARED;
    hide FirstFree, RunScript, Accepted, Init;
    CallAccepted(m0, FIRST, 0);
    FailingOnlyCounts(m1, TWO16 - 1);
    CallAccepted(m1.(issued := TWO16), LAST, 1);
    RunAppend(m0, [DoRequest(FIRST)], Failing(TWO16 - 1));
    RunAppend(m0, [DoRequest(FIRST)] + Failing(TWO16 - 1), [DoRequest(LAST)]);
  }

  // ------------------------------------------------- the run

  const HANDLE := TWO16 + 1

  function Steps(): seq<Step> {
    [User(Calls()), ReceiveStep(4, 513, NoFault), RespondStep(4, false, [42], NoFault), DeliverStep(NOW, NoFault, [])]
  }

  function AtLast(): (s: Sys)
    ensures ValidSys(s)
  {
    Sys(AfterLast(), Init().hands, map[])
  }

  lemma CallsInRange()
    ensures ScriptInRange(Calls())
  {
  }

  lemma TaskTakes()
    ensures Enabled(AtLast(), ReceiveStep(4, 513, NoFault))
    ensures var s := Receive(AtLast(), 4, 513, NoFault).0;
            && s.hands == Init().hands[4 := Some(HANDLE)] && s.answers == map[] && s.mgr.net.inbox == []
            && s.mgr.slots == AfterLast().slots && s.mgr.issued == HANDLE && s.mgr.log == []
            && 0 !in s.mgr.recs && s.mgr.net.shm == map[]
  {
    assert AtLast().mgr.net.taskQ[4] == [Short(HANDLE, 0x401)];
  }

  function Answer(): Message {
    ShortMessage(MSG_TYPE_SHORT_RESPONSE, HANDLE, 0, [42])
  }

  lemma TaskAnswers(s: Sys)
    requires ValidSys(s) && s.hands[4] == Some(HANDLE) && s.mgr.net.inbox == []
    ensures Enabled(s, RespondStep(4, false, [42], NoFault))
    ensures var s' := Respond(s, 4, false, [42], NoFault).0;
            && s'.answers == s.answers[HANDLE := [42]] && s'.mgr.net.inbox == [Answer()]
            && s'.mgr.slots == s.mgr.slots && s'.mgr.issued == s.mgr.issued && s'.mgr.log == s.mgr.log
            && s'.mgr.recs.Keys == s.mgr.recs.Keys
  {
  }

  lemma ManagerReports(m: Mgr)
    requires ValidMgr(m) && m.slots == AfterLast().slots && m.net.inbox == [Answer()] && m.log == [] && 0 !in m.recs
    ensures Deliver(m, NOW, NoFault, []).log == [Event(1, 7, [42], GUI_SUCCESS)]
    ensures Deliver(m, NOW, NoFault, []).issued == m.issued
  {
    var m1 := m.(recs := SetStage(m.recs, HANDLE, Gone), net := m.net.(inbox := []));
    assert m.net.inbox[1..] == [] && HANDLE % TWO16 == 1;
    assert TableWf(m.slots) && m.slots[0].seqNum == 1 && m.slots[0].cb == 7;
    assert Deliver(m, NOW, NoFault, []) == ProcessMatches(m1, 1, 0, [42], []) by {
      hide ProcessMatches, SetStage, AfterLast;
    }
    OneMatch(m1, 1, 0, 0, [42], []);
    assert RunScript(Finish(m1, 0, Answered, [42], GUI_SUCCESS), []) == Finish(m1, 0, Answered, [42], GUI_SUCCESS);
    hide SetStage, ProcessMatches, Deliver, AfterLast, TableWf;
  }

  /** With 65537 numbers issued the callback of request 1, which task 3 never answered,
      is run with what task 4 answered to request 65537. */
  lemma CollisionRun()
    ensures exists states: seq<Sys>, steps ::
              && IsRun(states, steps) && |states| == 5 && states[4].mgr.issued == HANDLE
              && states[4].answers == map[HANDLE := [42]]
              && states[4].mgr.log == [Event(1, 7, [42], GUI_SUCCESS)]
  {
    hide AfterLast, Receive, Respond, Deliver, RunScript, ScriptInRange, Calls;
    CallsInRange();
    CallsMade();
    TaskTakes();
    var s0, s1 := Init(), AtLast();
    var s2 := Receive(s1, 4, 513, NoFault).0;
    TaskAnswers(s2);
    var s3 := Respond(s2, 4, false, [42], NoFault).0;
    ManagerReports(s3.mgr);
    var s4 := s3.(mgr := Deliver(s3.mgr, NOW, NoFault, []));
    assert ScriptInRange([]) by {
      EmptyRun();
    }
    assert IsRun([s0, s1, s2, s3, s4], Steps());
  }
}
