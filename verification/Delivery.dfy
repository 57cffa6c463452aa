/** What delivering one response does to the pending table: which request it completes,
    when it is ignored, and what the 16-bit sequence number parameter costs. */
module Delivery {
  import opened Base
  import opened Deadline
  import opened Net
  import opened Pending
  import opened Protocol
  import opened ProtocolFrames
  import opened ProtocolTasks
  import opened ProtocolRuns
  import opened Trace
  import opened Scripts

  /** Free slots are all zero, used ones have nonzero numbers, and no two used slots
      share a sequence number.  Unlike the invariant of the runs this also makes sense
      beyond 65535 requests. */
  ghost predicate TableWf(slots: seq<Slot>) {
    && |slots| == GUI_MAX_REQUESTS
    && (forall i | 0 <= i < |slots| :: slots[i] == CLEARED || (slots[i].seqNum != 0 && slots[i].id != 0))
    && (forall i, j | 0 <= i < j < |slots| && slots[i] != CLEARED :: slots[i].seqNum != slots[j].seqNum)
  }

  lemma InvTableWf(m: Mgr, hands: Hands, answers: Answers)
    requires ValidMgr(m) && MgrInv(m, hands, answers)
    ensures TableWf(m.slots)
  {
  }

  lemma {:induction false} NoMatch(m: Mgr, s: nat, i: nat, data: seq<byte>, script: Script)
    requires ValidMgr(m) && i <= GUI_MAX_REQUESTS
    requires forall j | i <= j < GUI_MAX_REQUESTS :: m.slots[j].seqNum != s
    ensures ProcessMatches(m, s, i, data, script) == m
    decreases GUI_MAX_REQUESTS - i
  {
    if i < GUI_MAX_REQUESTS {
      NoMatch(m, s, i + 1, data, script);
    }
  }

  /** The table after completing slot i0 and running its callback's script. */
  function Complete(m: Mgr, i0: nat, data: seq<byte>, script: Script): (r: Mgr)
    requires ValidMgr(m) && i0 < GUI_MAX_REQUESTS
    ensures ValidMgr(r)
  {
    var m1 := Finish(m, i0, Answered, data, GUI_SUCCESS);
    if m.slots[i0].cb != NULL then RunScript(m1, script) else m1
  }

  /** The scan completes the one slot that carries the number, although it does not
      stop after a match without a callback. */
  lemma {:induction false} OneMatch(m: Mgr, s: nat, i: nat, i0: nat, data: seq<byte>, script: Script)
    requires ValidMgr(m) && TableWf(m.slots) && s != 0
    requires i <= i0 < GUI_MAX_REQUESTS && m.slots[i0].seqNum == s
    ensures ProcessMatches(m, s, i, data, script) == Complete(m, i0, data, script)
    decreases i0 - i
  {
    hide RunScript;
    if i < i0 {
      OneMatch(m, s, i + 1, i0, data, script);
    } else if m.slots[i0].cb == NULL {
      NoMatch(Finish(m, i0, Answered, data, GUI_SUCCESS), s, i0 + 1, data, script);
    }
  }

  /** A response numbered 0 matches every free slot and still changes nothing. */
  lemma {:induction false} ZeroIsHarmless(m: Mgr, i: nat, data: seq<byte>, script: Script)
    requires ValidMgr(m) && TableWf(m.slots) && 0 !in m.recs && i <= GUI_MAX_REQUESTS
    ensures ProcessMatches(m, 0, i, data, script) == m
    decreases GUI_MAX_REQUESTS - i
  {
    if i < GUI_MAX_REQUESTS {
      if m.slots[i].seqNum == 0 {
        assert m.slots[i := CLEARED] == m.slots;
      }
      ZeroIsHarmless(m, i + 1, data, script);
    }
  }

  ghost predicate HoldsNumber(slots: seq<Slot>, s: nat) {
    exists i :: 0 <= i < |slots| && slots[i].seqNum == s
  }

  /** Completing slot j takes its number, and only that, out of the table. */
  lemma CompleteFrees(m: Mgr, j: nat, data: seq<byte>, u: nat)
    requires ValidMgr(m) && TableWf(m.slots) && j < GUI_MAX_REQUESTS && m.slots[j] != CLEARED && u != 0
    ensures HoldsNumber(Complete(m, j, data, []).slots, u) <==> HoldsNumber(m.slots, u) && u != m.slots[j].seqNum
  {
    var slots := Complete(m, j, data, []).slots;
    assert slots == m.slots[j := CLEARED];
    if HoldsNumber(m.slots, u) && u != m.slots[j].seqNum {
      var i :| 0 <= i < |m.slots| && m.slots[i].seqNum == u;
      assert slots[i].seqNum == u;
    }
  }

  /** A callback that loads no window neither frees nor reuses the number s. */
  lemma ScriptKeepsNumber(m: Mgr, script: Script, s: nat)
    requires ValidMgr(m) && TableWf(m.slots) && 1 <= s <= m.issued
    requires !Loads(script) && RunScript(m, script).issued < TWO32
    ensures HoldsNumber(RunScript(m, script).slots, s) <==> HoldsNumber(m.slots, s)
  {
    hide RunScript;
    ScriptUntouched(m, script);
    var slots := RunScript(m, script).slots;
    if j :| 0 <= j < |m.slots| && m.slots[j].seqNum == s {
      assert slots[j].seqNum == s;
    }
    if j :| 0 <= j < |slots| && slots[j].seqNum == s {
      assert m.slots[j].seqNum == s;
    }
  }

  lemma CompleteKeepsNumber(m: Mgr, j: nat, data: seq<byte>, script: Script, s: nat)
    requires ValidMgr(m) && TableWf(m.slots) && j < GUI_MAX_REQUESTS && m.slots[j] != CLEARED && 1 <= s <= m.issued
    requires !Loads(script) && Complete(m, j, data, script).issued < TWO32
    ensures HoldsNumber(Complete(m, j, data, script).slots, s)
            <==> HoldsNumber(m.slots, s) && s != m.slots[j].seqNum
  {
    hide RunScript, HoldsNumber;
    CompleteFrees(m, j, data, s);
    var m1 := Finish(m, j, Answered, data, GUI_SUCCESS);
    assert Complete(m, j, data, []).slots == m1.slots by {
      assert RunScript(m1, []) == m1 by {
        NothingRun(m1);
      }
    }
    if m.slots[j].cb != NULL {
      ScriptKeepsNumber(m1, script, s);
    }
  }

  lemma NothingRun(m: Mgr)
    requires ValidMgr(m)
    ensures RunScript(m, []) == m
  {
  }

  /** The scan for number u takes u, and only that, out of the table; for 0 it takes
      nothing. */
  lemma ScanTakes(m: Mgr, u: nat, data: seq<byte>, script: Script, s: nat)
    requires ValidMgr(m) && TableWf(m.slots) && 0 !in m.recs && 1 <= s <= m.issued
    requires !Loads(script) && ProcessMatches(m, u, 0, data, script).issued < TWO32
    ensures HoldsNumber(ProcessMatches(m, u, 0, data, script).slots, s) <==> HoldsNumber(m.slots, s) && s != u
  {
    hide TableWf, ProcessMatches, Complete;
    if u == 0 {
      ZeroIsHarmless(m, 0, data, script);
    } else if j: nat :| j < GUI_MAX_REQUESTS && m.slots[j].seqNum == u {
      OneMatch(m, u, 0, j, data, script);
      CompleteKeepsNumber(m, j, data, script, s);
    } else {
      NoMatch(m, u, 0, data, script);
    }
  }

  /** Delivering the short answer of request s, which is pending, frees its slot exactly
      when s survives the conversion to USHORT, whatever the callback does short of
      loading a window. */
  lemma CorrelationLimit(m: Mgr, s: nat, data: seq<byte>, script: Script)
    requires ValidMgr(m) && TableWf(m.slots) && 0 !in m.recs && 1 <= s <= m.issued && HoldsNumber(m.slots, s)
    requires !Loads(script) && ProcessShortResponses(m, s % TWO16, data, script).issued < TWO32
    ensures !HoldsNumber(ProcessShortResponses(m, s % TWO16, data, script).slots, s) <==> s < TWO16
  {
    hide TableWf, ProcessMatches, HoldsNumber;
    ScanTakes(m, s % TWO16, data, script, s);
  }

  /** So does delivering its long answer, although the segment is there: beyond the
      limit the manager looks for another one. */
  lemma CorrelationLimitLong(m: Mgr, s: nat, size: nat, script: Script)
    requires ValidMgr(m) && TableWf(m.slots) && 0 !in m.recs && 1 <= s <= m.issued && HoldsNumber(m.slots, s)
    requires s in m.net.shm && size <= |m.net.shm[s]|
    requires !Loads(script) && ProcessLongResponses(m, s % TWO16, size, NoFault, script).0.issued < TWO32
    ensures !HoldsNumber(ProcessLongResponses(m, s % TWO16, size, NoFault, script).0.slots, s) <==> s < TWO16
  {
    hide TableWf, ProcessMatches, HoldsNumber;
    var u := s % TWO16;
    var data := FindSegment(m.net.shm, u, size);
    if data.Some? {
      var m1 := if u == 0 then m else m.(net := m.net.(shm := m.net.shm - {u}));
      ScanTakes(m1, u, data.value, script, s);
    }
  }

  // ------------------------------------------------- in a run

  lemma WaitsInSlot(m: Mgr, hands: Hands, answers: Answers, s: nat)
    requires ValidMgr(m) && MgrInv(m, hands, answers) && s in m.recs && m.recs[s].status.Waiting?
    ensures var r := m.recs[s];
            1 <= s <= m.issued && r.slot < GUI_MAX_REQUESTS && m.slots[r.slot].seqNum == s && m.slots[r.slot].cb == r.cb
  {
  }

  /** Delivering the response of a request that still waits completes that request and
      no other: its slot is freed and its callback, if any, gets the answer before
      anything else happens. */
  lemma ResponseCompletes(m: Mgr, hands: Hands, answers: Answers,
                          at: Timeval, fault: Fault, script: Script)
    requires ValidMgr(m) && MgrInv(m, hands, answers)
    requires m.net.inbox != [] && IsResponse(m.net.inbox[0]) && Arrives(m.net.inbox[0], fault)
    requires m.net.inbox[0].seqNum in m.recs && m.recs[m.net.inbox[0].seqNum].status.Waiting?
    ensures var s := m.net.inbox[0].seqNum; var r, took := m.recs[s], Took(m, fault);
            && s in answers && r.slot < GUI_MAX_REQUESTS && m.slots[r.slot].seqNum == s
            && took.slots == m.slots && took.log == m.log
            && Deliver(m, at, fault, script) == Complete(took, r.slot, answers[s], script)
            && Finish(took, r.slot, Answered, answers[s], GUI_SUCCESS).log ==
               m.log + (if r.cb == NULL then [] else [Event(s, r.cb, answers[s], GUI_SUCCESS)])
  {
    var s := m.net.inbox[0].seqNum;
    InvTableWf(m, hands, answers);
    assert m.issued < TWO16;
    TakeResponse(m, hands, answers, m.net.shm);
    DeliverCases(m, answers, at, fault, script);
    WaitsInSlot(m, hands, answers, s);
    hide MgrInv, TableWf, Deliver, Took, ProcessMatches, RunScript, RespMsgOk, LastSuccess, Complete, SetStage,
         SetStatus;
    OneMatch(Took(m, fault), s, 0, m.recs[s].slot, answers[s], script);
  }

  /** A response that comes after its request timed out or was dropped changes neither
      the table nor the log, whatever occupies the slot by then. */
  lemma LateResponseIgnored(m: Mgr, hands: Hands, answers: Answers,
                            at: Timeval, fault: Fault, script: Script)
    requires ValidMgr(m) && MgrInv(m, hands, answers)
    requires m.net.inbox != [] && IsResponse(m.net.inbox[0])
    requires m.net.inbox[0].seqNum in m.recs && !m.recs[m.net.inbox[0].seqNum].status.Waiting?
    ensures var m' := Deliver(m, at, fault, script);
            m'.slots == m.slots && m'.log == m.log && m'.issued == m.issued
  {
    var s := m.net.inbox[0].seqNum;
    assert m.issued < TWO16;
    TakeResponse(m, hands, answers, m.net.shm);
    DeliverCases(m, answers, at, fault, script);
    forall j | 0 <= j < GUI_MAX_REQUESTS ensures m.slots[j].seqNum != s {
      SlotOfMgr(m, hands, answers, j);
    }
    hide MgrInv, Deliver, Took, ProcessMatches;
    NoMatch(Took(m, fault), s, 0, answers[s], script);
  }
}
