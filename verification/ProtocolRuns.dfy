/** Every effect, every step and every run keeps the invariant. */
module ProtocolRuns {
  import opened Base
  import opened Deadline
  import opened Net
  import opened Pending
  import opened Protocol
  import opened ProtocolFrames
  import opened ProtocolSteps
  import opened ProtocolTasks
  import opened Trace

  lemma SlotOfMgr(m: Mgr, hands: Hands, answers: Answers, i: nat)
    requires ValidMgr(m) && MgrInv(m, hands, answers) && i < GUI_MAX_REQUESTS
    ensures m.slots[i] == CLEARED || SlotOk(m.slots[i], i, m.issued, m.recs)
  {
  }

  // ------------------------------------------------- lawful effects

  /** The arguments of a request fit their C types; only a request that is still
      pending is reported, as timed out or with its own answer. */
  ghost predicate EffectOk(m: Mgr, answers: Answers, e: Effect)
    requires ValidMgr(m)
  {
    match e
    case Ask(c) => CallInRange(c)
    case Wipe => true
    case Report(i, status, data, err) => MayFinish(m, answers, i, status, data, err)
  }

  ghost predicate Lawful(m: Mgr, answers: Answers, es: seq<Effect>)
    requires ValidMgr(m)
    decreases |es|
  {
    es == [] || (EffectOk(m, answers, es[0]) && Lawful(Do(m, es[0]), answers, es[1..]))
  }

  lemma {:induction false} LawfulAppend(m: Mgr, answers: Answers, a: seq<Effect>, b: seq<Effect>)
    requires ValidMgr(m)
    ensures Lawful(m, answers, a + b) <==> Lawful(m, answers, a) && Lawful(DoAll(m, a), answers, b)
    decreases |a|
  {
    hide Do, EffectOk;
    if a == [] {
      assert a + b == b;
    } else {
      assert (a + b)[1..] == a[1..] + b;
      LawfulAppend(Do(m, a[0]), answers, a[1..], b);
    }
  }

  lemma EffectInv(m: Mgr, hands: Hands, answers: Answers, e: Effect)
    requires ValidMgr(m) && MgrInv(m, hands, answers) && EffectOk(m, answers, e) && Do(m, e).issued < TWO16
    ensures MgrInv(Do(m, e), hands, answers)
  {
    DoIssues(m, e);
    hide MgrInv, Request, ClearRequests, Finish, CallInRange;
    match e
    case Ask(c) =>
      if Request(m, c).0.issued > m.issued {
        RequestInv(m, hands, answers, c);
      }
    case Wipe => ClearInv(m, hands, answers);
    case Report(i, status, data, err) => FinishInv(m, hands, answers, i, status, data, err);
  }

  lemma {:induction false} EffectsInv(m: Mgr, hands: Hands, answers: Answers, es: seq<Effect>)
    requires ValidMgr(m) && MgrInv(m, hands, answers) && Lawful(m, answers, es) && DoAll(m, es).issued < TWO16
    ensures MgrInv(DoAll(m, es), hands, answers)
    decreases |es|
  {
    hide MgrInv, Do, EffectOk;
    if es != [] {
      DoAllIssues(Do(m, es[0]), es[1..]);
      EffectInv(m, hands, answers, es[0]);
      EffectsInv(Do(m, es[0]), hands, answers, es[1..]);
    }
  }

  // ------------------------------------------------- the effects of a step are lawful

  lemma {:induction false} ScriptLawful(m: Mgr, answers: Answers, script: Script)
    requires ValidMgr(m) && ScriptInRange(script)
    ensures Lawful(m, answers, ScriptEffects(script))
    decreases |script|
  {
    hide Do, CallInRange;
    if script != [] {
      var es := ActEffects(script[0]);
      ScriptLawful(DoAll(m, es), answers, script[1..]);
      if es != [] {
        assert es[1..] == [];
      }
      LawfulAppend(m, answers, es, ScriptEffects(script[1..]));
    }
  }

  /** Freeing a slot that may be freed and running its callback is lawful. */
  lemma CallbackLawful(m: Mgr, hands: Hands, answers: Answers,
                       i: nat, status: Status, data: seq<byte>, err: nat, script: Script)
    requires ValidMgr(m) && MgrInv(m, hands, answers) && i < GUI_MAX_REQUESTS && ScriptInRange(script)
    requires MayFinish(m, answers, i, status, data, err)
    ensures Lawful(m, answers, CallbackEffects(m, i, status, data, err, script))
    ensures MgrInv(Finish(m, i, status, data, err), hands, answers)
  {
    hide MgrInv, Finish, MayFinish, ScriptInRange, ScriptEffects;
    FinishInv(m, hands, answers, i, status, data, err);
    var es := CallbackEffects(m, i, status, data, err, script);
    assert es[0] == Report(i, status, data, err);
    assert es[1..] == if m.slots[i].cb != NULL then ScriptEffects(script) else [];
    ScriptLawful(Finish(m, i, status, data, err), answers, script);
  }

  lemma SweepSlotLawful(m: Mgr, hands: Hands, answers: Answers,
                        now: Timeval, i: nat, script: Script)
    requires ValidMgr(m) && MgrInv(m, hands, answers) && i < GUI_MAX_REQUESTS && ScriptInRange(script)
    ensures Lawful(m, answers, SweepSlotEffects(m, now, i, script))
  {
    SlotOfMgr(m, hands, answers, i);
    hide MgrInv, IsTimeOver, CallbackEffects, ScriptInRange;
    if Expired(m.slots[i], now) {
      CallbackLawful(m, hands, answers, i, TimedOut, [], GUI_ERR_RESP_TIMEOUT, script);
    }
  }

  lemma {:induction false} SweepLawful(m: Mgr, hands: Hands, answers: Answers,
                                       now: Timeval, i: nat, scripts: seq<Script>)
    requires ValidMgr(m) && MgrInv(m, hands, answers) && i <= GUI_MAX_REQUESTS && |scripts| == GUI_MAX_REQUESTS
    requires forall j | 0 <= j < GUI_MAX_REQUESTS :: ScriptInRange(scripts[j])
    requires Sweep(m, now, i, scripts).issued < TWO16
    ensures Lawful(m, answers, SweepEffects(m, now, i, scripts))
    decreases GUI_MAX_REQUESTS - i
  {
    hide MgrInv, SweepSlot, SweepSlotEffects, ScriptInRange, Lawful;
    if i == GUI_MAX_REQUESTS {
      NothingLawful(m, answers);
    } else {
      var es, next := SweepSlotEffects(m, now, i, scripts[i]), SweepSlot(m, now, i, scripts[i]);
      SweepSlotTrace(m, now, i, scripts[i]);
      SweepTrace(next, now, i + 1, scripts);
      DoAllIssues(next, SweepEffects(next, now, i + 1, scripts));
      SweepSlotLawful(m, hands, answers, now, i, scripts[i]);
      EffectsInv(m, hands, answers, es);
      SweepLawful(next, hands, answers, now, i + 1, scripts);
      LawfulAppend(m, answers, es, SweepEffects(next, now, i + 1, scripts));
    }
  }

  lemma NothingLawful(m: Mgr, answers: Answers)
    requires ValidMgr(m)
    ensures Lawful(m, answers, [])
  {
  }

  /** The response of request s may be reported. */
  ghost predicate Reportable(m: Mgr, answers: Answers, s: nat, data: seq<byte>) {
    && s >= 1 && s in m.recs && m.recs[s].stage.Gone?
    && s in answers && data == answers[s] && LastSuccess(m.log, m.recs, s)
  }

  /** A match without a callback leaves the scan where it was. */
  lemma SilentMatch(m: Mgr, answers: Answers, s: nat, i: nat, data: seq<byte>)
    requires ValidMgr(m) && i < GUI_MAX_REQUESTS && m.slots[i].seqNum == s && m.slots[i].cb == NULL
    requires Reportable(m, answers, s, data)
    ensures Reportable(Finish(m, i, Answered, data, GUI_SUCCESS), answers, s, data)
  {
  }

  lemma MatchMayFinish(m: Mgr, answers: Answers, s: nat, i: nat, data: seq<byte>)
    requires ValidMgr(m) && i < GUI_MAX_REQUESTS && m.slots[i].seqNum == s && Reportable(m, answers, s, data)
    ensures MayFinish(m, answers, i, Answered, data, GUI_SUCCESS)
  {
  }

  lemma {:induction false} MatchLawful(m: Mgr, hands: Hands, answers: Answers,
                                       s: nat, i: nat, data: seq<byte>, script: Script)
    requires ValidMgr(m) && MgrInv(m, hands, answers) && i <= GUI_MAX_REQUESTS && ScriptInRange(script)
    requires Reportable(m, answers, s, data)
    ensures Lawful(m, answers, MatchEffects(m, s, i, data, script))
    decreases GUI_MAX_REQUESTS - i
  {
    hide MgrInv, ScriptInRange, Reportable, Finish, MayFinish, CallbackEffects, Lawful;
    if i == GUI_MAX_REQUESTS {
      NothingLawful(m, answers);
    } else if m.slots[i].seqNum == s {
      var es := CallbackEffects(m, i, Answered, data, GUI_SUCCESS, script);
      var m1 := Finish(m, i, Answered, data, GUI_SUCCESS);
      MatchMayFinish(m, answers, s, i, data);
      CallbackLawful(m, hands, answers, i, Answered, data, GUI_SUCCESS, script);
      if m.slots[i].cb != NULL {
        assert es + [] == es;
      } else {
        SilentMatch(m, answers, s, i, data);
        MatchLawful(m1, hands, answers, s, i + 1, data, script);
        CallbackTrace(m, i, Answered, data, GUI_SUCCESS, script);
        LawfulAppend(m, answers, es, MatchEffects(m1, s, i + 1, data, script));
      }
    } else {
      MatchLawful(m, hands, answers, s, i + 1, data, script);
    }
  }

  // ------------------------------------------------- delivery

  /** Whether the response at the head of the inbox gets as far as the table. */
  predicate Arrives(msg: Message, fault: Fault) {
    msg.kind == MSG_TYPE_SHORT_RESPONSE || !(fault.ShmGet? || fault.ShmAt? || fault.ShmRm?)
  }

  /** Either transport delivers the answer itself, and the 16-bit parameter does not
      lose the sequence number. */
  lemma DeliverCases(m: Mgr, answers: Answers, at: Timeval, fault: Fault, script: Script)
    requires ValidMgr(m) && m.issued < TWO16 && m.net.inbox != [] && IsResponse(m.net.inbox[0])
    requires RespMsgOk(m.net.inbox[0], m.recs, answers, m.net.shm) && 1 <= m.net.inbox[0].seqNum <= m.issued
    ensures var msg, took := m.net.inbox[0], Took(m, fault); var s := msg.seqNum;
            && took.slots == m.slots && took.issued == m.issued && took.log == m.log
            && took.recs == SetStage(m.recs, s, Gone)
            && took.net.shm == (if Arrives(msg, fault) && !Fits(answers[s]) then m.net.shm - {s} else m.net.shm)
            && took.net == Net(m.net.inbox[1..], m.net.taskQ, took.net.shm)
            && DeliverEffects(m, at, fault, script) ==
               (if Arrives(msg, fault) then MatchEffects(took, s, 0, answers[s], script) else [])
            && Deliver(m, at, fault, script) ==
               if Arrives(msg, fault) then ProcessMatches(took, s, 0, answers[s], script) else took
  {
    hide SetStage, ProcessMatches, MatchEffects;
    var msg := m.net.inbox[0];
    assert msg.seqNum % TWO16 == msg.seqNum;
    if msg.kind == MSG_TYPE_LONG_RESPONSE {
      assert m.net.shm[msg.seqNum][..msg.size] == answers[msg.seqNum];
    }
  }

  lemma TookResponse(m: Mgr, hands: Hands, answers: Answers, at: Timeval, fault: Fault, script: Script)
    requires ValidMgr(m) && MgrInv(m, hands, answers) && m.net.inbox != [] && IsResponse(m.net.inbox[0])
    requires ScriptInRange(script)
    ensures MgrInv(Took(m, fault), hands, answers)
    ensures Lawful(Took(m, fault), answers, DeliverEffects(m, at, fault, script))
  {
    assert ValidMgr(m) && m.issued < TWO16;
    var took, s := Took(m, fault), m.net.inbox[0].seqNum;
    TakeResponse(m, hands, answers, m.net.shm);
    DeliverCases(m, answers, at, fault, script);
    hide MgrInv, Took, DeliverEffects, RespMsgOk, SetStage, ScriptInRange, LastSuccess, Arrives, Lawful;
    TakeResponse(m, hands, answers, took.net.shm);
    if Arrives(m.net.inbox[0], fault) {
      MatchLawful(took, hands, answers, s, 0, answers[s], script);
    } else {
      NothingLawful(took, answers);
    }
  }

  lemma TookOther(m: Mgr, hands: Hands, answers: Answers, at: Timeval, fault: Fault, script: Script)
    requires ValidMgr(m) && MgrInv(m, hands, answers) && m.net.inbox != [] && !IsResponse(m.net.inbox[0])
    ensures MgrInv(Took(m, fault), hands, answers)
    ensures Lawful(Took(m, fault), answers, DeliverEffects(m, at, fault, script))
  {
    assert ForwardOk(m.net.inbox[0]);
    OtherMessagesInv(m, hands, answers, m.net.inbox[1..]);
    hide MgrInv, Do;
    var es := DeliverEffects(m, at, fault, script);
    if es != [] {
      assert es[1..] == [];
    }
  }

  // ------------------------------------------------- steps

  /** What a step does to the transport keeps the invariant, and its effects are lawful. */
  lemma StartInv(s: Sys, step: Step)
    requires Inv(s) && Enabled(s, step)
    requires step.SweepStep? ==> Next(s, step).mgr.issued < TWO16
    ensures Inv(Start(s, step)) && Lawful(Start(s, step).mgr, Start(s, step).answers, Effects(s, step))
  {
    assert ValidSys(s);
    var m := s.mgr;
    hide MgrInv, ScriptInRange, Took, DeliverEffects, Sweep, ScriptEffects, SweepEffects, Receive, Respond, Abandon, Do;
    match step
    case User(script) => ScriptLawful(m, s.answers, script);
    case SweepStep(now, scripts) => SweepLawful(m, s.hands, s.answers, now, 0, scripts);
    case DeliverStep(at, fault, script) =>
      if m.net.inbox != [] {
        if IsResponse(m.net.inbox[0]) {
          TookResponse(m, s.hands, s.answers, at, fault, script);
        } else {
          TookOther(m, s.hands, s.answers, at, fault, script);
        }
      }
    case ReceiveStep(t, capacity, fault) => ReceiveInv(s, t, capacity, fault);
    case RespondStep(t, isNull, bytes, fault) => RespondInv(s, t, isNull, bytes, fault);
    case AbandonStep(t) => AbandonInv(s, t);
    case ConsoleStep(id, bytes) =>
      var msg := ShortMessage(MSG_TYPE_SHORT_REQUEST, 0, id, bytes);
      assert !IsResponse(msg) && ForwardOk(msg);
      OtherMessagesInv(m, s.hands, s.answers, m.net.inbox + [msg]);
  }

  lemma NextInv(s: Sys, step: Step)
    requires Inv(s) && Enabled(s, step) && Next(s, step).mgr.issued < TWO16
    ensures Inv(Next(s, step))
  {
    assert ValidSys(s);
    hide MgrInv, Start, Next, Effects, Lawful;
    StartInv(s, step);
    NextTrace(s, step);
    EffectsInv(Start(s, step).mgr, Start(s, step).hands, Start(s, step).answers, Effects(s, step));
  }

  lemma InitInv()
    ensures Inv(Init())
  {
  }
}
