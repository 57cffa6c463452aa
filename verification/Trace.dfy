/** Every step taken apart: what it does to the transport, and then the effects on the
    pending table, one after the other.  What holds of each effect holds of all steps. */
module Trace {
  import opened Base
  import opened Deadline
  import opened Net
  import opened Pending
  import opened Protocol

  /** A call of Request, a window change, or a slot freed and its callback invoked. */
  datatype Effect =
    | Ask(call: Call)
    | Wipe
    | Report(slot: nat, status: Status, data: seq<byte>, err: nat)

  function Do(m: Mgr, e: Effect): (r: Mgr)
    requires ValidMgr(m)
    ensures ValidMgr(r)
  {
    match e
    case Ask(c) => Request(m, c).0
    case Wipe => ClearRequests(m)
    case Report(i, status, data, err) => if i < GUI_MAX_REQUESTS then Finish(m, i, status, data, err) else m
  }

  function DoAll(m: Mgr, es: seq<Effect>): (r: Mgr)
    requires ValidMgr(m)
    ensures ValidMgr(r)
    decreases |es|
  {
    if es == [] then m else DoAll(Do(m, es[0]), es[1..])
  }

  lemma {:induction false} DoAppend(m: Mgr, a: seq<Effect>, b: seq<Effect>)
    requires ValidMgr(m)
    ensures DoAll(m, a + b) == DoAll(DoAll(m, a), b)
    decreases |a|
  {
    hide Do;
    if a == [] {
      assert a + b == b;
    } else {
      assert (a + b)[1..] == a[1..] + b;
      DoAppend(Do(m, a[0]), a[1..], b);
    }
  }

  // ------------------------------------------------- scripts

  function ActEffects(a: Action): seq<Effect> {
    match a
    case DoRequest(c) => [Ask(c)]
    case DoLoadWindow => [Wipe]
    case _ => []
  }

  function ScriptEffects(script: Script): seq<Effect> {
    if script == [] then [] else ActEffects(script[0]) + ScriptEffects(script[1..])
  }

  lemma ActTrace(m: Mgr, a: Action)
    requires ValidMgr(m)
    ensures Act(m, a) == DoAll(m, ActEffects(a))
  {
    hide Request, ClearRequests;
    if ActEffects(a) != [] {
      assert ActEffects(a)[1..] == [];
      assert DoAll(Do(m, ActEffects(a)[0]), []) == Do(m, ActEffects(a)[0]);
    }
  }

  lemma {:induction false} ScriptTrace(m: Mgr, script: Script)
    requires ValidMgr(m)
    ensures RunScript(m, script) == DoAll(m, ScriptEffects(script))
    decreases |script|
  {
    hide Act, ActEffects, Do;
    if script != [] {
      ActTrace(m, script[0]);
      ScriptTrace(Act(m, script[0]), script[1..]);
      DoAppend(m, ActEffects(script[0]), ScriptEffects(script[1..]));
    }
  }

  lemma OneAct(m: Mgr, a: Action)
    requires ValidMgr(m)
    ensures RunScript(m, [a]) == Act(m, a)
  {
    hide Act;
    assert [a][1..] == [];
  }

  lemma {:induction false} RunAppend(m: Mgr, a: Script, b: Script)
    requires ValidMgr(m)
    ensures RunScript(m, a + b) == RunScript(RunScript(m, a), b)
    decreases |a|
  {
    if a == [] {
      assert a + b == b;
    } else {
      assert (a + b)[1..] == a[1..] + b;
      hide Act;
      RunAppend(Act(m, a[0]), a[1..], b);
    }
  }

  // ------------------------------------------------- callbacks, sweeps and scans

  /** Slot i is freed and its callback, if any, runs `script`. */
  function CallbackEffects(m: Mgr, i: nat, status: Status, data: seq<byte>, err: nat, script: Script): seq<Effect>
    requires ValidMgr(m) && i < GUI_MAX_REQUESTS
  {
    [Report(i, status, data, err)] + (if m.slots[i].cb != NULL then ScriptEffects(script) else [])
  }

  lemma CallbackTrace(m: Mgr, i: nat, status: Status, data: seq<byte>, err: nat, script: Script)
    requires ValidMgr(m) && i < GUI_MAX_REQUESTS
    ensures var m1 := Finish(m, i, status, data, err);
            DoAll(m, CallbackEffects(m, i, status, data, err, script)) ==
            if m.slots[i].cb != NULL then RunScript(m1, script) else m1
  {
    hide Finish, ScriptEffects, RunScript;
    var e := Report(i, status, data, err);
    var es := if m.slots[i].cb != NULL then ScriptEffects(script) else [];
    assert ([e] + es)[1..] == es;
    ScriptTrace(Finish(m, i, status, data, err), script);
  }

  function SweepSlotEffects(m: Mgr, now: Timeval, i: nat, script: Script): seq<Effect>
    requires ValidMgr(m) && i < GUI_MAX_REQUESTS
  {
    if Expired(m.slots[i], now) then CallbackEffects(m, i, TimedOut, [], GUI_ERR_RESP_TIMEOUT, script) else []
  }

  function SweepEffects(m: Mgr, now: Timeval, i: nat, scripts: seq<Script>): seq<Effect>
    requires ValidMgr(m) && i <= GUI_MAX_REQUESTS && |scripts| == GUI_MAX_REQUESTS
    decreases GUI_MAX_REQUESTS - i
  {
    if i == GUI_MAX_REQUESTS then []
    else SweepSlotEffects(m, now, i, scripts[i])
         + SweepEffects(SweepSlot(m, now, i, scripts[i]), now, i + 1, scripts)
  }

  lemma SweepSlotTrace(m: Mgr, now: Timeval, i: nat, script: Script)
    requires ValidMgr(m) && i < GUI_MAX_REQUESTS
    ensures SweepSlot(m, now, i, script) == DoAll(m, SweepSlotEffects(m, now, i, script))
  {
    hide CallbackEffects, Finish, RunScript, Expired;
    CallbackTrace(m, i, TimedOut, [], GUI_ERR_RESP_TIMEOUT, script);
  }

  lemma {:induction false} SweepTrace(m: Mgr, now: Timeval, i: nat, scripts: seq<Script>)
    requires ValidMgr(m) && i <= GUI_MAX_REQUESTS && |scripts| == GUI_MAX_REQUESTS
    ensures Sweep(m, now, i, scripts) == DoAll(m, SweepEffects(m, now, i, scripts))
    decreases GUI_MAX_REQUESTS - i
  {
    hide SweepSlot, SweepSlotEffects, Do;
    if i < GUI_MAX_REQUESTS {
      var next := SweepSlot(m, now, i, scripts[i]);
      SweepSlotTrace(m, now, i, scripts[i]);
      SweepTrace(next, now, i + 1, scripts);
      DoAppend(m, SweepSlotEffects(m, now, i, scripts[i]), SweepEffects(next, now, i + 1, scripts));
    }
  }

  function MatchEffects(m: Mgr, seqNum: nat, i: nat, data: seq<byte>, script: Script): seq<Effect>
    requires ValidMgr(m) && i <= GUI_MAX_REQUESTS
    decreases GUI_MAX_REQUESTS - i
  {
    if i == GUI_MAX_REQUESTS then []
    else if m.slots[i].seqNum == seqNum then
      CallbackEffects(m, i, Answered, data, GUI_SUCCESS, script)
      + (if m.slots[i].cb != NULL then []
         else MatchEffects(Finish(m, i, Answered, data, GUI_SUCCESS), seqNum, i + 1, data, script))
    else MatchEffects(m, seqNum, i + 1, data, script)
  }

  lemma {:induction false} MatchTrace(m: Mgr, seqNum: nat, i: nat, data: seq<byte>, script: Script)
    requires ValidMgr(m) && i <= GUI_MAX_REQUESTS
    ensures ProcessMatches(m, seqNum, i, data, script) == DoAll(m, MatchEffects(m, seqNum, i, data, script))
    decreases GUI_MAX_REQUESTS - i
  {
    hide CallbackEffects, Finish, RunScript, Do;
    if i < GUI_MAX_REQUESTS {
      if m.slots[i].seqNum == seqNum {
        var m1 := Finish(m, i, Answered, data, GUI_SUCCESS);
        var es := CallbackEffects(m, i, Answered, data, GUI_SUCCESS, script);
        CallbackTrace(m, i, Answered, data, GUI_SUCCESS, script);
        if m.slots[i].cb != NULL {
          assert es + [] == es;
        } else {
          MatchTrace(m1, seqNum, i + 1, data, script);
          DoAppend(m, es, MatchEffects(m1, seqNum, i + 1, data, script));
        }
      } else {
        MatchTrace(m, seqNum, i + 1, data, script);
      }
    }
  }

  // ------------------------------------------------- delivery

  /** The data ProcessLongResponses hands to the callback, if it gets that far. */
  function LongData(m: Mgr, msg: Message, fault: Fault): Option<seq<byte>> {
    if fault.ShmGet? || fault.ShmAt? || fault.ShmRm? then None
    else FindSegment(m.net.shm, msg.seqNum % TWO16, msg.size)
  }

  /** The manager when the message at the head of the inbox has been taken and, for a
      long response, its segment has been removed. */
  function Took(m: Mgr, fault: Fault): (r: Mgr)
    requires ValidMgr(m) && m.net.inbox != []
    ensures ValidMgr(r)
  {
    var msg := m.net.inbox[0];
    var m1 := m.(net := m.net.(inbox := m.net.inbox[1..]));
    var gone := m1.(recs := SetStage(m1.recs, msg.seqNum, Gone));
    if msg.kind == MSG_TYPE_SHORT_RESPONSE && |msg.data| == msg.size then gone
    else if msg.kind == MSG_TYPE_LONG_RESPONSE && |msg.data| == 0 then
      if LongData(m, msg, fault).None? || msg.seqNum % TWO16 == 0 then gone
      else gone.(net := gone.net.(shm := gone.net.shm - {msg.seqNum % TWO16}))
    else m1
  }

  function DeliverEffects(m: Mgr, at: Timeval, fault: Fault, script: Script): seq<Effect>
    requires ValidMgr(m) && m.net.inbox != []
  {
    var msg, m1 := m.net.inbox[0], Took(m, fault);
    if msg.kind == MSG_TYPE_SHORT_REQUEST && |msg.data| == msg.size then
      [Ask(Call(msg.id, false, msg.data, HOUR, ResponseToConsole, at, fault))]
    else if msg.kind == MSG_TYPE_SHORT_RESPONSE && |msg.data| == msg.size then
      MatchEffects(m1, msg.seqNum % TWO16, 0, msg.data, script)
    else if msg.kind == MSG_TYPE_LONG_RESPONSE && |msg.data| == 0 && LongData(m, msg, fault).Some? then
      MatchEffects(m1, msg.seqNum % TWO16, 0, LongData(m, msg, fault).value, script)
    else []
  }

  lemma DeliverTrace(m: Mgr, at: Timeval, fault: Fault, script: Script)
    requires ValidMgr(m) && m.net.inbox != []
    ensures Deliver(m, at, fault, script) == DoAll(Took(m, fault), DeliverEffects(m, at, fault, script))
  {
    hide Request, ProcessMatches, MatchEffects, SetStage, FindSegment;
    var msg, m1 := m.net.inbox[0], Took(m, fault);
    var s := msg.seqNum % TWO16;
    if msg.kind == MSG_TYPE_SHORT_REQUEST && |msg.data| == msg.size {
      var e := Ask(Call(msg.id, false, msg.data, HOUR, ResponseToConsole, at, fault));
      assert [e][1..] == [] && DoAll(Do(m1, e), []) == Do(m1, e);
    } else if msg.kind == MSG_TYPE_SHORT_RESPONSE {
      MatchTrace(m1, s, 0, msg.data, script);
    } else if LongData(m, msg, fault).Some? {
      MatchTrace(m1, s, 0, LongData(m, msg, fault).value, script);
    }
  }

  // ------------------------------------------------- steps

  /** What a step does before the first effect. */
  function Start(s: Sys, step: Step): (r: Sys)
    requires ValidSys(s) && Enabled(s, step)
    ensures ValidSys(r)
  {
    match step
    case User(_) => s
    case SweepStep(_, _) => s
    case DeliverStep(_, fault, _) => if s.mgr.net.inbox == [] then s else s.(mgr := Took(s.mgr, fault))
    case _ => Next(s, step)
  }

  function Effects(s: Sys, step: Step): seq<Effect>
    requires ValidSys(s) && Enabled(s, step)
  {
    match step
    case User(script) => ScriptEffects(script)
    case SweepStep(now, scripts) => SweepEffects(s.mgr, now, 0, scripts)
    case DeliverStep(at, fault, script) =>
      if s.mgr.net.inbox == [] then [] else DeliverEffects(s.mgr, at, fault, script)
    case _ => []
  }

  lemma NextTrace(s: Sys, step: Step)
    requires ValidSys(s) && Enabled(s, step)
    ensures var s' := Start(s, step); Next(s, step) == s'.(mgr := DoAll(s'.mgr, Effects(s, step)))
  {
    hide Took, RunScript, Sweep, Receive, Respond, Abandon, Console, ScriptEffects, SweepEffects, DeliverEffects;
    match step
    case User(script) => ScriptTrace(s.mgr, script);
    case SweepStep(now, scripts) => SweepTrace(s.mgr, now, 0, scripts);
    case DeliverStep(at, fault, script) =>
      if s.mgr.net.inbox != [] {
        DeliverTrace(s.mgr, at, fault, script);
      }
    case _ =>
  }

  // ------------------------------------------------- sequence numbers only grow

  lemma DoIssues(m: Mgr, e: Effect)
    requires ValidMgr(m)
    ensures m.issued <= Do(m, e).issued <= m.issued + 1
    ensures Do(m, e).issued > m.issued ==> e.Ask?
    ensures e.Ask? && Do(m, e).issued == m.issued ==> Do(m, e) == m
  {
    hide SendRequest, FirstFree, SetStatus, DropWaiting;
  }

  lemma {:induction false} DoAllIssues(m: Mgr, es: seq<Effect>)
    requires ValidMgr(m)
    ensures DoAll(m, es).issued >= m.issued
    decreases |es|
  {
    if es != [] {
      DoIssues(m, es[0]);
      hide Do;
      DoAllIssues(Do(m, es[0]), es[1..]);
    }
  }

  lemma StartIssues(s: Sys, step: Step)
    requires ValidSys(s) && Enabled(s, step)
    ensures Start(s, step).mgr.issued == s.mgr.issued && Start(s, step).mgr.slots == s.mgr.slots
            && Start(s, step).mgr.log == s.mgr.log
  {
    hide RunScript, Sweep, Deliver, WaitForRequest, Response, SetStage, LongData;
  }

  lemma NextIssues(s: Sys, step: Step)
    requires ValidSys(s) && Enabled(s, step)
    ensures Next(s, step).mgr.issued >= s.mgr.issued
  {
    hide Start, Next;
    NextTrace(s, step);
    StartIssues(s, step);
    DoAllIssues(Start(s, step).mgr, Effects(s, step));
  }

  // ------------------------------------------------- runs, step by step

  lemma EmptyRun()
    ensures IsRun([Init()], []) && ScriptInRange([])
  {
  }

  lemma TwoSteps(a: Step, b: Step)
    requires Enabled(Init(), a) && Enabled(Next(Init(), a), b)
    ensures IsRun([Init(), Next(Init(), a), Next(Next(Init(), a), b)], [a, b])
  {
    hide Next, Enabled, Init;
  }

  lemma RunGoesOn(states: seq<Sys>, steps: seq<Step>, step: Step)
    requires IsRun(states, steps) && ValidSys(states[|steps|]) && Enabled(states[|steps|], step)
    ensures IsRun(states + [Next(states[|steps|], step)], steps + [step])
  {
    hide Next, Enabled;
  }
}
