/** Why a request ended as it did: nothing times out before it is due, and only a window
    change drops anything. */
module Outcomes {
  import opened Base
  import opened Deadline
  import opened Net
  import opened Pending
  import opened Protocol
  import opened ProtocolRuns
  import opened Trace
  import opened Scripts
  import opened Theorems

  /** Some callback of the step loads a window. */
  predicate StepLoads(step: Step) {
    match step
    case User(script) => Loads(script)
    case DeliverStep(_, _, script) => Loads(script)
    case SweepStep(_, scripts) => exists i :: 0 <= i < |scripts| && Loads(scripts[i])
    case _ => false
  }

  function SweepTime(step: Step): Option<Timeval> {
    if step.SweepStep? then Some(step.now) else None
  }

  /** Slots are wiped only if a window is loaded, and reported as timed out only if they
      are expired at the time of the sweep. */
  predicate EffectCaused(m: Mgr, e: Effect, loads: bool, sweep: Option<Timeval>)
    requires ValidMgr(m)
  {
    && (e.Wipe? ==> loads)
    && !(e.Report? && e.status.Dropped?)
    && (e.Report? && e.status.TimedOut? ==>
          sweep.Some? && e.slot < GUI_MAX_REQUESTS && Expired(m.slots[e.slot], sweep.value))
  }

  predicate Caused(m: Mgr, es: seq<Effect>, loads: bool, sweep: Option<Timeval>)
    requires ValidMgr(m)
    decreases |es|
  {
    es == [] || (EffectCaused(m, es[0], loads, sweep) && Caused(Do(m, es[0]), es[1..], loads, sweep))
  }

  lemma {:induction false} CausedAppend(m: Mgr, a: seq<Effect>, b: seq<Effect>, loads: bool, sweep: Option<Timeval>)
    requires ValidMgr(m)
    ensures Caused(m, a + b, loads, sweep) <==> Caused(m, a, loads, sweep) && Caused(DoAll(m, a), b, loads, sweep)
    decreases |a|
  {
    hide Do, EffectCaused;
    if a == [] {
      assert a + b == b;
    } else {
      assert (a + b)[1..] == a[1..] + b;
      CausedAppend(Do(m, a[0]), a[1..], b, loads, sweep);
    }
  }

  lemma {:induction false} ScriptCaused(m: Mgr, script: Script, loads: bool, sweep: Option<Timeval>)
    requires ValidMgr(m) && (Loads(script) ==> loads)
    ensures Caused(m, ScriptEffects(script), loads, sweep)
    decreases |script|
  {
    hide Do;
    if script != [] {
      var es := ActEffects(script[0]);
      if es != [] {
        assert es[1..] == [];
      }
      ScriptCaused(DoAll(m, es), script[1..], loads, sweep);
      CausedAppend(m, es, ScriptEffects(script[1..]), loads, sweep);
    }
  }

  lemma CallbackCaused(m: Mgr, i: nat, status: Status, data: seq<byte>, err: nat, script: Script,
                       loads: bool, sweep: Option<Timeval>)
    requires ValidMgr(m) && i < GUI_MAX_REQUESTS && (Loads(script) ==> loads)
    requires EffectCaused(m, Report(i, status, data, err), loads, sweep)
    ensures Caused(m, CallbackEffects(m, i, status, data, err, script), loads, sweep)
  {
    hide Finish, EffectCaused, ScriptEffects, Loads;
    var es := CallbackEffects(m, i, status, data, err, script);
    assert es[0] == Report(i, status, data, err);
    assert es[1..] == if m.slots[i].cb != NULL then ScriptEffects(script) else [];
    ScriptCaused(Finish(m, i, status, data, err), script, loads, sweep);
  }

  lemma {:induction false} SweepCaused(m: Mgr, now: Timeval, i: nat, scripts: seq<Script>, loads: bool)
    requires ValidMgr(m) && i <= GUI_MAX_REQUESTS && |scripts| == GUI_MAX_REQUESTS
    requires forall j | 0 <= j < GUI_MAX_REQUESTS && Loads(scripts[j]) :: loads
    ensures Caused(m, SweepEffects(m, now, i, scripts), loads, Some(now))
    decreases GUI_MAX_REQUESTS - i
  {
    hide SweepSlot, IsTimeOver, CallbackEffects, Loads, Do;
    if i < GUI_MAX_REQUESTS {
      var es, next := SweepSlotEffects(m, now, i, scripts[i]), SweepSlot(m, now, i, scripts[i]);
      if Expired(m.slots[i], now) {
        CallbackCaused(m, i, TimedOut, [], GUI_ERR_RESP_TIMEOUT, scripts[i], loads, Some(now));
      }
      SweepSlotTrace(m, now, i, scripts[i]);
      SweepCaused(next, now, i + 1, scripts, loads);
      CausedAppend(m, es, SweepEffects(next, now, i + 1, scripts), loads, Some(now));
    }
  }

  lemma {:induction false} MatchCaused(m: Mgr, s: nat, i: nat, data: seq<byte>, script: Script, loads: bool)
    requires ValidMgr(m) && i <= GUI_MAX_REQUESTS && (Loads(script) ==> loads)
    ensures Caused(m, MatchEffects(m, s, i, data, script), loads, None)
    decreases GUI_MAX_REQUESTS - i
  {
    hide Finish, CallbackEffects, Loads, Do;
    if i < GUI_MAX_REQUESTS {
      if m.slots[i].seqNum == s {
        var es := CallbackEffects(m, i, Answered, data, GUI_SUCCESS, script);
        var next := Finish(m, i, Answered, data, GUI_SUCCESS);
        CallbackCaused(m, i, Answered, data, GUI_SUCCESS, script, loads, None);
        if m.slots[i].cb != NULL {
          assert es + [] == es;
        } else {
          CallbackTrace(m, i, Answered, data, GUI_SUCCESS, script);
          MatchCaused(next, s, i + 1, data, script, loads);
          CausedAppend(m, es, MatchEffects(next, s, i + 1, data, script), loads, None);
        }
      } else {
        MatchCaused(m, s, i + 1, data, script, loads);
      }
    }
  }

  lemma StepCaused(s: Sys, step: Step)
    requires ValidSys(s) && Enabled(s, step)
    ensures Caused(Start(s, step).mgr, Effects(s, step), StepLoads(step), SweepTime(step))
  {
    hide MatchEffects, ScriptEffects, SweepEffects, Took, LongData, Loads, Do;
    var loads := StepLoads(step);
    match step
    case User(script) => ScriptCaused(s.mgr, script, loads, None);
    case SweepStep(now, scripts) => SweepCaused(s.mgr, now, 0, scripts, loads);
    case DeliverStep(at, fault, script) =>
      if s.mgr.net.inbox != [] {
        var msg, took := s.mgr.net.inbox[0], Took(s.mgr, fault);
        var es := DeliverEffects(s.mgr, at, fault, script);
        MatchCaused(took, msg.seqNum % TWO16, 0, msg.data, script, loads);
        if LongData(s.mgr, msg, fault).Some? {
          MatchCaused(took, msg.seqNum % TWO16, 0, LongData(s.mgr, msg, fault).value, script, loads);
        }
        if es != [] && es[0].Ask? {
          assert msg.kind == MSG_TYPE_SHORT_REQUEST ==> es[1..] == [];
        }
      }
    case _ =>
  }

  // ------------------------------------------------- what that means for a request

  /** Compared with before, request s was dropped only if a window was loaded and timed
      out only if the sweep found it due. */
  predicate Explained(before: Recs, after: Recs, s: nat, loads: bool, sweep: Option<Timeval>) {
    s in after ==>
      && (after[s].status.Dropped? ==> loads || (s in before && before[s].status.Dropped?))
      && (after[s].status.TimedOut? ==>
            || (s in before && before[s].status.TimedOut?)
            || (sweep.Some? && IsTimeOver(sweep.value, after[s].expires)))
  }

  lemma EffectExplained(m: Mgr, hands: Hands, answers: Answers, e: Effect,
                        s: nat, loads: bool, sweep: Option<Timeval>)
    requires ValidMgr(m) && MgrInv(m, hands, answers) && EffectOk(m, answers, e) && EffectCaused(m, e, loads, sweep)
    ensures Explained(m.recs, Do(m, e).recs, s, loads, sweep)
  {
    if e.Report? {
      SlotOfMgr(m, hands, answers, e.slot);
    }
    hide MgrInv, SendRequest, FirstFree, IsTimeOver, CallInRange, ExpiresAt;
  }

  lemma {:induction false} EffectsExplained(m: Mgr, hands: Hands, answers: Answers, es: seq<Effect>,
                                            s: nat, loads: bool, sweep: Option<Timeval>)
    requires ValidMgr(m) && MgrInv(m, hands, answers) && Lawful(m, answers, es) && Caused(m, es, loads, sweep)
    requires DoAll(m, es).issued < TWO16
    ensures Explained(m.recs, DoAll(m, es).recs, s, loads, sweep)
    decreases |es|
  {
    hide MgrInv, Do, EffectOk, EffectCaused, IsTimeOver;
    if es != [] {
      var next := Do(m, es[0]);
      DoAllIssues(next, es[1..]);
      EffectInv(m, hands, answers, es[0]);
      EffectExplained(m, hands, answers, es[0], s, loads, sweep);
      EffectsExplained(next, hands, answers, es[1..], s, loads, sweep);
      EffectsGrow(next, hands, answers, es[1..]);
    }
  }

  lemma StartExplained(s: Sys, step: Step, r: nat)
    requires ValidSys(s) && Enabled(s, step)
    ensures Explained(s.mgr.recs, Start(s, step).mgr.recs, r, false, None)
  {
    StartStage(s, step);
    hide Start, Enabled;
  }

  lemma NextExplained(s: Sys, step: Step, r: nat)
    requires Inv(s) && Enabled(s, step) && Next(s, step).mgr.issued < TWO16
    ensures Explained(s.mgr.recs, Next(s, step).mgr.recs, r, StepLoads(step), SweepTime(step))
  {
    assert ValidSys(s);
    hide MgrInv, Start, Next, Effects, Lawful, Caused, StepLoads, SweepTime, IsTimeOver;
    var s' := Start(s, step);
    StartInv(s, step);
    StartExplained(s, step, r);
    StepCaused(s, step);
    NextTrace(s, step);
    EffectsExplained(s'.mgr, s'.hands, s'.answers, Effects(s, step), r, StepLoads(step), SweepTime(step));
    EffectsGrow(s'.mgr, s'.hands, s'.answers, Effects(s, step));
  }

  ghost predicate HasStatus(s: Sys, r: nat, status: Status) {
    r in s.mgr.recs && s.mgr.recs[r].status == status
  }

  /** Step i times request r out: it is a sweep at which the deadline had been reached. */
  ghost predicate TimesOut(states: seq<Sys>, steps: seq<Step>, i: nat, r: nat, expires: Timeval) {
    && i < |steps| && i + 1 < |states|
    && !HasStatus(states[i], r, TimedOut) && HasStatus(states[i + 1], r, TimedOut)
    && steps[i].SweepStep? && IsTimeOver(steps[i].now, expires)
  }

  /** Step i drops request r: one of its callbacks loads a window. */
  ghost predicate Drops(states: seq<Sys>, steps: seq<Step>, i: nat, r: nat) {
    && i < |steps| && i + 1 < |states|
    && !HasStatus(states[i], r, Dropped) && HasStatus(states[i + 1], r, Dropped)
    && StepLoads(steps[i])
  }

  /** In every run a timed-out request was timed out by a sweep at which it was due, and a
      dropped one by a window change. */
  lemma {:induction false} RunExplained(states: seq<Sys>, steps: seq<Step>, k: nat, r: nat)
    requires IsRun(states, steps) && k < |states| && states[k].mgr.issued < TWO16 && r in states[k].mgr.recs
    ensures var q := states[k].mgr.recs[r];
            && (q.status.TimedOut? ==> exists i: nat :: i < k && TimesOut(states, steps, i, r, q.expires))
            && (q.status.Dropped? ==> exists i: nat :: i < k && Drops(states, steps, i, r))
  {
    hide Inv, Next, Enabled, StepLoads, IsTimeOver;
    if k > 0 {
      NextIssues(states[k - 1], steps[k - 1]);
      RunInv(states, steps, k - 1);
      NextExplained(states[k - 1], steps[k - 1], r);
      var q := states[k].mgr.recs[r];
      if HasStatus(states[k - 1], r, q.status) {
        NextGrows(states[k - 1], steps[k - 1]);
        RunExplained(states, steps, k - 1, r);
      } else if q.status.TimedOut? {
        assert TimesOut(states, steps, k - 1, r, q.expires);
      } else if q.status.Dropped? {
        assert Drops(states, steps, k - 1, r);
      }
    }
  }

  /** A callback run with GUI_ERR_RESP_TIMEOUT was run by a sweep that found the deadline
      of its request reached. */
  lemma TimeoutsAreDue(states: seq<Sys>, steps: seq<Step>, k: nat, j: nat)
    requires IsRun(states, steps) && k < |states| && states[k].mgr.issued < TWO16
    requires j < |states[k].mgr.log| && states[k].mgr.log[j].err == GUI_ERR_RESP_TIMEOUT
    ensures var s := states[k].mgr.log[j].seqNum;
            && s in states[k].mgr.recs
            && exists i: nat :: i < k && TimesOut(states, steps, i, s, states[k].mgr.recs[s].expires)
  {
    RunInv(states, steps, k);
    var e := states[k].mgr.log[j];
    assert EventOk(e, states[k].mgr.recs, states[k].answers) by {
      hide TableOk, RecsOk, RankOk, StatusOk, AnswersOk, QueuesOk, InboxOk, PlacesOk, HandsOk, ShmOk, IsRun;
    }
    hide Inv, IsRun, TimesOut;
    RunExplained(states, steps, k, e.seqNum);
  }
}
