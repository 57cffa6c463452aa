/** The response-timeout sweep under callbacks that call back into the request table. */
module Sweeps {
  import opened Base
  import opened Deadline
  import opened Net
  import opened Pending
  import opened Protocol
  import opened Trace
  import opened Scripts
  import opened Delivery
  import opened LongRuns

  // ------------------------------------------------- punctual callbacks

  predicate PunctualCall(c: Call, now: Timeval) {
    Normal(c.at) && IsTimeOver(c.at, now) && c.timeout > 0
  }

  /** During a sweep at `now` the script gives every request it issues a positive
      timeout, and clocks do not run backwards. */
  predicate PunctualScript(script: Script, now: Timeval) {
    forall k | 0 <= k < |script| && script[k].DoRequest? :: PunctualCall(script[k].call, now)
  }

  /** The sweep frees this slot and calls back. */
  predicate CallsBack(slot: Slot, now: Timeval) {
    Expired(slot, now) && slot.cb != NULL
  }

  /** The invocations the sweep owes: one per expired slot with a callback, in slot
      order, until a callback loads a window. */
  function TimeoutEvents(slots: seq<Slot>, now: Timeval, i: nat, scripts: seq<Script>): seq<Event>
    requires i <= |slots| == |scripts|
    decreases |slots| - i
  {
    if i == |slots| then []
    else if CallsBack(slots[i], now) then
      [Event(slots[i].seqNum, slots[i].cb, [], GUI_ERR_RESP_TIMEOUT)]
      + (if Loads(scripts[i]) then [] else TimeoutEvents(slots, now, i + 1, scripts))
    else TimeoutEvents(slots, now, i + 1, scripts)
  }

  /** A callback owed from slot i on loads a window. */
  predicate WindowDue(slots: seq<Slot>, now: Timeval, i: nat, scripts: seq<Script>)
    requires i <= |slots| == |scripts|
    decreases |slots| - i
  {
    i < |slots| && ((CallsBack(slots[i], now) && Loads(scripts[i])) || WindowDue(slots, now, i + 1, scripts))
  }

  lemma {:induction false} TimeoutEventsCount(slots: seq<Slot>, now: Timeval, i: nat, scripts: seq<Script>)
    requires i <= |slots| == |scripts|
    ensures |TimeoutEvents(slots, now, i, scripts)| <= |slots| - i
    decreases |slots| - i
  {
    if i < |slots| {
      TimeoutEventsCount(slots, now, i + 1, scripts);
    }
  }

  ghost predicate NoneExpired(slots: seq<Slot>, now: Timeval) {
    forall j | 0 <= j < |slots| :: !Expired(slots[j], now)
  }

  /** Compared with the table `was`: used slots are untouched, free ones may have been
      filled with requests that are not over at `now`. */
  ghost predicate Refilled(was: seq<Slot>, slots: seq<Slot>, now: Timeval) {
    && |slots| == |was|
    && forall j | 0 <= j < |was| :: if was[j].id != 0 then slots[j] == was[j] else !Expired(slots[j], now)
  }

  lemma RequestRefills(m: Mgr, c: Call, now: Timeval)
    requires ValidMgr(m) && Normal(now) && PunctualCall(c, now)
    ensures Refilled(m.slots, Request(m, c).0.slots, now)
  {
    hide SendRequest, ExpiresAt;
    OverWhenElapsed(now, c.at, c.timeout);
  }

  lemma RefilledTwice(a: seq<Slot>, b: seq<Slot>, c: seq<Slot>, now: Timeval)
    requires Refilled(b, c, now)
    ensures Refilled(a, b, now) ==> Refilled(a, c, now)
    ensures NoneExpired(b, now) ==> NoneExpired(c, now)
  {
  }

  lemma {:induction false} ScriptRefills(m: Mgr, script: Script, now: Timeval)
    requires ValidMgr(m) && Normal(now) && PunctualScript(script, now)
    ensures var slots := RunScript(m, script).slots;
            if Loads(script) then NoneExpired(slots, now) else Refilled(m.slots, slots, now)
    decreases |script|
  {
    if script == [] {
      NothingRefilled(m.slots, now);
    } else {
      var next := Act(m, script[0]);
      if script[0].DoRequest? {
        RequestRefills(m, script[0].call, now);
      } else if script[0].DoLoadWindow? {
        ClearExpiresNone(m, now);
      } else {
        NothingRefilled(m.slots, now);
      }
      hide Request, ClearRequests, NoneExpired, Refilled, IsTimeOver;
      ScriptRefills(next, script[1..], now);
      if !Loads(script[1..]) {
        RefilledTwice(m.slots, next.slots, RunScript(m, script).slots, now);
      }
    }
  }

  lemma NothingRefilled(slots: seq<Slot>, now: Timeval)
    ensures Refilled(slots, slots, now)
  {
  }

  lemma ClearExpiresNone(m: Mgr, now: Timeval)
    requires ValidMgr(m)
    ensures NoneExpired(ClearRequests(m).slots, now)
  {
  }

  /** Where the table stands after the sweep has passed slots 0..i of `was` and no
      callback has loaded a window. */
  ghost predicate Swept(was: seq<Slot>, slots: seq<Slot>, now: Timeval, i: nat) {
    && |slots| == |was|
    && forall j | 0 <= j < |was| ::
         if was[j].id != 0 && (j >= i || !Expired(was[j], now)) then slots[j] == was[j] else !Expired(slots[j], now)
  }

  lemma SweepSlotStep(was: seq<Slot>, m: Mgr, now: Timeval, i: nat, script: Script)
    requires ValidMgr(m) && Normal(now) && i < GUI_MAX_REQUESTS && PunctualScript(script, now)
    requires Swept(was, m.slots, now, i)
    ensures var m' := SweepSlot(m, now, i, script);
            && (if CallsBack(was[i], now) && Loads(script) then NoneExpired(m'.slots, now)
                else Swept(was, m'.slots, now, i + 1))
            && m'.log == m.log + (if CallsBack(was[i], now)
                                  then [Event(was[i].seqNum, was[i].cb, [], GUI_ERR_RESP_TIMEOUT)] else [])
  {
    hide IsTimeOver, RunScript, PunctualScript;
    if Expired(m.slots[i], now) {
      var m1 := Finish(m, i, TimedOut, [], GUI_ERR_RESP_TIMEOUT);
      ScriptRefills(m1, script, now);
      ScriptsDoNotLog(m1, script);
    }
  }

  lemma {:induction false} SweepNothing(m: Mgr, now: Timeval, i: nat, scripts: seq<Script>)
    requires ValidMgr(m) && i <= GUI_MAX_REQUESTS && |scripts| == GUI_MAX_REQUESTS
    requires forall j | i <= j < GUI_MAX_REQUESTS :: !Expired(m.slots[j], now)
    ensures Sweep(m, now, i, scripts) == m
    decreases GUI_MAX_REQUESTS - i
  {
    if i < GUI_MAX_REQUESTS {
      SweepNothing(m, now, i + 1, scripts);
    }
  }

  lemma SweepIdle(m: Mgr, now: Timeval, i: nat, scripts: seq<Script>)
    requires ValidMgr(m) && i <= GUI_MAX_REQUESTS && |scripts| == GUI_MAX_REQUESTS && NoneExpired(m.slots, now)
    ensures Sweep(m, now, i, scripts) == m
  {
    SweepNothing(m, now, i, scripts);
  }

  lemma {:induction false} SweepFrom(was: seq<Slot>, m: Mgr, now: Timeval, i: nat, scripts: seq<Script>)
    requires ValidMgr(m) && Normal(now) && i <= GUI_MAX_REQUESTS == |scripts| == |was|
    requires forall j | 0 <= j < GUI_MAX_REQUESTS :: PunctualScript(scripts[j], now)
    requires Swept(was, m.slots, now, i)
    ensures var m' := Sweep(m, now, i, scripts);
            && (if WindowDue(was, now, i, scripts) then NoneExpired(m'.slots, now)
                else Swept(was, m'.slots, now, GUI_MAX_REQUESTS))
            && m'.log == m.log + TimeoutEvents(was, now, i, scripts)
    decreases GUI_MAX_REQUESTS - i
  {
    hide CallsBack, SweepSlot, PunctualScript, Swept, NoneExpired;
    if i < GUI_MAX_REQUESTS {
      var next := SweepSlot(m, now, i, scripts[i]);
      SweepSlotStep(was, m, now, i, scripts[i]);
      if CallsBack(was[i], now) && Loads(scripts[i]) {
        SweepIdle(next, now, i + 1, scripts);
      } else {
        SweepFrom(was, next, now, i + 1, scripts);
      }
    }
  }

  /** The sweep runs exactly the callbacks of the requests that had expired when it
      began, once each and in slot order, up to the first that loads a window.  Without
      one every other pending request is untouched, and a request issued by a callback
      survives even in a slot the sweep has yet to reach. */
  lemma SweepExact(m: Mgr, now: Timeval, scripts: seq<Script>)
    requires ValidMgr(m) && Normal(now) && |scripts| == GUI_MAX_REQUESTS
    requires forall j | 0 <= j < GUI_MAX_REQUESTS :: PunctualScript(scripts[j], now)
    ensures var m' := Sweep(m, now, 0, scripts);
            && m'.log == m.log + TimeoutEvents(m.slots, now, 0, scripts)
            && |TimeoutEvents(m.slots, now, 0, scripts)| <= GUI_MAX_REQUESTS
            && forall j | 0 <= j < GUI_MAX_REQUESTS ::
                 if m.slots[j].id != 0 && !Expired(m.slots[j], now) && !WindowDue(m.slots, now, 0, scripts)
                 then m'.slots[j] == m.slots[j] else !Expired(m'.slots[j], now)
  {
    hide IsTimeOver, Sweep, PunctualScript;
    assert forall j | 0 <= j < GUI_MAX_REQUESTS && m.slots[j].id == 0 :: !Expired(m.slots[j], now);
    SweepFrom(m.slots, m, now, 0, scripts);
    TimeoutEventsCount(m.slots, now, 0, scripts);
  }

  /** An accepted request is in the first free slot, and a sweep at `now` finds it
      expired exactly when its timeout has passed since it was made. */
  lemma DueWhenElapsed(m: Mgr, c: Call, now: Timeval)
    requires ValidMgr(m) && Normal(now) && Normal(c.at) && Request(m, c).1 == GUI_SUCCESS
    ensures var i := FirstFree(m.slots, 0); var m' := Request(m, c).0;
            && i < GUI_MAX_REQUESTS
            && m'.slots[i].seqNum == NextSeqNum(m.issued) && m'.slots[i].id == c.id && m'.slots[i].cb == c.cb
            && (Expired(m'.slots[i], now) <==> Micros(now) - Micros(c.at) >= c.timeout * 1000)
            && forall j | 0 <= j < GUI_MAX_REQUESTS && j != i :: m'.slots[j] == m.slots[j]
  {
  }

  // ------------------------------------------------- any callbacks at all

  /** Whatever the callbacks do, one sweep runs at most one per slot, all of them with
      GUI_ERR_RESP_TIMEOUT. */
  lemma {:induction false} SweepBound(m: Mgr, now: Timeval, i: nat, scripts: seq<Script>)
    requires ValidMgr(m) && i <= GUI_MAX_REQUESTS && |scripts| == GUI_MAX_REQUESTS
    ensures var log' := Sweep(m, now, i, scripts).log;
            && m.log <= log' && |log'| <= |m.log| + GUI_MAX_REQUESTS - i
            && forall k | |m.log| <= k < |log'| :: log'[k].err == GUI_ERR_RESP_TIMEOUT && log'[k].data == []
    decreases GUI_MAX_REQUESTS - i
  {
    if i < GUI_MAX_REQUESTS {
      var next := SweepSlot(m, now, i, scripts[i]);
      TurnBound(m, now, i, scripts[i]);
      hide SweepSlot;
      SweepBound(next, now, i + 1, scripts);
    }
  }

  lemma TurnBound(m: Mgr, now: Timeval, i: nat, script: Script)
    requires ValidMgr(m) && i < GUI_MAX_REQUESTS
    ensures var log' := SweepSlot(m, now, i, script).log;
            || log' == m.log
            || (&& |log'| == |m.log| + 1 && m.log <= log'
                && log'[|m.log|].err == GUI_ERR_RESP_TIMEOUT && log'[|m.log|].data == [])
  {
    hide IsTimeOver, RunScript;
    ScriptsDoNotLog(Finish(m, i, TimedOut, [], GUI_ERR_RESP_TIMEOUT), script);
  }

  /** The sweep, having come to slot i, runs a callback from a slot before j that loads
      a window. */
  predicate WindowBefore(m: Mgr, now: Timeval, i: nat, scripts: seq<Script>, j: nat)
    requires ValidMgr(m) && i <= GUI_MAX_REQUESTS && |scripts| == GUI_MAX_REQUESTS
    decreases GUI_MAX_REQUESTS - i
  {
    && i < GUI_MAX_REQUESTS && i < j
    && (|| (CallsBack(m.slots[i], now) && Loads(scripts[i]))
        || WindowBefore(SweepSlot(m, now, i, scripts[i]), now, i + 1, scripts, j))
  }

  lemma ClearGone(m: Mgr, s: nat)
    requires Numbered(m) && 1 <= s <= m.issued
    ensures !HoldsNumber(ClearRequests(m).slots, s) && ClearRequests(m).log == m.log && Numbered(ClearRequests(m))
  {
    ClearKeeps(m);
  }

  /** A window change in a callback takes every number out of the table for good. */
  lemma {:induction false} LoadsGone(m: Mgr, script: Script, s: nat)
    requires Numbered(m) && Loads(script) && RunScript(m, script).issued < TWO32 && 1 <= s <= m.issued
    ensures !HoldsNumber(RunScript(m, script).slots, s)
    decreases |script|
  {
    assert ValidMgr(m);
    hide Numbered, Request, ClearRequests, HoldsNumber;
    var next := Act(m, script[0]);
    ScriptsDoNotLog(next, script[1..]);
    ActIssues(m, script[0]);
    ScriptTrace(next, script[1..]);
    if script[0].DoLoadWindow? {
      ClearGone(m, s);
      EffectsGone(next, ScriptEffects(script[1..]), s);
    } else {
      if script[0].DoRequest? {
        EffectKeeps(m, Ask(script[0].call));
      }
      LoadsGone(next, script[1..], s);
    }
  }

  /** The rest of a sweep does not bring a number back. */
  lemma SweepGone(m: Mgr, now: Timeval, i: nat, scripts: seq<Script>, s: nat)
    requires Numbered(m) && i <= GUI_MAX_REQUESTS && |scripts| == GUI_MAX_REQUESTS
    requires Sweep(m, now, i, scripts).issued < TWO32 && 1 <= s <= m.issued && !HoldsNumber(m.slots, s)
    ensures !HoldsNumber(Sweep(m, now, i, scripts).slots, s)
    ensures m.log <= Sweep(m, now, i, scripts).log
    ensures !ReportedFrom(Sweep(m, now, i, scripts).log, |m.log|, s)
  {
    assert ValidMgr(m);
    hide Numbered, HoldsNumber, Sweep, DoAll;
    SweepTrace(m, now, i, scripts);
    EffectsGone(m, SweepEffects(m, now, i, scripts), s);
  }

  lemma SlotGone(m: Mgr, i: nat, err: nat)
    requires Numbered(m) && i < GUI_MAX_REQUESTS && m.slots[i] != CLEARED
    ensures var m1 := Finish(m, i, TimedOut, [], err);
            Numbered(m1) && !HoldsNumber(m1.slots, m.slots[i].seqNum) && 1 <= m.slots[i].seqNum <= m.issued
  {
    FinishKeeps(m, i, TimedOut, [], err);
  }

  /** What one turn of the sweep, at slot i, does to the request in slot j. */
  lemma TurnFate(m: Mgr, now: Timeval, i: nat, script: Script, j: nat)
    requires Numbered(m) && i < GUI_MAX_REQUESTS && SweepSlot(m, now, i, script).issued < TWO32
    requires j < GUI_MAX_REQUESTS && m.slots[j].id != 0
    ensures var m', slot := SweepSlot(m, now, i, script), m.slots[j];
            && Numbered(m') && 1 <= slot.seqNum <= m.issued <= m'.issued
            && m'.log == m.log + (if CallsBack(m.slots[i], now)
                                  then [Event(m.slots[i].seqNum, m.slots[i].cb, [], GUI_ERR_RESP_TIMEOUT)] else [])
            && (if (i == j && Expired(slot, now)) || (CallsBack(m.slots[i], now) && Loads(script))
                then !HoldsNumber(m'.slots, slot.seqNum)
                else m'.slots[j] == slot)
            && (i != j ==> m.slots[i].seqNum != slot.seqNum)
  {
    assert ValidMgr(m) && m.slots[j] != CLEARED && m.slots[j].seqNum != 0;
    assert i != j ==> m.slots[i].seqNum != m.slots[j].seqNum by {
      hide LogDistinct;
    }
    hide IsTimeOver, RunScript, HoldsNumber, TableWf, LogDistinct;
    if Expired(m.slots[i], now) {
      var m1, s := Finish(m, i, TimedOut, [], GUI_ERR_RESP_TIMEOUT), m.slots[j].seqNum;
      SlotGone(m, i, GUI_ERR_RESP_TIMEOUT);
      if m.slots[i].cb != NULL {
        ScriptsDoNotLog(m1, script);
        ScriptTrace(m1, script);
        hide Finish, DoAll;
        EffectsKeep(m1, ScriptEffects(script));
        if Loads(script) {
          LoadsGone(m1, script, s);
        } else {
          ScriptUntouched(m1, script);
          if i == j {
            EffectsGone(m1, ScriptEffects(script), s);
          }
        }
      }
    }
  }

  /** Reported by the first entry of one of two stretches of the log. */
  lemma ReportedInTwo(a: seq<Event>, b: seq<Event>, c: seq<Event>, s: nat)
    requires a <= b <= c
    ensures ReportedFrom(c, |a|, s) <==> ReportedFrom(b, |a|, s) || ReportedFrom(c, |b|, s)
  {
    if k :| |a| <= k < |c| && c[k].seqNum == s && k < |b| {
      assert b[k].seqNum == s;
    }
    if k :| |a| <= k < |b| && b[k].seqNum == s {
      assert c[k].seqNum == s;
    }
  }

  lemma ReportedOnce(log: seq<Event>, e: Event, s: nat)
    ensures ReportedFrom(log + [e], |log|, s) <==> e.seqNum == s
    ensures !ReportedFrom(log, |log|, s)
  {
    assert (log + [e])[|log|] == e;
  }

  lemma SweepLogGrows(m: Mgr, now: Timeval, i: nat, scripts: seq<Script>)
    requires ValidMgr(m) && i <= GUI_MAX_REQUESTS && |scripts| == GUI_MAX_REQUESTS
    ensures m.log <= Sweep(m, now, i, scripts).log && Sweep(m, now, i, scripts).issued >= m.issued
  {
    hide Sweep, DoAll;
    SweepBound(m, now, i, scripts);
    SweepTrace(m, now, i, scripts);
    DoAllIssues(m, SweepEffects(m, now, i, scripts));
  }

  /** The fate of a pending request in slot j when a sweep goes on from slot i, with any
      callbacks and any timeouts: it keeps its slot if and only if the sweep has passed
      the slot or the request is not expired, and no callback run from now on loads a
      window; its callback is run, as a timeout, if and only if the slot is still to
      come, the request is expired and no callback run before it loads a window. */
  lemma {:induction false} SweepFate(m: Mgr, now: Timeval, i: nat, scripts: seq<Script>, j: nat)
    requires Numbered(m) && i <= GUI_MAX_REQUESTS && |scripts| == GUI_MAX_REQUESTS
    requires Sweep(m, now, i, scripts).issued < TWO32
    requires j < GUI_MAX_REQUESTS && m.slots[j].id != 0
    ensures var m', slot := Sweep(m, now, i, scripts), m.slots[j];
            && (m'.slots[j] == slot <==>
                  (j < i || !Expired(slot, now)) && !WindowBefore(m, now, i, scripts, GUI_MAX_REQUESTS))
            && (ReportedFrom(m'.log, |m.log|, slot.seqNum) <==>
                  j >= i && CallsBack(slot, now) && !WindowBefore(m, now, i, scripts, j))
    decreases GUI_MAX_REQUESTS - i
  {
    assert ValidMgr(m);
    var slot, s := m.slots[j], m.slots[j].seqNum;
    hide Numbered, SweepSlot, Expired, HoldsNumber, ReportedFrom, Loads;
    if i == GUI_MAX_REQUESTS {
      ReportedOnce(m.log, Event(0, NULL, [], 0), s);
    } else {
      var next := SweepSlot(m, now, i, scripts[i]);
      var m' := Sweep(next, now, i + 1, scripts);
      SweepLogGrows(next, now, i + 1, scripts);
      TurnFate(m, now, i, scripts[i], j);
      ReportedInTwo(m.log, next.log, m'.log, s);
      ReportedOnce(m.log, Event(m.slots[i].seqNum, m.slots[i].cb, [], GUI_ERR_RESP_TIMEOUT), s);
      if next.slots[j] == slot {
        SweepFate(next, now, i + 1, scripts, j);
      } else {
        SweepGone(next, now, i + 1, scripts, s);
        NotHeld(m'.slots, s, j);
      }
      hide Sweep;
    }
  }

  lemma NotHeld(slots: seq<Slot>, s: nat, j: nat)
    requires !HoldsNumber(slots, s) && j < |slots|
    ensures slots[j].seqNum != s
  {
  }

  /** A request that the callback of slot i issues, in state m, during a sweep, before it
      goes on with `rest`: it takes the first free slot, and survives the rest of the
      sweep if and only if that slot has been passed or its timeout has not elapsed, and
      neither this callback nor a later one loads a window; it is timed out at once if
      and only if its slot is still to come, its timeout has elapsed and no window is
      loaded first. */
  lemma IssuedDuringSweep(m: Mgr, c: Call, rest: Script, now: Timeval, i: nat, scripts: seq<Script>)
    requires Numbered(m) && i < GUI_MAX_REQUESTS && |scripts| == GUI_MAX_REQUESTS
    requires Normal(now) && Normal(c.at) && Request(m, c).1 == GUI_SUCCESS
    requires Sweep(RunScript(Request(m, c).0, rest), now, i + 1, scripts).issued < TWO32
    ensures var f, m1 := FirstFree(m.slots, 0), Request(m, c).0;
            var m2 := RunScript(m1, rest);
            var m', elapsed := Sweep(m2, now, i + 1, scripts), Micros(now) - Micros(c.at) >= c.timeout * 1000;
            && f < GUI_MAX_REQUESTS
            && (m'.slots[f] == m1.slots[f] <==>
                  !Loads(rest) && (f <= i || !elapsed) && !WindowBefore(m2, now, i + 1, scripts, GUI_MAX_REQUESTS))
            && (ReportedFrom(m'.log, |m.log|, m1.slots[f].seqNum) <==>
                  !Loads(rest) && f > i && elapsed && c.cb != NULL && !WindowBefore(m2, now, i + 1, scripts, f))
  {
    var f, m1 := FirstFree(m.slots, 0), Request(m, c).0;
    assert ValidMgr(m) && |m1.slots| == GUI_MAX_REQUESTS;
    hide *;
    GoesOn(m1, rest, now, i, scripts);
    NewSlot(m, c, now);
    RestFate(m1, rest, now, i, scripts, f);
  }

  /** Later numbers are larger. */
  lemma GoesOn(m: Mgr, rest: Script, now: Timeval, i: nat, scripts: seq<Script>)
    requires ValidMgr(m) && i < GUI_MAX_REQUESTS && |scripts| == GUI_MAX_REQUESTS
    ensures m.issued <= RunScript(m, rest).issued <= Sweep(RunScript(m, rest), now, i + 1, scripts).issued
  {
    ScriptsDoNotLog(m, rest);
    SweepLogGrows(RunScript(m, rest), now, i + 1, scripts);
  }

  /** The fate of a request in slot j when the callback of slot i goes on with `rest`, and
      the sweep after it. */
  lemma RestFate(m: Mgr, rest: Script, now: Timeval, i: nat, scripts: seq<Script>, j: nat)
    requires Numbered(m) && i < GUI_MAX_REQUESTS && |scripts| == GUI_MAX_REQUESTS
    requires Sweep(RunScript(m, rest), now, i + 1, scripts).issued < TWO32
    requires j < GUI_MAX_REQUESTS && m.slots[j].id != 0
    ensures var m2, slot := RunScript(m, rest), m.slots[j]; var m' := Sweep(m2, now, i + 1, scripts);
            && (m'.slots[j] == slot <==>
                  !Loads(rest) && (j <= i || !Expired(slot, now))
                  && !WindowBefore(m2, now, i + 1, scripts, GUI_MAX_REQUESTS))
            && (ReportedFrom(m'.log, |m.log|, slot.seqNum) <==>
                  !Loads(rest) && j > i && CallsBack(slot, now) && !WindowBefore(m2, now, i + 1, scripts, j))
  {
    assert ValidMgr(m);
    var m2 := RunScript(m, rest);
    hide Numbered, RunScript, Sweep, WindowBefore, HoldsNumber, ReportedFrom, Loads, Expired, DoAll;
    GoesOn(m, rest, now, i, scripts);
    ScriptsDoNotLog(m, rest);
    ScriptTrace(m, rest);
    EffectsKeep(m, ScriptEffects(rest));
    if Loads(rest) {
      SlotNumber(m, j);
      DroppedByRest(m, rest, now, i, scripts, j);
    } else {
      ScriptKeepsSlot(m, rest, j);
      SweepFate(m2, now, i + 1, scripts, j);
    }
  }

  lemma DroppedByRest(m: Mgr, rest: Script, now: Timeval, i: nat, scripts: seq<Script>, j: nat)
    requires Numbered(m) && i < GUI_MAX_REQUESTS && |scripts| == GUI_MAX_REQUESTS && Loads(rest)
    requires Numbered(RunScript(m, rest)) && Sweep(RunScript(m, rest), now, i + 1, scripts).issued < TWO32
    requires j < GUI_MAX_REQUESTS && 1 <= m.slots[j].seqNum <= m.issued
    ensures var m', s := Sweep(RunScript(m, rest), now, i + 1, scripts), m.slots[j].seqNum;
            m'.slots[j].seqNum != s && !ReportedFrom(m'.log, |m.log|, s)
  {
    assert ValidMgr(m);
    var m2, s := RunScript(m, rest), m.slots[j].seqNum;
    hide *;
    GoesOn(m, rest, now, i, scripts);
    ScriptsDoNotLog(m, rest);
    LoadsGone(m, rest, s);
    SweepGone(m2, now, i + 1, scripts, s);
    NotHeld(Sweep(m2, now, i + 1, scripts).slots, s, j);
  }

  lemma ScriptKeepsSlot(m: Mgr, script: Script, j: nat)
    requires ValidMgr(m) && !Loads(script) && RunScript(m, script).issued < TWO32
    requires j < GUI_MAX_REQUESTS && m.slots[j].id != 0
    ensures RunScript(m, script).slots[j] == m.slots[j]
  {
    hide RunScript, Loads;
    ScriptUntouched(m, script);
  }

  lemma NewSlot(m: Mgr, c: Call, now: Timeval)
    requires Numbered(m) && Normal(now) && Normal(c.at) && Request(m, c).1 == GUI_SUCCESS
    requires Request(m, c).0.issued < TWO32
    ensures var f, m1 := FirstFree(m.slots, 0), Request(m, c).0;
            && f < GUI_MAX_REQUESTS && Numbered(m1) && m1.log == m.log
            && m1.slots[f].id != 0
            && (Expired(m1.slots[f], now) <==> Micros(now) - Micros(c.at) >= c.timeout * 1000)
            && (CallsBack(m1.slots[f], now) <==> Expired(m1.slots[f], now) && c.cb != NULL)
  {
    assert ValidMgr(m);
    DueWhenElapsed(m, c, now);
    var f, m1 := FirstFree(m.slots, 0), Request(m, c).0;
    assert m1.slots[f].id == c.id != 0 && m1.log == m.log;
    hide Request, IsTimeOver, FirstFree, Normal, Micros;
    EffectKeeps(m, Ask(c));
  }

  lemma SlotNumber(m: Mgr, j: nat)
    requires Numbered(m) && j < GUI_MAX_REQUESTS && m.slots[j].id != 0
    ensures 1 <= m.slots[j].seqNum <= m.issued
  {
  }

  // ------------------------------------------------- an input

  /** Request with timeout 0 and no payload, for task 3. */
  function ZeroCall(now: Timeval): Call {
    Call(0x301, true, [], 0, 8, now, NoFault)
  }

  lemma ZeroRequest(m: Mgr, now: Timeval, i: nat)
    requires ValidMgr(m) && Normal(now) && i < GUI_MAX_REQUESTS && FirstFree(m.slots, 0) == i && m.issued + 1 < TWO32
    ensures var m' := Request(m, ZeroCall(now)).0;
            && m'.slots == m.slots[i := Slot(m.issued + 1, 0x301, 8, now)]
            && m'.log == m.log && m'.issued == m.issued + 1
  {
  }

  lemma SweepTurn(m: Mgr, now: Timeval, i: nat, scripts: seq<Script>)
    requires ValidMgr(m) && i < GUI_MAX_REQUESTS && |scripts| == GUI_MAX_REQUESTS
    ensures Sweep(m, now, i, scripts) == Sweep(SweepSlot(m, now, i, scripts[i]), now, i + 1, scripts)
  {
  }

  /** A callback that issues two such requests. */
  lemma TwoZeroCalls(m: Mgr, now: Timeval)
    requires ValidMgr(m) && Normal(now) && m.issued + 2 < TWO32 && m.slots[0].id == 0 && m.slots[1].id == 0
    ensures var m', c := RunScript(m, [DoRequest(ZeroCall(now)), DoRequest(ZeroCall(now))]), m.issued;
            && m'.slots == m.slots[0 := Slot(c + 1, 0x301, 8, now)][1 := Slot(c + 2, 0x301, 8, now)]
            && m'.log == m.log
  {
    var c := ZeroCall(now);
    assert FirstFree(m.slots, 0) == 0;
    ZeroRequest(m, now, 0);
    var m1 := Request(m, c).0;
    assert FirstFree(m1.slots, 0) == 1 by {
      assert FirstFree(m1.slots, 1) == 1;
    }
    ZeroRequest(m1, now, 1);
    var m2 := Request(m1, c).0;
    hide Request, FirstFree, ZeroCall;
    assert [DoRequest(c), DoRequest(c)][1..] == [DoRequest(c)];
    assert RunScript(m1, [DoRequest(c)]) == RunScript(m2, []) == m2;
  }

  /** A table in which only slot 1 is due. */
  lemma SweptNext(m: Mgr, now: Timeval, scripts: seq<Script>)
    requires ValidMgr(m) && |scripts| == GUI_MAX_REQUESTS && scripts[1] == [] && CallsBack(m.slots[1], now)
    requires forall j | 2 <= j < GUI_MAX_REQUESTS :: !Expired(m.slots[j], now)
    ensures Sweep(m, now, 1, scripts).log ==
            m.log + [Event(m.slots[1].seqNum, m.slots[1].cb, [], GUI_ERR_RESP_TIMEOUT)]
  {
    hide Sweep, RunScript;
    var m1 := Finish(m, 1, TimedOut, [], GUI_ERR_RESP_TIMEOUT);
    SweepTurn(m, now, 1, scripts);
    NothingRun(m1);
    SweepNothing(m1, now, 2, scripts);
  }

  /** When the callback of slot 0 issues two requests with timeout 0 and slot 1 is free,
      the second one is swept away at once. */
  lemma ZeroTimeoutIsSwept(m: Mgr, now: Timeval, scripts: seq<Script>)
    requires ValidMgr(m) && Normal(now) && |scripts| == GUI_MAX_REQUESTS && m.issued + 2 < TWO32
    requires CallsBack(m.slots[0], now) && m.slots[1] == CLEARED
    requires forall j | 2 <= j < GUI_MAX_REQUESTS :: !Expired(m.slots[j], now)
    requires scripts[0] == [DoRequest(ZeroCall(now)), DoRequest(ZeroCall(now))] && scripts[1] == []
    ensures Sweep(m, now, 0, scripts).log ==
            m.log + [Event(m.slots[0].seqNum, m.slots[0].cb, [], GUI_ERR_RESP_TIMEOUT)]
                  + [Event(m.issued + 2, 8, [], GUI_ERR_RESP_TIMEOUT)]
  {
    hide Sweep, Request, ZeroCall, RunScript, FirstFree;
    var m0 := Finish(m, 0, TimedOut, [], GUI_ERR_RESP_TIMEOUT);
    TwoZeroCalls(m0, now);
    SweepTurn(m, now, 0, scripts);
    SweptNext(RunScript(m0, scripts[0]), now, scripts);
  }

  /** A run that gets there: one request with timeout 0, and a sweep whose callback for it
      issues two more.  The sweep reports the first and the third of the three. */
  lemma ZeroTimeoutRun(now: Timeval, scripts: seq<Script>) returns (states: seq<Sys>)
    requires Normal(now) && |scripts| == GUI_MAX_REQUESTS
    requires forall j | 0 <= j < GUI_MAX_REQUESTS :: ScriptInRange(scripts[j])
    requires scripts[0] == [DoRequest(ZeroCall(now)), DoRequest(ZeroCall(now))] && scripts[1] == []
    ensures IsRun(states, [User([DoRequest(ZeroCall(now))]), SweepStep(now, scripts)])
    ensures states[2].mgr.log == [Event(1, 8, [], 16), Event(3, 8, [], 16)]
  {
    var s0, call := Init(), DoRequest(ZeroCall(now));
    var m1 := Act(s0.mgr, call);
    ZeroRequest(s0.mgr, now, 0);
    hide Request, FirstFree, Sweep, RunScript;
    OneAct(s0.mgr, call);
    var s1 := Next(s0, User([call]));
    assert Enabled(s0, User([call]));
    ZeroTimeoutIsSwept(m1, now, scripts);
    states := [s0, s1, Next(s1, SweepStep(now, scripts))];
  }
}
