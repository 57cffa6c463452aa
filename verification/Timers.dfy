/** One-shot timers and their sweep, with callbacks that register, deregister and clear
    timers while the sweep is under way. */
module Timers {
  import opened Base
  import opened Deadline
  import opened Pending
  import opened SlotTable

  /** The `extra` of a timer slot is its deadline. */
  type Timer = Entry<Timeval>

  const EPOCH := Timeval(0, 0)

  function TimerError(out: Outcome): nat {
    match out
    case Done => GUI_SUCCESS
    case NullCallback => GUI_ERR_PARAMETER
    case InvalidId => GUI_ERR_TIMERID_INVALID
    case TableFull => GUI_ERR_TIMERS_FULL
  }

  function RegisterTimer(ts: seq<Timer>, id: nat, timeout: nat, cb: Callback, at: Timeval): (r: seq<Timer>)
    ensures |r| == |ts|
  {
    Register(ts, id, cb, ExpiresAt(at, timeout)).0
  }

  /** The timer-table effect of one API call. */
  function ActOnTimers(ts: seq<Timer>, a: Action): (r: seq<Timer>)
    requires |ts| == SIZE
    ensures |r| == SIZE
  {
    match a
    case DoRegisterTimer(id, timeout, cb, at) => RegisterTimer(ts, id, timeout, cb, at)
    case DoDeregisterTimer(id) => Deregister(ts, id, EPOCH).0
    case DoLoadWindow => Clear(EPOCH)
    case _ => ts
  }

  function RunOnTimers(ts: seq<Timer>, script: Script): (r: seq<Timer>)
    requires |ts| == SIZE
    ensures |r| == SIZE
    decreases |script|
  {
    if script == [] then ts else RunOnTimers(ActOnTimers(ts, script[0]), script[1..])
  }

  /** One timer callback run by the sweep. */
  datatype Tick = Tick(slot: nat, id: nat, cb: Callback)

  predicate Over(t: Timer, now: Timeval) {
    t.cb != NULL && IsTimeOver(now, t.extra)
  }

  /** The body of the ProcessTimers loop for slot i: the slot is cleared before its
      callback runs, so the callback may register into it. */
  function TimerTurn(ts: seq<Timer>, now: Timeval, i: nat, script: Script): (r: (seq<Timer>, seq<Tick>))
    requires |ts| == SIZE && i < SIZE
    ensures |r.0| == SIZE
  {
    if Over(ts[i], now) then (RunOnTimers(ts[i := Free(EPOCH)], script), [Tick(i, ts[i].id, ts[i].cb)])
    else (ts, [])
  }

  /** ProcessTimers from slot i on; the callback found in slot j executes `scripts[j]`. */
  function ProcessTimers(ts: seq<Timer>, now: Timeval, i: nat, scripts: seq<Script>): (r: (seq<Timer>, seq<Tick>))
    requires |ts| == SIZE && i <= SIZE && |scripts| == SIZE
    ensures |r.0| == SIZE
    decreases SIZE - i
  {
    if i == SIZE then (ts, [])
    else
      var (ts1, ticks) := TimerTurn(ts, now, i, scripts[i]);
      var (ts2, rest) := ProcessTimers(ts1, now, i + 1, scripts);
      (ts2, ticks + rest)
  }

  // ------------------------------------------------- any scripts

  /** Whatever the callbacks do, the sweep visits each slot at most once, in order, and
      the table stays well formed. */
  lemma {:induction false} SweepOncePerSlot(ts: seq<Timer>, now: Timeval, i: nat, scripts: seq<Script>)
    requires |ts| == SIZE && Wf(ts, EPOCH) && i <= SIZE && |scripts| == SIZE
    ensures var (ts', ticks) := ProcessTimers(ts, now, i, scripts);
            && Wf(ts', EPOCH) && |ticks| <= SIZE - i
            && (forall k | 0 <= k < |ticks| :: i <= ticks[k].slot < SIZE && ticks[k].id != 0 && ticks[k].cb != NULL)
            && (forall k, l | 0 <= k < l < |ticks| :: ticks[k].slot < ticks[l].slot)
    decreases SIZE - i
  {
    hide Wf, TimerTurn;
    if i < SIZE {
      TurnWf(ts, now, i, scripts[i]);
      SweepOncePerSlot(TimerTurn(ts, now, i, scripts[i]).0, now, i + 1, scripts);
    }
  }

  lemma TurnWf(ts: seq<Timer>, now: Timeval, i: nat, script: Script)
    requires |ts| == SIZE && Wf(ts, EPOCH) && i < SIZE
    ensures var (ts', ticks) := TimerTurn(ts, now, i, script);
            && Wf(ts', EPOCH) && |ticks| <= 1
            && (ticks != [] ==> ticks[0].slot == i && ticks[0].id != 0 && ticks[0].cb != NULL)
  {
    OverwriteWf(ts, EPOCH, i, Free(EPOCH));
    hide IsTimeOver, RunOnTimers;
    ScriptWf(ts[i := Free(EPOCH)], script);
  }

  lemma ActWf(ts: seq<Timer>, a: Action)
    requires |ts| == SIZE && Wf(ts, EPOCH)
    ensures Wf(ActOnTimers(ts, a), EPOCH)
  {
  }

  lemma {:induction false} ScriptWf(ts: seq<Timer>, script: Script)
    requires |ts| == SIZE && Wf(ts, EPOCH)
    ensures Wf(RunOnTimers(ts, script), EPOCH)
    decreases |script|
  {
    hide Wf, ActOnTimers;
    if script != [] {
      ActWf(ts, script[0]);
      ScriptWf(ActOnTimers(ts, script[0]), script[1..]);
    }
  }

  /** A registered timer is over exactly when its timeout has passed. */
  lemma DueWhenElapsed(ts: seq<Timer>, id: nat, timeout: nat, cb: Callback, at: Timeval, now: Timeval)
    requires |ts| == SIZE && Normal(at) && Normal(now)
    requires Register(ts, id, cb, ExpiresAt(at, timeout)).1.Done?
    ensures var ts' := RegisterTimer(ts, id, timeout, cb, at); var i := FindId(ts', id, 0);
            && i < SIZE && ts'[i].cb == cb
            && (Over(ts'[i], now) <==> Micros(now) - Micros(at) >= timeout * 1000)
  {
    hide IsTimeOver, ExpiresAt;
    OverWhenElapsed(now, at, timeout);
    var ts' := RegisterTimer(ts, id, timeout, cb, at);
    assert ts'[FindFree(ts, 0)].id == id;
  }

  // ------------------------------------------------- what callers are told

  /** RegisterTimerCallback returns 0 exactly for a callback under an unused identifier
      while fewer than sixteen are registered, 5 exactly when sixteen are, 3 exactly for
      a NULL callback and 4 otherwise. */
  lemma RegisterCodes(ts: seq<Timer>, id: nat, cb: Callback, deadline: Timeval)
    requires Wf(ts, EPOCH)
    ensures var ret, m := TimerError(Register(ts, id, cb, deadline).1), AsMap(ts);
            && (ret == 0 <==> cb != 0 && id != 0 && id !in m && |m| < 16)
            && (ret == 5 <==> cb != 0 && id != 0 && id !in m && |m| == 16)
            && (ret == 3 <==> cb == 0)
            && (ret == 4 <==> cb != 0 && (id == 0 || id in m))
  {
    assert |ts| == SIZE;
    hide Wf, AsMap;
    RegisterInserts(ts, EPOCH, id, cb, deadline);
    FullIsSixteen(ts, EPOCH);
    RegisterRefuses(ts, id, cb, deadline);
  }

  /** DeregisterTimer returns 0 exactly if the identifier was registered, otherwise 4. */
  lemma DeregisterCodes(ts: seq<Timer>, id: nat)
    requires Wf(ts, EPOCH)
    ensures TimerError(Deregister(ts, id, EPOCH).1) == if id in AsMap(ts) then 0 else 4
  {
    DeregisterRemoves(ts, EPOCH, id);
  }

  /** A cleared table is all zero. */
  lemma ClearedTimers(i: nat)
    requires i < 16
    ensures |Clear(EPOCH)| == 16 && Clear(EPOCH)[i] == Entry(0, 0, Timeval(0, 0))
  {
  }

  // ------------------------------------------------- what a script leaves registered

  lemma {:induction false} RunAppend(ts: seq<Timer>, a: Script, b: Script)
    requires |ts| == SIZE
    ensures RunOnTimers(ts, a + b) == RunOnTimers(RunOnTimers(ts, a), b)
    decreases |a|
  {
    if a == [] {
      assert a + b == b;
    } else {
      assert (a + b)[1..] == a[1..] + b;
      hide ActOnTimers;
      RunAppend(ActOnTimers(ts, a[0]), a[1..], b);
    }
  }

  // ------------------------------------------------- what a callback leaves alone

  predicate Takes(a: Action, id: nat) {
    a.DoLoadWindow? || a == DoDeregisterTimer(id)
  }

  /** The script deregisters timer id or loads a window. */
  predicate Removes(script: Script, id: nat) {
    exists k :: 0 <= k < |script| && Takes(script[k], id)
  }

  lemma RemovesCons(script: Script, id: nat)
    requires script != []
    ensures Removes(script, id) <==> Takes(script[0], id) || Removes(script[1..], id)
  {
  }

  lemma ActStays(ts: seq<Timer>, a: Action, j: nat)
    requires |ts| == SIZE && Wf(ts, EPOCH) && j < SIZE && ts[j].cb != NULL && !Takes(a, ts[j].id)
    ensures ActOnTimers(ts, a)[j] == ts[j]
  {
    AloneAt(ts, EPOCH, j);
  }

  /** Whatever else a callback does, a timer it neither deregisters nor clears away stays
      where it is. */
  lemma {:induction false} ScriptStays(ts: seq<Timer>, script: Script, j: nat)
    requires |ts| == SIZE && Wf(ts, EPOCH) && j < SIZE && ts[j].cb != NULL && !Removes(script, ts[j].id)
    ensures RunOnTimers(ts, script)[j] == ts[j]
    decreases |script|
  {
    hide Wf, ActOnTimers, Takes;
    if script != [] {
      RemovesCons(script, ts[j].id);
      ActWf(ts, script[0]);
      ActStays(ts, script[0], j);
      ScriptStays(ActOnTimers(ts, script[0]), script[1..], j);
    }
  }

  ghost predicate Bound(ts: seq<Timer>, id: nat, cb: Callback, deadline: Timeval)
    requires |ts| == SIZE
  {
    id in AsMap(ts) && AsMap(ts)[id] == (cb, deadline)
  }

  /** Action k registers cb under id with this deadline, and is not refused. */
  ghost predicate RegistersAt(ts: seq<Timer>, script: Script, k: nat, id: nat, cb: Callback, deadline: Timeval)
    requires |ts| == SIZE
  {
    k < |script| && TakesEffect(RunOnTimers(ts, script[..k]), script[k], id, cb, deadline)
  }

  ghost predicate TakesEffect(ts: seq<Timer>, a: Action, id: nat, cb: Callback, deadline: Timeval)
    requires |ts| == SIZE
  {
    && a.DoRegisterTimer? && a.timerId == id != 0 && a.cb == cb != NULL && deadline == ExpiresAt(a.at, a.timeout)
    && id !in AsMap(ts) && |AsMap(ts)| < 16
  }

  lemma ActBinds(ts: seq<Timer>, a: Action, id: nat, cb: Callback, deadline: Timeval)
    requires |ts| == SIZE && Wf(ts, EPOCH)
    ensures Bound(ActOnTimers(ts, a), id, cb, deadline) <==>
            (Bound(ts, id, cb, deadline) && !Takes(a, id)) || TakesEffect(ts, a, id, cb, deadline)
  {
    hide Wf, AsMap, Register, Deregister, Clear, ExpiresAt;
    match a
    case DoRegisterTimer(u, timeout, c, at) => RegisterInserts(ts, EPOCH, u, c, ExpiresAt(at, timeout));
    case DoDeregisterTimer(u) => DeregisterRemoves(ts, EPOCH, u);
    case DoLoadWindow => ClearEmpties(EPOCH);
    case _ =>
  }

  lemma RunSnoc(ts: seq<Timer>, before: Script, a: Action)
    requires |ts| == SIZE
    ensures RunOnTimers(ts, before + [a]) == ActOnTimers(RunOnTimers(ts, before), a)
  {
    hide *;
    RunAppend(ts, before, [a]);
    RunOne(RunOnTimers(ts, before), a);
  }

  lemma RunOne(ts: seq<Timer>, a: Action)
    requires |ts| == SIZE
    ensures RunOnTimers(ts, [a]) == ActOnTimers(ts, a)
  {
    hide ActOnTimers;
    assert [a][1..] == [];
  }

  lemma RemovesSnoc(script: Script, i: nat, id: nat)
    requires i < |script|
    ensures Removes(script[i..], id) <==>
            Removes(script[..|script| - 1][i..], id) || Takes(script[|script| - 1], id)
  {
    var n := |script| - 1;
    assert script[i..][n - i] == script[n];
    assert forall k | 0 <= k < n - i :: script[i..][k] == script[..n][i..][k];
  }

  /** Over any script, from a well-formed table: a timer is registered with this callback
      and deadline if and only if it was before and has not been removed, or such a
      registration was accepted and has not been removed since. */
  lemma {:induction false} BoundAfter(ts: seq<Timer>, script: Script, id: nat, cb: Callback, deadline: Timeval)
    requires |ts| == SIZE && Wf(ts, EPOCH)
    ensures Bound(RunOnTimers(ts, script), id, cb, deadline) <==>
            || (Bound(ts, id, cb, deadline) && !Removes(script, id))
            || (exists k: nat :: RegistersAt(ts, script, k, id, cb, deadline) && !Removes(script[k + 1..], id))
    decreases |script|
  {
    hide Wf, ActOnTimers, Bound, TakesEffect, Takes;
    if script != [] {
      var n := |script| - 1;
      var before, a := script[..n], script[n];
      BoundAfter(ts, before, id, cb, deadline);
      assert before + [a] == script;
      RunSnoc(ts, before, a);
      ScriptWf(ts, before);
      ActBinds(RunOnTimers(ts, before), a, id, cb, deadline);
      RemovesSnoc(script, 0, id);
      assert script[0..] == script && before[0..] == before && script[n + 1..] == [];
      hide Removes;
      assert !Removes([], id) by {
        NothingRemoves(id);
      }
      assert RegistersAt(ts, script, n, id, cb, deadline) && !Removes(script[n + 1..], id) <==>
             TakesEffect(RunOnTimers(ts, before), a, id, cb, deadline);
      forall k: nat | k < n
        ensures RegistersAt(ts, script, k, id, cb, deadline) && !Removes(script[k + 1..], id) <==>
                RegistersAt(ts, before, k, id, cb, deadline) && !Removes(before[k + 1..], id) && !Takes(a, id)
      {
        assert before[..k] == script[..k];
        if k + 1 < |script| {
          RemovesSnoc(script, k + 1, id);
        }
      }
      assert forall k: nat | RegistersAt(ts, script, k, id, cb, deadline) :: k <= n;
      assert forall k: nat | RegistersAt(ts, before, k, id, cb, deadline) :: k < n;
    }
  }

  lemma NothingRemoves(id: nat)
    ensures !Removes([], id)
  {
  }

  // ------------------------------------------------- scripts with positive timeouts

  /** During a sweep at `now` every timer registered gets a positive timeout and clocks
      do not run backwards; deregistering and window changes are unrestricted. */
  predicate Punctual(script: Script, now: Timeval) {
    forall k | 0 <= k < |script| && script[k].DoRegisterTimer? ::
      Normal(script[k].at) && IsTimeOver(script[k].at, now) && script[k].timeout > 0
  }

  /** Slot j after some API calls: a timer nobody removed is where it was; anything else
      there is not over. */
  predicate SlotAfter(was: Timer, got: Timer, removed: bool, now: Timeval) {
    if was.cb != NULL && !removed then got == was else !Over(got, now)
  }

  lemma ActSlot(ts: seq<Timer>, a: Action, now: Timeval, j: nat)
    requires |ts| == SIZE && Wf(ts, EPOCH) && Normal(now) && j < SIZE && Punctual([a], now)
    ensures SlotAfter(ts[j], ActOnTimers(ts, a)[j], Takes(a, ts[j].id), now)
  {
    if ts[j].cb != NULL && !Takes(a, ts[j].id) {
      ActStays(ts, a, j);
    } else if a.DoRegisterTimer? {
      assert [a][0] == a;
      OverWhenElapsed(now, a.at, a.timeout);
      hide IsTimeOver, ExpiresAt;
    } else if a.DoDeregisterTimer? {
      hide IsTimeOver;
    }
  }

  lemma {:induction false} ScriptSlot(ts: seq<Timer>, script: Script, now: Timeval, j: nat)
    requires |ts| == SIZE && Wf(ts, EPOCH) && Normal(now) && j < SIZE && Punctual(script, now)
    ensures SlotAfter(ts[j], RunOnTimers(ts, script)[j], Removes(script, ts[j].id), now)
    decreases |script|
  {
    hide Wf, ActOnTimers, IsTimeOver;
    if script != [] {
      var a, rest := script[0], script[1..];
      ActWf(ts, a);
      ActSlot(ts, a, now, j);
      ScriptSlot(ActOnTimers(ts, a), rest, now, j);
      RemovesCons(script, ts[j].id);
    }
  }

  // ------------------------------------------------- the sweep, exactly

  /** A callback already run from a slot before j removed timer id. */
  ghost predicate RemovedBefore(ticks: seq<Tick>, scripts: seq<Script>, id: nat, j: nat)
    requires |scripts| == SIZE
  {
    exists k :: 0 <= k < |ticks| && ticks[k].slot < j && j <= SIZE && Removes(scripts[ticks[k].slot], id)
  }

  /** The table when the sweep that began with `was` has run `before` and reaches slot i. */
  ghost predicate Reached(was: seq<Timer>, ts: seq<Timer>, now: Timeval, i: nat, scripts: seq<Script>,
                          before: seq<Tick>)
    requires |scripts| == SIZE
  {
    && |was| == SIZE && Wf(ts, EPOCH)
    && (forall k | 0 <= k < |before| :: before[k].slot < i)
    && (forall j | 0 <= j < SIZE ::
          if j >= i || !Over(was[j], now)
              then SlotAfter(was[j], ts[j], RemovedBefore(before, scripts, was[j].id, SIZE), now)
          else !Over(ts[j], now))
  }

  lemma TurnReaches(was: seq<Timer>, ts: seq<Timer>, now: Timeval, i: nat, scripts: seq<Script>, before: seq<Tick>)
    requires |ts| == SIZE && |scripts| == SIZE && i < SIZE && Normal(now) && Punctual(scripts[i], now)
    requires Reached(was, ts, now, i, scripts, before)
    ensures var (ts', ticks) := TimerTurn(ts, now, i, scripts[i]);
            Reached(was, ts', now, i + 1, scripts, before + ticks)
  {
    TurnWf(ts, now, i, scripts[i]);
    OverwriteWf(ts, EPOCH, i, Free(EPOCH));
    var (ts', ticks) := TimerTurn(ts, now, i, scripts[i]);
    var freed := ts[i := Free(EPOCH)];
    hide Wf, IsTimeOver, RunOnTimers, Removes, Punctual, RemovedBefore;
    if Over(ts[i], now) {
      forall j | 0 <= j < SIZE
        ensures if j >= i + 1 || !Over(was[j], now)
                then SlotAfter(was[j], ts'[j], RemovedBefore(before + ticks, scripts, was[j].id, SIZE), now)
                else !Over(ts'[j], now)
      {
        ScriptSlot(freed, scripts[i], now, j);
        RemovedAppend(before, ticks[0], scripts, was[j].id);
      }
    } else {
      assert before + ticks == before;
    }
  }

  lemma RemovedAppend(before: seq<Tick>, t: Tick, scripts: seq<Script>, id: nat)
    requires |scripts| == SIZE && t.slot < SIZE
    ensures RemovedBefore(before + [t], scripts, id, SIZE)
            <==> RemovedBefore(before, scripts, id, SIZE) || Removes(scripts[t.slot], id)
  {
    hide Removes;
    var all := before + [t];
    assert all[|before|] == t;
    if k :| 0 <= k < |before| && before[k].slot < SIZE && Removes(scripts[before[k].slot], id) {
      assert all[k] == before[k];
    }
  }

  ghost predicate Fired(ticks: seq<Tick>, j: nat) {
    exists k :: 0 <= k < |ticks| && ticks[k].slot == j
  }

  /** Slot j fires exactly when its timer had expired at the start and was not removed
      by a callback the sweep ran before reaching it. */
  ghost predicate FiresRightly(was: seq<Timer>, now: Timeval, scripts: seq<Script>, all: seq<Tick>, ticks: seq<Tick>,
                               j: nat)
    requires |scripts| == SIZE && |was| == SIZE && j < SIZE
  {
    && (Fired(ticks, j) <==> Over(was[j], now) && !RemovedBefore(all, scripts, was[j].id, j))
    && forall k | 0 <= k < |ticks| && ticks[k].slot == j :: ticks[k] == Tick(j, was[j].id, was[j].cb)
  }

  lemma {:induction false} SweepFrom(was: seq<Timer>, ts: seq<Timer>, now: Timeval, i: nat, scripts: seq<Script>,
                                     before: seq<Tick>)
    requires |was| == SIZE && |ts| == SIZE && |scripts| == SIZE && i <= SIZE && Normal(now)
    requires forall j | 0 <= j < SIZE :: Punctual(scripts[j], now)
    requires Reached(was, ts, now, i, scripts, before)
    ensures FiredFrom(was, ts, now, i, scripts, before)
    decreases SIZE - i
  {
    hide Reached, TimerTurn, Punctual, ProcessTimers, FiredFrom;
    if i == SIZE {
      NothingLeft(was, ts, now, scripts, before);
    } else {
      var (ts1, t) := TimerTurn(ts, now, i, scripts[i]);
      TurnReaches(was, ts, now, i, scripts, before);
      SweepFrom(was, ts1, now, i + 1, scripts, before + t);
      FirstThenRest(was, ts, now, i, scripts, before);
    }
  }

  /** What the sweep does from slot i on, having run `before`. */
  ghost predicate FiredFrom(was: seq<Timer>, ts: seq<Timer>, now: Timeval, i: nat, scripts: seq<Script>,
                            before: seq<Tick>)
    requires |was| == SIZE && |ts| == SIZE && |scripts| == SIZE && i <= SIZE
  {
    var (ts', ticks) := ProcessTimers(ts, now, i, scripts);
    && Reached(was, ts', now, SIZE, scripts, before + ticks)
    && forall j | i <= j < SIZE :: FiresRightly(was, now, scripts, before + ticks, ticks, j)
  }

  lemma NothingLeft(was: seq<Timer>, ts: seq<Timer>, now: Timeval, scripts: seq<Script>, before: seq<Tick>)
    requires |was| == SIZE && |ts| == SIZE && |scripts| == SIZE && Reached(was, ts, now, SIZE, scripts, before)
    ensures FiredFrom(was, ts, now, SIZE, scripts, before)
  {
    hide Reached;
    assert before + [] == before;
  }

  lemma FirstThenRest(was: seq<Timer>, ts: seq<Timer>, now: Timeval, i: nat, scripts: seq<Script>, before: seq<Tick>)
    requires |was| == SIZE && |ts| == SIZE && |scripts| == SIZE && i < SIZE && Reached(was, ts, now, i, scripts, before)
    requires var (ts1, t) := TimerTurn(ts, now, i, scripts[i]); FiredFrom(was, ts1, now, i + 1, scripts, before + t)
    ensures FiredFrom(was, ts, now, i, scripts, before)
  {
    ReachedWf(was, ts, now, i, scripts, before);
    hide Reached, TimerTurn, Wf, Over, RemovedBefore, FiresRightly, ProcessTimers;
    Unfold(ts, now, i, scripts);
    var (ts1, t) := TimerTurn(ts, now, i, scripts[i]);
    var rest := ProcessTimers(ts1, now, i + 1, scripts).1;
    assert before + t + rest == before + (t + rest);
    TurnWf(ts, now, i, scripts[i]);
    SweepOncePerSlot(ts1, now, i + 1, scripts);
    FirstSlot(was, ts, now, i, scripts, before, rest);
    forall j | i < j < SIZE ensures FiresRightly(was, now, scripts, before + (t + rest), t + rest, j) {
      LaterSlot(was, now, i, scripts, before + (t + rest), t, rest, j);
    }
  }

  lemma Unfold(ts: seq<Timer>, now: Timeval, i: nat, scripts: seq<Script>)
    requires |ts| == SIZE && i <= SIZE && |scripts| == SIZE
    ensures ProcessTimers(ts, now, i, scripts) ==
            if i == SIZE then (ts, [])
            else
              var (ts1, ticks) := TimerTurn(ts, now, i, scripts[i]);
              (ProcessTimers(ts1, now, i + 1, scripts).0, ticks + ProcessTimers(ts1, now, i + 1, scripts).1)
  {
  }

  lemma ReachedWf(was: seq<Timer>, ts: seq<Timer>, now: Timeval, i: nat, scripts: seq<Script>, before: seq<Tick>)
    requires |scripts| == SIZE && Reached(was, ts, now, i, scripts, before)
    ensures Wf(ts, EPOCH)
  {
  }

  /** The slot the sweep is at. */
  lemma FirstSlot(was: seq<Timer>, ts: seq<Timer>, now: Timeval, i: nat, scripts: seq<Script>, before: seq<Tick>,
                  rest: seq<Tick>)
    requires |ts| == SIZE && |scripts| == SIZE && i < SIZE && Reached(was, ts, now, i, scripts, before)
    requires forall k | 0 <= k < |rest| :: rest[k].slot > i
    ensures var t := TimerTurn(ts, now, i, scripts[i]).1;
            FiresRightly(was, now, scripts, before + (t + rest), t + rest, i)
  {
    hide Wf, IsTimeOver, RunOnTimers, Removes;
    var t := TimerTurn(ts, now, i, scripts[i]).1;
    var all := before + (t + rest);
    assert RemovedBefore(all, scripts, was[i].id, i) <==> RemovedBefore(before, scripts, was[i].id, SIZE) by {
      if k :| 0 <= k < |before| && before[k].slot < SIZE && Removes(scripts[before[k].slot], was[i].id) {
        assert all[k] == before[k];
      }
      if k :| 0 <= k < |all| && all[k].slot < i && Removes(scripts[all[k].slot], was[i].id) {
        assert k < |before|;
      }
    }
    if t != [] {
      assert (t + rest)[0] == t[0];
    }
  }

  lemma LaterSlot(was: seq<Timer>, now: Timeval, i: nat, scripts: seq<Script>, all: seq<Tick>, t: seq<Tick>,
                  rest: seq<Tick>, j: nat)
    requires |scripts| == SIZE && |was| == SIZE && i < j < SIZE
    requires forall k | 0 <= k < |t| :: t[k].slot == i
    requires FiresRightly(was, now, scripts, all, rest, j)
    ensures FiresRightly(was, now, scripts, all, t + rest, j)
  {
    hide Over, RemovedBefore;
    if k :| 0 <= k < |rest| && rest[k].slot == j {
      assert (t + rest)[|t| + k].slot == j;
    }
  }

  /** ProcessTimers on a well-formed table, with callbacks that deregister and clear at
      will but register with positive timeouts only: slot j fires (once, with its own
      identifier and callback) exactly when its timer had expired at the start and no
      callback run earlier in the sweep removed it; a timer that was neither expired
      nor removed is still in its slot; and nothing over is left, so no timer
      registered during the sweep has fired. */
  lemma SweepExact(was: seq<Timer>, now: Timeval, scripts: seq<Script>)
    requires Wf(was, EPOCH) && |scripts| == SIZE && Normal(now)
    requires forall j | 0 <= j < SIZE :: Punctual(scripts[j], now)
    ensures var (ts', ticks) := ProcessTimers(was, now, 0, scripts);
            forall j | 0 <= j < SIZE ::
              && FiresRightly(was, now, scripts, ticks, ticks, j)
              && (was[j].cb != NULL && !Over(was[j], now) && !RemovedBefore(ticks, scripts, was[j].id, SIZE)
                 ==> ts'[j] == was[j])
              && !Over(ts'[j], now)
  {
    hide IsTimeOver, Punctual, ProcessTimers;
    assert Reached(was, was, now, 0, scripts, []);
    SweepFrom(was, was, now, 0, scripts, []);
    var (ts', ticks) := ProcessTimers(was, now, 0, scripts);
    assert [] + ticks == ticks;
  }
}
