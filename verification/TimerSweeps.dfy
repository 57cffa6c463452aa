/** The timer sweep under any callbacks and any timeouts: the fate of every timer. */
module TimerSweeps {
  import opened Base
  import opened Deadline
  import opened Pending
  import opened SlotTable
  import opened Timers

  // ------------------------------------------------- one turn and the rest

  lemma RemovedPrepend(t: seq<Tick>, rest: seq<Tick>, scripts: seq<Script>, id: nat, i: nat, j: nat)
    requires |scripts| == SIZE && i < SIZE && j <= SIZE && |t| <= 1 && (t != [] ==> t[0].slot == i)
    ensures RemovedBefore(t + rest, scripts, id, j)
            <==> (t != [] && i < j && Removes(scripts[i], id)) || RemovedBefore(rest, scripts, id, j)
  {
    hide Removes;
    var all := t + rest;
    assert forall k | |t| <= k < |all| :: all[k] == rest[k - |t|];
    if k :| 0 <= k < |rest| && rest[k].slot < j && Removes(scripts[rest[k].slot], id) {
      assert all[|t| + k] == rest[k];
    }
    if t != [] {
      assert all[0] == t[0];
    }
  }

  lemma FiredPrepend(t: seq<Tick>, rest: seq<Tick>, j: nat)
    requires |t| <= 1
    ensures Fired(t + rest, j) <==> (t != [] && t[0].slot == j) || Fired(rest, j)
  {
    var all := t + rest;
    if t != [] {
      assert all[0] == t[0];
    }
    if k :| 0 <= k < |rest| && rest[k].slot == j {
      assert all[|t| + k] == rest[k];
    }
  }

  lemma NoneFires(ticks: seq<Tick>, j: nat)
    requires forall k | 0 <= k < |ticks| :: ticks[k].slot != j
    ensures !Fired(ticks, j)
  {
  }

  /** One turn, at slot i, leaves a timer in slot j that does not fire in it and is not
      removed by it. */
  lemma TurnStays(ts: seq<Timer>, now: Timeval, i: nat, script: Script, j: nat)
    requires |ts| == SIZE && Wf(ts, EPOCH) && i < SIZE && j < SIZE && ts[j].cb != NULL
    ensures var (ts', t) := TimerTurn(ts, now, i, script);
            && (i == j ==> t == if Over(ts[j], now) then [Tick(j, ts[j].id, ts[j].cb)] else [])
            && (t == [] ==> ts' == ts)
            && (i != j && !Removes(script, ts[j].id) ==> ts'[j] == ts[j])
  {
    OverwriteWf(ts, EPOCH, i, Free(EPOCH));
    hide Wf, IsTimeOver, RunOnTimers, Removes;
    if i != j && !Removes(script, ts[j].id) {
      ScriptStays(ts[i := Free(EPOCH)], script, j);
    }
  }

  // ------------------------------------------------- the fate of a timer

  /** Slot j fires, with these values and no others. */
  ghost predicate FiresAs(ticks: seq<Tick>, t: Tick) {
    Fired(ticks, t.slot) && forall k | 0 <= k < |ticks| && ticks[k].slot == t.slot :: ticks[k] == t
  }

  lemma FiresAsPrepend(t: seq<Tick>, rest: seq<Tick>, tick: Tick)
    requires |t| <= 1 && (t != [] ==> t[0].slot != tick.slot)
    ensures FiresAs(t + rest, tick) <==> FiresAs(rest, tick)
  {
    FiredPrepend(t, rest, tick.slot);
    hide Fired;
    var all := t + rest;
    assert forall k | |t| <= k < |all| :: all[k] == rest[k - |t|];
    assert forall k | 0 <= k < |rest| :: rest[k] == all[|t| + k];
  }

  /** The fate of the timer in slot j when a sweep goes on from slot i, with any
      callbacks and any timeouts: unless a callback run before its turn removes it, its
      slot fires, once and with its own identifier and callback, if and only if the slot
      is still to come and the timer is over; a slot that has been passed does not fire;
      and a timer that has been passed or is not over, and that no callback removes, is
      in its slot at the end. */
  lemma {:induction false} SweepFate(ts: seq<Timer>, now: Timeval, i: nat, scripts: seq<Script>, j: nat)
    requires |ts| == SIZE && Wf(ts, EPOCH) && i <= SIZE && |scripts| == SIZE && j < SIZE && ts[j].cb != NULL
    ensures var (ts', ticks) := ProcessTimers(ts, now, i, scripts); var t := ts[j];
            && (!RemovedBefore(ticks, scripts, t.id, j) ==>
                  if j >= i && Over(t, now) then FiresAs(ticks, Tick(j, t.id, t.cb)) else !Fired(ticks, j))
            && (j < i ==> !Fired(ticks, j))
            && ((j < i || !Over(t, now)) && !RemovedBefore(ticks, scripts, t.id, SIZE) ==> ts'[j] == t)
    decreases SIZE - i
  {
    hide Wf, Over, TimerTurn, Removes, RemovedBefore, Fired, FiresAs, ProcessTimers;
    Unfold(ts, now, i, scripts);
    if i == SIZE {
      NoneFires([], j);
    } else {
      var (ts1, t) := TimerTurn(ts, now, i, scripts[i]);
      var rest := ProcessTimers(ts1, now, i + 1, scripts).1;
      TurnWf(ts, now, i, scripts[i]);
      TurnStays(ts, now, i, scripts[i], j);
      SweepOncePerSlot(ts1, now, i + 1, scripts);
      RemovedPrepend(t, rest, scripts, ts[j].id, i, j);
      RemovedPrepend(t, rest, scripts, ts[j].id, i, SIZE);
      FiredPrepend(t, rest, j);
      if i >= j {
        NoneFires(rest, j);
      }
      if i == j {
        OwnTick(t, rest, Tick(j, ts[j].id, ts[j].cb));
      } else {
        FiresAsPrepend(t, rest, Tick(j, ts[j].id, ts[j].cb));
      }
      if ts1[j] == ts[j] {
        SweepFate(ts1, now, i + 1, scripts, j);
      }
    }
  }

  lemma OwnTick(t: seq<Tick>, rest: seq<Tick>, tick: Tick)
    requires t == [tick] || t == []
    requires forall k | 0 <= k < |rest| :: rest[k].slot != tick.slot
    ensures FiresAs(t + rest, tick) <==> t == [tick]
  {
    if t == [tick] {
      assert (t + rest)[0] == tick;
    }
  }

  // ------------------------------------------------- exactly, by identifier

  predicate Registers(script: Script, id: nat) {
    exists k :: 0 <= k < |script| && script[k].DoRegisterTimer? && script[k].timerId == id
  }

  predicate Absent(ts: seq<Timer>, id: nat)
    requires |ts| == SIZE
  {
    forall j | 0 <= j < SIZE :: ts[j].id != id
  }

  ghost predicate FiredId(ticks: seq<Tick>, id: nat) {
    exists k :: 0 <= k < |ticks| && ticks[k].id == id
  }

  lemma RegistersCons(script: Script, id: nat)
    requires script != []
    ensures Registers(script, id)
            <==> (script[0].DoRegisterTimer? && script[0].timerId == id) || Registers(script[1..], id)
  {
  }

  lemma ActGone(ts: seq<Timer>, a: Action, id: nat)
    requires |ts| == SIZE && Wf(ts, EPOCH) && id != 0 && !(a.DoRegisterTimer? && a.timerId == id)
    ensures Absent(ts, id) || Takes(a, id) ==> Absent(ActOnTimers(ts, a), id)
  {
    if a == DoDeregisterTimer(id) && !Absent(ts, id) {
      AloneAt(ts, EPOCH, FindId(ts, id, 0));
    }
  }

  /** A timer that a callback removes and does not register again is gone. */
  lemma {:induction false} ScriptGone(ts: seq<Timer>, script: Script, id: nat)
    requires |ts| == SIZE && Wf(ts, EPOCH) && id != 0 && !Registers(script, id)
    ensures Absent(ts, id) || Removes(script, id) ==> Absent(RunOnTimers(ts, script), id)
    decreases |script|
  {
    hide Wf, ActOnTimers, Takes, Absent;
    if script != [] {
      RegistersCons(script, id);
      RemovesCons(script, id);
      ActWf(ts, script[0]);
      ActGone(ts, script[0], id);
      ScriptGone(ActOnTimers(ts, script[0]), script[1..], id);
    }
  }

  /** After a turn at the timer's own slot or one whose callback removes it, it is gone. */
  lemma TurnGone(ts: seq<Timer>, now: Timeval, i: nat, script: Script, id: nat)
    requires |ts| == SIZE && Wf(ts, EPOCH) && i < SIZE && id != 0 && !Registers(script, id)
    ensures var (ts', t) := TimerTurn(ts, now, i, script);
            && (Absent(ts, id) ==> t == [] || t[0].id != id)
            && (Absent(ts, id) || (t != [] && (ts[i].id == id || Removes(script, id))) ==> Absent(ts', id))
  {
    OverwriteWf(ts, EPOCH, i, Free(EPOCH));
    if ts[i].id == id {
      AloneAt(ts, EPOCH, i);
    }
    hide Wf, IsTimeOver, RunOnTimers, Removes;
    ScriptGone(ts[i := Free(EPOCH)], script, id);
  }

  lemma FiredIdPrepend(t: seq<Tick>, rest: seq<Tick>, id: nat)
    requires |t| <= 1
    ensures FiredId(t + rest, id) <==> (t != [] && t[0].id == id) || FiredId(rest, id)
  {
    var all := t + rest;
    if t != [] {
      assert all[0] == t[0];
    }
    if k :| 0 <= k < |rest| && rest[k].id == id {
      assert all[|t| + k] == rest[k];
    }
  }

  lemma {:induction false} SweepGone(ts: seq<Timer>, now: Timeval, i: nat, scripts: seq<Script>, id: nat)
    requires |ts| == SIZE && Wf(ts, EPOCH) && i <= SIZE && |scripts| == SIZE && id != 0 && Absent(ts, id)
    requires forall k | 0 <= k < SIZE :: !Registers(scripts[k], id)
    ensures var (ts', ticks) := ProcessTimers(ts, now, i, scripts); Absent(ts', id) && !FiredId(ticks, id)
    decreases SIZE - i
  {
    hide Wf, TimerTurn, Registers, Absent, FiredId, ProcessTimers;
    Unfold(ts, now, i, scripts);
    if i == SIZE {
      NoIdFires(id);
    } else {
      var (ts1, t) := TimerTurn(ts, now, i, scripts[i]);
      TurnWf(ts, now, i, scripts[i]);
      TurnGone(ts, now, i, scripts[i], id);
      SweepGone(ts1, now, i + 1, scripts, id);
      FiredIdPrepend(t, ProcessTimers(ts1, now, i + 1, scripts).1, id);
    }
  }

  lemma NoIdFires(id: nat)
    ensures !FiredId([], id)
  {
  }

  lemma NotAbsent(ts: seq<Timer>, j: nat)
    requires |ts| == SIZE && j < SIZE
    ensures !Absent(ts, ts[j].id)
  {
  }

  lemma TickOfSlot(ts: seq<Timer>, now: Timeval, i: nat, script: Script, j: nat)
    requires |ts| == SIZE && Wf(ts, EPOCH) && i < SIZE && j < SIZE && ts[j].cb != NULL
    ensures ts[j].id != 0 && (i != j ==> ts[i].id != ts[j].id)
    ensures var t := TimerTurn(ts, now, i, script).1; t != [] ==> t[0].id == ts[i].id
  {
    AloneAt(ts, EPOCH, j);
    hide RunOnTimers, IsTimeOver;
  }

  /** A timer that no callback registers again fires if and only if its slot is still to
      come, it is over and no callback run before its turn removes it; and it is in its
      slot at the end if and only if its slot has been passed or it is not over, and no
      callback removes it. */
  lemma {:induction false} SweepFateById(ts: seq<Timer>, now: Timeval, i: nat, scripts: seq<Script>, j: nat)
    requires |ts| == SIZE && Wf(ts, EPOCH) && i <= SIZE && |scripts| == SIZE && j < SIZE && ts[j].cb != NULL
    requires forall k | 0 <= k < SIZE :: !Registers(scripts[k], ts[j].id)
    ensures var (ts', ticks) := ProcessTimers(ts, now, i, scripts); var t := ts[j];
            && (FiredId(ticks, t.id) <==> j >= i && Over(t, now) && !RemovedBefore(ticks, scripts, t.id, j))
            && (ts'[j] == t <==> (j < i || !Over(t, now)) && !RemovedBefore(ticks, scripts, t.id, SIZE))
    decreases SIZE - i
  {
    hide Wf, Over, TimerTurn, Removes, Registers, Absent, FiredId, ProcessTimers, RemovedBefore;
    Unfold(ts, now, i, scripts);
    if i == SIZE {
      NoIdFires(ts[j].id);
      NoneRemoved([], scripts, ts[j].id, SIZE);
    } else {
      var id := ts[j].id;
      var (ts1, t) := TimerTurn(ts, now, i, scripts[i]);
      var (ts', rest) := ProcessTimers(ts1, now, i + 1, scripts);
      TurnWf(ts, now, i, scripts[i]);
      TurnStays(ts, now, i, scripts[i], j);
      TickOfSlot(ts, now, i, scripts[i], j);
      TurnGone(ts, now, i, scripts[i], id);
      RemovedPrepend(t, rest, scripts, id, i, j);
      RemovedPrepend(t, rest, scripts, id, i, SIZE);
      FiredIdPrepend(t, rest, id);
      NotAbsent(ts1, j);
      if i == j {
        SweepOncePerSlot(ts1, now, i + 1, scripts);
        NoneRemoved(rest, scripts, id, j);
      }
      if ts1[j] == ts[j] && !(i == j && t != []) {
        SweepFateById(ts1, now, i + 1, scripts, j);
      } else {
        SweepGone(ts1, now, i + 1, scripts, id);
        NotAbsent(ts', j);
      }
    }
  }

  lemma NoneRemoved(ticks: seq<Tick>, scripts: seq<Script>, id: nat, j: nat)
    requires |scripts| == SIZE && forall k | 0 <= k < |ticks| :: ticks[k].slot >= j
    ensures !RemovedBefore(ticks, scripts, id, j)
  {
  }

  // ------------------------------------------------- timers registered by callbacks

  lemma RegisteredAt(ts: seq<Timer>, id: nat, timeout: nat, cb: Callback, at: Timeval, now: Timeval)
    requires |ts| == SIZE && Wf(ts, EPOCH) && Normal(at) && Normal(now)
    requires Register(ts, id, cb, ExpiresAt(at, timeout)).1.Done?
    ensures var f, ts1 := FindFree(ts, 0), RegisterTimer(ts, id, timeout, cb, at);
            && f < SIZE && ts1 == ts[f := Entry(id, cb, ExpiresAt(at, timeout))] && id != 0 && cb != NULL
            && Wf(ts1, EPOCH)
            && (Over(ts1[f], now) <==> Micros(now) - Micros(at) >= timeout * 1000)
  {
    OverWhenElapsed(now, at, timeout);
    hide IsTimeOver, ExpiresAt;
    OverwriteWf(ts, EPOCH, FindFree(ts, 0), Entry(id, cb, ExpiresAt(at, timeout)));
  }

  /** A timer that the callback of slot i registers in table ts, before it goes on with
      `rest`: unless somebody removes it first, its slot, the first free one, fires with
      it in this sweep if and only if the slot is still to come and the timeout has
      elapsed; otherwise, if nobody removes it at all, it is in its slot at the end. */
  lemma RegisteredDuringSweep(ts: seq<Timer>, id: nat, timeout: nat, cb: Callback, at: Timeval, rest: Script,
                              now: Timeval, i: nat, scripts: seq<Script>)
    requires |ts| == SIZE && Wf(ts, EPOCH) && i < SIZE && |scripts| == SIZE && Normal(at) && Normal(now)
    requires Register(ts, id, cb, ExpiresAt(at, timeout)).1.Done? && !Removes(rest, id)
    ensures var f, ts1 := FindFree(ts, 0), RegisterTimer(ts, id, timeout, cb, at);
            var (ts', ticks) := ProcessTimers(RunOnTimers(ts1, rest), now, i + 1, scripts);
            var elapsed := Micros(now) - Micros(at) >= timeout * 1000;
            && f < SIZE && ts1[f].id == id && ts1[f].cb == cb
            && (!RemovedBefore(ticks, scripts, id, f) ==>
                  if f > i && elapsed then FiresAs(ticks, Tick(f, id, cb)) else !Fired(ticks, f))
            && ((f <= i || !elapsed) && !RemovedBefore(ticks, scripts, id, SIZE) ==> ts'[f] == ts1[f])
  {
    RegisteredAt(ts, id, timeout, cb, at, now);
    var f, ts1 := FindFree(ts, 0), RegisterTimer(ts, id, timeout, cb, at);
    hide Wf, Over, ProcessTimers, RunOnTimers, Removes, RemovedBefore, Fired, FiresAs, FindFree, Register, ExpiresAt;
    ScriptWf(ts1, rest);
    ScriptStays(ts1, rest, f);
    SweepFate(RunOnTimers(ts1, rest), now, i + 1, scripts, f);
  }

  /** If no callback registers that identifier again, it fires in this sweep if and only
      if its slot is still to come, its timeout has elapsed and nobody removes it first;
      and it is in its slot at the end if and only if it did not have to fire and nobody
      removed it. */
  lemma RegisteredOnce(ts: seq<Timer>, id: nat, timeout: nat, cb: Callback, at: Timeval, rest: Script,
                       now: Timeval, i: nat, scripts: seq<Script>)
    requires |ts| == SIZE && Wf(ts, EPOCH) && i < SIZE && |scripts| == SIZE && Normal(at) && Normal(now)
    requires Register(ts, id, cb, ExpiresAt(at, timeout)).1.Done?
    requires !Registers(rest, id) && forall k | 0 <= k < SIZE :: !Registers(scripts[k], id)
    ensures var f, ts1 := FindFree(ts, 0), RegisterTimer(ts, id, timeout, cb, at);
            var (ts', ticks) := ProcessTimers(RunOnTimers(ts1, rest), now, i + 1, scripts);
            var elapsed := Micros(now) - Micros(at) >= timeout * 1000;
            && f < SIZE
            && (FiredId(ticks, id) <==>
                  f > i && elapsed && !Removes(rest, id) && !RemovedBefore(ticks, scripts, id, f))
            && (ts'[f] == ts1[f] <==>
                  (f <= i || !elapsed) && !Removes(rest, id) && !RemovedBefore(ticks, scripts, id, SIZE))
  {
    RegisteredAt(ts, id, timeout, cb, at, now);
    var f, ts1 := FindFree(ts, 0), RegisterTimer(ts, id, timeout, cb, at);
    hide Wf, Over, ProcessTimers, RunOnTimers, Removes, Registers, RemovedBefore, FiredId, FindFree, Register,
         ExpiresAt, Absent;
    var ts2 := RunOnTimers(ts1, rest);
    ScriptWf(ts1, rest);
    if Removes(rest, id) {
      ScriptGone(ts1, rest, id);
      SweepGone(ts2, now, i + 1, scripts, id);
      NotAbsent(ProcessTimers(ts2, now, i + 1, scripts).0, f);
    } else {
      ScriptStays(ts1, rest, f);
      SweepFateById(ts2, now, i + 1, scripts, f);
    }
  }

  // ------------------------------------------------- an input

  /** Register a timer that is due at once. */
  function Zero(id: nat, now: Timeval): Action {
    DoRegisterTimer(id, 0, 8, now)
  }

  lemma RegisterZero(ts: seq<Timer>, id: nat, now: Timeval, f: nat)
    requires |ts| == SIZE && Normal(now) && f < SIZE && FindFree(ts, 0) == f && id != 0
    requires forall j | 0 <= j < SIZE :: ts[j].id != id
    ensures ActOnTimers(ts, Zero(id, now)) == ts[f := Entry(id, 8, now)]
  {
  }

  /** In an empty table a callback registers two such timers. */
  lemma TwoZeroTimers(now: Timeval)
    requires Normal(now)
    ensures RunOnTimers(Clear(EPOCH), [Zero(2, now), Zero(3, now)]) ==
            Clear(EPOCH)[0 := Entry(2, 8, now)][1 := Entry(3, 8, now)]
  {
    var ts, a, b := Clear(EPOCH), Zero(2, now), Zero(3, now);
    RegisterZero(ts, 2, now, 0);
    var ts1 := ts[0 := Entry(2, 8, now)];
    assert FindFree(ts1, 0) == 1 by {
      assert FindFree(ts1, 1) == 1;
    }
    RegisterZero(ts1, 3, now, 1);
    hide ActOnTimers, FindFree, Zero, Clear;
    assert [a, b][1..] == [b];
    var ts2 := ActOnTimers(ts1, b);
    assert RunOnTimers(ts1, [b]) == RunOnTimers(ts2, []) == ts2;
  }

  lemma {:induction false} NothingOver(ts: seq<Timer>, now: Timeval, i: nat, scripts: seq<Script>)
    requires |ts| == SIZE && i <= SIZE && |scripts| == SIZE
    requires forall j | i <= j < SIZE :: !Over(ts[j], now)
    ensures ProcessTimers(ts, now, i, scripts) == (ts, [])
    decreases SIZE - i
  {
    hide Over, ProcessTimers;
    Unfold(ts, now, i, scripts);
    if i < SIZE {
      NothingOver(ts, now, i + 1, scripts);
      var none: seq<Tick> := [];
      assert none + none == none;
    }
  }

  /** From the initial table: one timer is registered and comes due; its callback
      registers two more with timeout 0, which get slots 0 and 1, and the one in slot 1
      fires in the sweep that is still running, the one in slot 0 does not. */
  lemma ZeroTimerFires(now: Timeval, scripts: seq<Script>)
    requires Normal(now) && |scripts| == SIZE
    requires scripts[0] == [Zero(2, now), Zero(3, now)] && scripts[1] == []
    ensures ProcessTimers(RunOnTimers(Clear(EPOCH), [Zero(1, now)]), now, 0, scripts) ==
            (Clear(EPOCH)[0 := Entry(2, 8, now)], [Tick(0, 1, 8), Tick(1, 3, 8)])
  {
    var was := Clear(EPOCH)[0 := Entry(1, 8, now)];
    FirstTimer(now);
    FirstTurn(now);
    hide RunOnTimers, Zero, ProcessTimers, Clear, TimerTurn;
    Unfold(was, now, 0, scripts);
    SecondTurn(now, scripts);
    assert [Tick(0, 1, 8)] + [Tick(1, 3, 8)] == [Tick(0, 1, 8), Tick(1, 3, 8)];
  }

  lemma FirstTimer(now: Timeval)
    requires Normal(now)
    ensures RunOnTimers(Clear(EPOCH), [Zero(1, now)]) == Clear(EPOCH)[0 := Entry(1, 8, now)]
  {
    var ts, a := Clear(EPOCH), Zero(1, now);
    RegisterZero(ts, 1, now, 0);
    hide ActOnTimers, FindFree, Zero, Clear;
    assert [a][1..] == [];
    NothingRun(ActOnTimers(ts, a));
  }

  lemma FirstTurn(now: Timeval)
    requires Normal(now)
    ensures TimerTurn(Clear(EPOCH)[0 := Entry(1, 8, now)], now, 0, [Zero(2, now), Zero(3, now)]) ==
            (Clear(EPOCH)[0 := Entry(2, 8, now)][1 := Entry(3, 8, now)], [Tick(0, 1, 8)])
  {
    TwoZeroTimers(now);
    hide RunOnTimers, Zero;
    assert Clear(EPOCH)[0 := Entry(1, 8, now)][0 := Free(EPOCH)] == Clear(EPOCH);
  }

  lemma SecondTurn(now: Timeval, scripts: seq<Script>)
    requires Normal(now) && |scripts| == SIZE && scripts[1] == []
    ensures var ts := Clear(EPOCH)[0 := Entry(2, 8, now)];
            ProcessTimers(ts[1 := Entry(3, 8, now)], now, 1, scripts) == (ts, [Tick(1, 3, 8)])
  {
    var ts := Clear(EPOCH)[0 := Entry(2, 8, now)];
    var ts2, second := ts[1 := Entry(3, 8, now)], [Tick(1, 3, 8)];
    hide RunOnTimers, ProcessTimers;
    Unfold(ts2, now, 1, scripts);
    assert ts2[1 := Free(EPOCH)] == ts;
    NothingRun(ts);
    NothingOver(ts, now, 2, scripts);
    assert second + [] == second;
  }

  lemma NothingRun(ts: seq<Timer>)
    requires |ts| == SIZE
    ensures RunOnTimers(ts, []) == ts
  {
  }
}
