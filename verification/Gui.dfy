/** The manager's gCtxt as the source keeps it: three arrays of slots updated in place,
    a sequence counter and the message port.  Every method is tied to the functions of
    Pending, Timers and Notifies. */
module Gui {
  import opened Base
  import opened Deadline
  import N = Net
  import W = Wire
  import opened Ipc
  import P = Pending
  import Protocol
  import opened SlotTable
  import T = Timers
  import No = Notifies
  import Scripts
  import Trace

  // ------------------------------------------------- what sweeps run

  /** Everything the callbacks of one response-timeout sweep do, in order. */
  function SweepScripts(m: P.Mgr, now: Timeval, i: nat, scripts: seq<P.Script>): P.Script
    requires P.ValidMgr(m) && i <= GUI_MAX_REQUESTS && |scripts| == GUI_MAX_REQUESTS
    decreases GUI_MAX_REQUESTS - i
  {
    if i == GUI_MAX_REQUESTS then []
    else (if P.Expired(m.slots[i], now) && m.slots[i].cb != NULL then scripts[i] else [])
         + SweepScripts(P.SweepSlot(m, now, i, scripts[i]), now, i + 1, scripts)
  }

  /** Everything the callbacks of one timer sweep do, in order. */
  function TickScripts(ticks: seq<T.Tick>, scripts: seq<P.Script>): P.Script
    requires |scripts| == SIZE
  {
    if ticks == [] then []
    else (if ticks[0].slot < SIZE then scripts[ticks[0].slot] else []) + TickScripts(ticks[1..], scripts)
  }

  lemma {:induction false} TickScriptsAppend(a: seq<T.Tick>, b: seq<T.Tick>, scripts: seq<P.Script>)
    requires |scripts| == SIZE
    ensures TickScripts(a + b, scripts) == TickScripts(a, scripts) + TickScripts(b, scripts)
  {
    if a == [] {
      assert a + b == b;
    } else {
      assert (a + b)[1..] == a[1..] + b;
      TickScriptsAppend(a[1..], b, scripts);
    }
  }

  const WINID_INVALID := 0

  class GuiContext {
    const requests: array<P.Slot>
    const timers: array<T.Timer>
    const notifies: array<No.Notify>
    const ipc: Port
    var gSeqNum: nat
    // history
    ghost var issued: nat
    ghost var recs: map<nat, P.Rec>
    ghost var log: seq<P.Event>

    ghost predicate Valid()
      reads this, ipc
    {
      && requests.Length == GUI_MAX_REQUESTS && timers.Length == SIZE && notifies.Length == SIZE
      && ipc.Valid() && gSeqNum == P.NextSeqNum(issued)
    }

    ghost function View(): (m: P.Mgr)
      reads this, requests, ipc
      requires Valid()
      ensures P.ValidMgr(m)
    {
      P.Mgr(requests[..], issued, ipc.View(), recs, log)
    }

    /** The timer and notify tables are what the script makes of the old ones. */
    twostate predicate OthersRan(script: P.Script)
      reads this, timers, notifies
      requires timers.Length == SIZE && notifies.Length == SIZE
    {
      && timers[..] == T.RunOnTimers(old(timers[..]), script)
      && notifies[..] == No.RunOnNotifies(old(notifies[..]), script)
    }

    constructor ()
      ensures Valid() && View() == Protocol.Init().mgr
      ensures timers[..] == Clear(T.EPOCH) && notifies[..] == Clear(())
      ensures fresh(requests) && fresh(timers) && fresh(notifies) && fresh(ipc)
    {
      requests := new P.Slot[GUI_MAX_REQUESTS](_ => P.CLEARED);
      timers := new T.Timer[SIZE](_ => Free(T.EPOCH));
      notifies := new No.Notify[SIZE](_ => Free(()));
      ipc := new Port();
      gSeqNum, issued, recs, log := 1, 0, map[], [];
    }

    // ----------------------------------------------- request.c, requests

    method SendShortRequest(idx: nat, bytes: seq<byte>, fault: N.Fault) returns (ret: nat)
      requires Valid() && idx < GUI_MAX_REQUESTS && N.Fits(bytes)
      requires requests[idx].seqNum < TWO32 && requests[idx].id < TWO16
      modifies requests, ipc
      ensures Valid()
      ensures (ipc.View(), ret)
              == N.SendShortRequest(old(ipc.View()), old(requests[idx].seqNum), old(requests[idx].id), bytes, fault)
      ensures requests[..] == if ret == GUI_SUCCESS then old(requests[..]) else old(requests[..])[idx := P.CLEARED]
    {
      if fault.Calloc? {
        requests[idx] := P.CLEARED;
        return GUI_ERR_NO_MEMORY;
      }
      var s, id := requests[idx].seqNum, requests[idx].id;
      ret := ipc.SendShort(MSG_TYPE_SHORT_REQUEST, s, id, N.TaskOf(id), bytes, fault);
      if ret != IPC_SUCCESS {
        requests[idx] := P.CLEARED;
        return GUI_ERR_IPC_SEND;
      }
    }

    method SendLongRequest(idx: nat, bytes: seq<byte>, fault: N.Fault) returns (ret: nat)
      requires Valid() && idx < GUI_MAX_REQUESTS && |bytes| < TWO32
      requires requests[idx].seqNum < TWO32 && requests[idx].id < TWO16
      modifies requests, ipc
      ensures Valid()
      ensures (ipc.View(), ret)
              == N.SendLongRequest(old(ipc.View()), old(requests[idx].seqNum), old(requests[idx].id), bytes, fault)
      ensures requests[..] == if ret == GUI_SUCCESS then old(requests[..]) else old(requests[..])[idx := P.CLEARED]
    {
      var s, id := requests[idx].seqNum, requests[idx].id;
      var ok := false;
      if !fault.ShmGet? {
        ok := ipc.ShmCreate(s, |bytes|);
      }
      if !ok {
        requests[idx] := P.CLEARED;
        return GUI_ERR_SHM_ALLOCATE;
      }
      if fault.ShmAt? {
        requests[idx] := P.CLEARED;
        return GUI_ERR_SHM_ATTACH;
      }
      ipc.shm := N.ShmWrite(ipc.shm, s, bytes);
      if fault.ShmDt? {
        requests[idx] := P.CLEARED;
        return GUI_ERR_SHM_DETACH;
      }
      if fault.Calloc? {
        requests[idx] := P.CLEARED;
        return GUI_ERR_NO_MEMORY;
      }
      ret := ipc.SendLong(MSG_TYPE_LONG_REQUEST, s, id, N.TaskOf(id), |bytes|, fault);
      if ret != IPC_SUCCESS {
        requests[idx] := P.CLEARED;
        return GUI_ERR_IPC_SEND;
      }
    }

    /** The search loop of Request. */
    method FindFreeRequest() returns (idx: nat)
      requires Valid()
      ensures idx == P.FirstFree(requests[..], 0)
    {
      idx := 0;
      while idx < GUI_MAX_REQUESTS && requests[idx].id != 0
        invariant idx <= GUI_MAX_REQUESTS
        invariant P.FirstFree(requests[..], 0) == P.FirstFree(requests[..], idx)
      {
        idx := idx + 1;
      }
    }

    method Request(c: P.Call) returns (ret: nat)
      requires Valid() && Protocol.CallInRange(c)
      modifies this, requests, ipc
      ensures Valid() && (View(), ret) == P.Request(old(View()), c) && log == old(log)
    {
      hide NetOf, Packets, N.SendShortRequest, N.SendLongRequest, ExpiresAt;
      if c.isNull && |c.bytes| != 0 {
        return GUI_ERR_PARAMETER;
      }
      if c.id == 0 {
        return GUI_ERR_REQUESTID_INVALID;
      }
      var idx := FindFreeRequest();
      if idx == GUI_MAX_REQUESTS {
        return GUI_ERR_REQUESTS_FULL;
      }
      var s := gSeqNum;
      gSeqNum := (gSeqNum + 1) % TWO32;
      issued := issued + 1;
      requests[idx] := P.Slot(s, c.id, c.cb, ExpiresAt(c.at, c.timeout));
      assert requests[..] == old(requests[..])[idx := requests[idx]];
      assert requests[..][idx := P.CLEARED] == old(requests[..])[idx := P.CLEARED];
      if |c.bytes| + HDR_SIZE <= MAX_MESSAGE_SIZE {
        ret := SendShortRequest(idx, c.bytes, c.fault);
      } else {
        ret := SendLongRequest(idx, c.bytes, c.fault);
      }
      if ret == GUI_SUCCESS {
        recs := recs[s := P.Rec(idx, c.id, c.cb, c.bytes, requests[idx].expires, P.Waiting, P.InitialStage(c.id))];
      }
    }

    method ClearRequests()
      requires Valid()
      modifies requests, this`recs
      ensures Valid() && View() == P.ClearRequests(old(View()))
    {
      var idx := 0;
      while idx < GUI_MAX_REQUESTS
        invariant idx <= GUI_MAX_REQUESTS && recs == old(recs)
        invariant forall k | 0 <= k < idx :: requests[k] == P.CLEARED
      {
        requests[idx] := P.CLEARED;
        idx := idx + 1;
      }
      assert requests[..] == seq(GUI_MAX_REQUESTS, _ => P.CLEARED);
      recs := P.DropWaiting(recs);
    }

    // ----------------------------------------------- timer.c

    method RegisterTimerCallback(timerId: nat, timeout: nat, cb: Callback, now: Timeval) returns (ret: nat)
      requires Valid()
      modifies timers
      ensures var (ts, out) := Register(old(timers[..]), timerId, cb, ExpiresAt(now, timeout));
              timers[..] == ts && ret == T.TimerError(out)
    {
      hide ExpiresAt;
      if cb == NULL {
        return GUI_ERR_PARAMETER;
      }
      if timerId == 0 {
        return GUI_ERR_TIMERID_INVALID;
      }
      var i := 0;
      while i < SIZE
        invariant i <= SIZE && timers[..] == old(timers[..])
        invariant FindId(timers[..], timerId, 0) == FindId(timers[..], timerId, i)
      {
        if timerId == timers[i].id {
          return GUI_ERR_TIMERID_INVALID;
        }
        i := i + 1;
      }
      i := 0;
      while i < SIZE && timers[i].cb != NULL
        invariant i <= SIZE && timers[..] == old(timers[..])
        invariant FindFree(timers[..], 0) == FindFree(timers[..], i)
      {
        i := i + 1;
      }
      if i == SIZE {
        return GUI_ERR_TIMERS_FULL;
      }
      timers[i] := Entry(timerId, cb, ExpiresAt(now, timeout));
      return GUI_SUCCESS;
    }

    method DeregisterTimer(timerId: nat) returns (ret: nat)
      requires Valid()
      modifies timers
      ensures var (ts, out) := Deregister(old(timers[..]), timerId, T.EPOCH);
              timers[..] == ts && ret == T.TimerError(out)
    {
      if timerId == 0 {
        return GUI_ERR_TIMERID_INVALID;
      }
      var i := 0;
      while i < SIZE && timerId != timers[i].id
        invariant i <= SIZE && timers[..] == old(timers[..])
        invariant FindId(timers[..], timerId, 0) == FindId(timers[..], timerId, i)
      {
        i := i + 1;
      }
      if i == SIZE {
        return GUI_ERR_TIMERID_INVALID;
      }
      timers[i] := Free(T.EPOCH);
      return GUI_SUCCESS;
    }

    method ClearTimers()
      requires Valid()
      modifies timers
      ensures timers[..] == Clear(T.EPOCH)
    {
      var i := 0;
      while i < SIZE
        invariant i <= SIZE && forall k | 0 <= k < i :: timers[k] == Free(T.EPOCH)
      {
        timers[i] := Free(T.EPOCH);
        i := i + 1;
      }
    }

    // ----------------------------------------------- notify.c

    method RegisterNotifyCallback(notifyId: nat, cb: Callback) returns (ret: nat)
      requires Valid()
      modifies notifies
      ensures var (ns, out) := Register(old(notifies[..]), notifyId, cb, ());
              notifies[..] == ns && ret == No.NotifyError(out)
    {
      if cb == NULL {
        return GUI_ERR_PARAMETER;
      }
      if notifyId == 0 {
        return GUI_ERR_NOTIFYID_INVALID;
      }
      var i := 0;
      while i < SIZE
        invariant i <= SIZE && notifies[..] == old(notifies[..])
        invariant FindId(notifies[..], notifyId, 0) == FindId(notifies[..], notifyId, i)
      {
        if notifyId == notifies[i].id {
          return GUI_ERR_NOTIFYID_INVALID;
        }
        i := i + 1;
      }
      i := 0;
      while i < SIZE && notifies[i].cb != NULL
        invariant i <= SIZE && notifies[..] == old(notifies[..])
        invariant FindFree(notifies[..], 0) == FindFree(notifies[..], i)
      {
        i := i + 1;
      }
      if i == SIZE {
        return GUI_ERR_NOTIFIES_FULL;
      }
      notifies[i] := Entry(notifyId, cb, ());
      return GUI_SUCCESS;
    }

    method ClearNotifies()
      requires Valid()
      modifies notifies
      ensures notifies[..] == Clear(())
    {
      var i := 0;
      while i < SIZE
        invariant i <= SIZE && forall k | 0 <= k < i :: notifies[k] == Free(())
      {
        notifies[i] := Free(());
        i := i + 1;
      }
    }

    // ----------------------------------------------- callbacks

    /** LoadWindow up to the call of OnLoad, which is the rest of the script; the
        invalid window identifier is ignored. */
    method LoadWindow(winId: nat)
      requires Valid()
      modifies requests, timers, notifies, this`recs
      ensures Valid()
      ensures winId == 0 ==>
                View() == old(View()) && timers[..] == old(timers[..]) && notifies[..] == old(notifies[..])
      ensures winId != 0 ==>
                && View() == P.ClearRequests(old(View()))
                && timers[..] == Clear(T.EPOCH) && notifies[..] == Clear(())
    {
      if winId == WINID_INVALID {
        return;
      }
      ClearTimers();
      ClearRequests();
      ClearNotifies();
    }

    method DoAction(a: P.Action)
      requires Valid() && Protocol.ScriptInRange([a])
      modifies this, requests, timers, notifies, ipc
      ensures Valid() && View() == P.Act(old(View()), a)
      ensures timers[..] == T.ActOnTimers(old(timers[..]), a)
      ensures notifies[..] == No.ActOnNotifies(old(notifies[..]), a)
    {
      assert [a][0] == a;
      hide P.Request, P.ClearRequests, Register, Deregister, NetOf, ExpiresAt, Clear;
      match a {
        case DoRequest(c) => var ret := Request(c);
        case DoRegisterTimer(id, timeout, cb, at) => var ret := RegisterTimerCallback(id, timeout, cb, at);
        case DoDeregisterTimer(id) => var ret := DeregisterTimer(id);
        case DoRegisterNotify(id, cb) => var ret := RegisterNotifyCallback(id, cb);
        case DoLoadWindow => LoadWindow(WINID_INVALID + 1);
      }
    }

    /** The API calls a callback makes while it runs. */
    method RunScript(script: P.Script)
      requires Valid() && Protocol.ScriptInRange(script)
      modifies this, requests, timers, notifies, ipc
      ensures Valid() && View() == P.RunScript(old(View()), script) && OthersRan(script)
    {
      hide P.Act, T.ActOnTimers, No.ActOnNotifies, NetOf;
      var k := 0;
      while k < |script|
        invariant k <= |script| && Valid()
        invariant P.RunScript(View(), script[k..]) == P.RunScript(old(View()), script)
        invariant T.RunOnTimers(timers[..], script[k..]) == T.RunOnTimers(old(timers[..]), script)
        invariant No.RunOnNotifies(notifies[..], script[k..]) == No.RunOnNotifies(old(notifies[..]), script)
      {
        assert script[k..][0] == script[k] && script[k..][1..] == script[k + 1..];
        DoAction(script[k]);
        k := k + 1;
      }
      assert script[k..] == [];
    }

    /** What runs when slot i's response callback is called. */
    method FinishRequest(i: nat, status: P.Status, data: seq<byte>, err: nat, script: P.Script)
      requires Valid() && i < GUI_MAX_REQUESTS && Protocol.ScriptInRange(script)
      modifies this, requests, timers, notifies, ipc
      ensures Valid()
      ensures var m1 := P.Finish(old(View()), i, status, data, err);
              if old(requests[i].cb) != NULL then View() == P.RunScript(m1, script) && OthersRan(script)
              else View() == m1 && OthersRan([])
      ensures |log| == |old(log)| + (if old(requests[i].cb) != NULL then 1 else 0)
      ensures old(requests[i].cb) == NULL ==> log == old(log)
    {
      hide P.RunScript, T.RunOnTimers, No.RunOnNotifies, NetOf, P.SetStatus;
      var slot := requests[i];
      requests[i] := P.CLEARED;
      recs := P.SetStatus(recs, slot.seqNum, status);
      assert requests[..] == old(requests[..])[i := P.CLEARED];
      if slot.cb != NULL {
        log := log + [P.Event(slot.seqNum, slot.cb, data, err)];
        Scripts.ScriptsDoNotLog(View(), script);
        RunScript(script);
      } else {
        NothingRan(timers[..], notifies[..]);
      }
    }

    /** One turn of the ProcessResponseTimeouts loop. */
    method TimeoutTurn(i: nat, now: Timeval, script: P.Script)
      requires Valid() && i < GUI_MAX_REQUESTS && Protocol.ScriptInRange(script)
      modifies this, requests, timers, notifies, ipc
      ensures Valid() && View() == P.SweepSlot(old(View()), now, i, script)
      ensures OthersRan(if P.Expired(old(requests[i]), now) && old(requests[i]).cb != NULL then script else [])
    {
      hide P.RunScript, T.RunOnTimers, No.RunOnNotifies, NetOf, P.Finish, IsTimeOver, Protocol.ScriptInRange;
      if requests[i].id != 0 && IsTimeOver(now, requests[i].expires) {
        FinishRequest(i, P.TimedOut, [], GUI_ERR_RESP_TIMEOUT, script);
      } else {
        NothingRan(timers[..], notifies[..]);
      }
    }

    method ProcessResponseTimeouts(now: Timeval, scripts: seq<P.Script>)
      requires Valid() && |scripts| == GUI_MAX_REQUESTS
      requires forall j | 0 <= j < GUI_MAX_REQUESTS :: Protocol.ScriptInRange(scripts[j])
      modifies this, requests, timers, notifies, ipc
      ensures Valid() && View() == P.Sweep(old(View()), now, 0, scripts)
      ensures OthersRan(SweepScripts(old(View()), now, 0, scripts))
    {
      hide T.RunOnTimers, No.RunOnNotifies, NetOf, IsTimeOver, P.SweepSlot, Protocol.ScriptInRange, P.Sweep,
           SweepScripts, SweepSoFar;
      ghost var m0, ts0, ns0 := View(), timers[..], notifies[..];
      ghost var ran: P.Script := [];
      NothingRan(ts0, ns0);
      SweepBegins(m0, now, scripts);
      var i := 0;
      while i < GUI_MAX_REQUESTS
        invariant i <= GUI_MAX_REQUESTS && Valid()
        invariant timers[..] == T.RunOnTimers(ts0, ran) && notifies[..] == No.RunOnNotifies(ns0, ran)
        invariant SweepSoFar(m0, View(), now, i, scripts, ran)
      {
        ghost var m := View();
        ghost var called: P.Script := if P.Expired(requests[i], now) && requests[i].cb != NULL then scripts[i] else [];
        T.RunAppend(ts0, ran, called);
        No.RunAppend(ns0, ran, called);
        SweepTurns(m0, m, now, i, scripts, ran);
        TimeoutTurn(i, now, scripts[i]);
        ran := ran + called;
        i := i + 1;
      }
      SweepEnds(m0, View(), now, scripts, ran);
    }

    // ----------------------------------------------- request.c, responses

    /** The loop of ProcessShortResponses and ProcessLongResponses. */
    method ProcessMatches(seqNum: nat, data: seq<byte>, script: P.Script)
      requires Valid() && Protocol.ScriptInRange(script)
      modifies this, requests, timers, notifies, ipc
      ensures Valid() && View() == P.ProcessMatches(old(View()), seqNum, 0, data, script)
      ensures OthersRan(if log == old(log) then [] else script)
    {
      hide P.RunScript, T.RunOnTimers, No.RunOnNotifies, NetOf, P.Finish, Protocol.ScriptInRange;
      NothingRan(timers[..], notifies[..]);
      var i := 0;
      while i < GUI_MAX_REQUESTS
        invariant i <= GUI_MAX_REQUESTS && Valid() && OthersRan([]) && log == old(log)
        invariant P.ProcessMatches(View(), seqNum, i, data, script)
            == P.ProcessMatches(old(View()), seqNum, 0, data, script)
      {
        if seqNum == requests[i].seqNum {
          var called := requests[i].cb != NULL;
          NothingRan(old(timers[..]), old(notifies[..]));
          FinishRequest(i, P.Answered, data, GUI_SUCCESS, script);
          if called {
            return;
          }
          NothingRan(timers[..], notifies[..]);
        }
        i := i + 1;
      }
    }

    method ProcessShortResponses(seqNum: nat, data: seq<byte>, script: P.Script)
      requires Valid() && Protocol.ScriptInRange(script)
      modifies this, requests, timers, notifies, ipc
      ensures Valid() && View() == P.ProcessShortResponses(old(View()), seqNum, data, script)
      ensures OthersRan(if log == old(log) then [] else script)
    {
      ProcessMatches(seqNum, data, script);
    }

    method ProcessLongResponses(seqNum: nat, size: nat, fault: N.Fault, script: P.Script) returns (ret: nat)
      requires Valid() && Protocol.ScriptInRange(script)
      modifies this, requests, timers, notifies, ipc
      ensures Valid() && (View(), ret) == P.ProcessLongResponses(old(View()), seqNum, size, fault, script)
      ensures OthersRan(if log == old(log) then [] else script)
    {
      hide P.ProcessMatches, T.RunOnTimers, No.RunOnNotifies;
      NothingRan(timers[..], notifies[..]);
      var data := P.FindSegment(ipc.shm, seqNum, size);
      if fault.ShmGet? || data.None? {
        return GUI_ERR_SHM_ALLOCATE;
      }
      if fault.ShmAt? {
        return GUI_ERR_SHM_ATTACH;
      }
      if fault.ShmRm? {
        return GUI_ERR_SHM_REMOVE;
      }
      if seqNum != 0 {
        ipc.shm := ipc.shm - {seqNum};
      }
      ProcessMatches(seqNum, data.value, script);
      return GUI_SUCCESS;
    }

    // ----------------------------------------------- notify.c and timer.c, dispatch

    /** ProcessNotifies; `called` is the callback it ran, or NULL, and `given` the `size`
        bytes at pData that it handed to it. */
    method ProcessNotifies(notifyId: nat, pData: seq<byte>, script: P.Script)
      returns (called: Callback, given: seq<byte>)
      requires Valid() && Protocol.ScriptInRange(script)
      modifies this, requests, timers, notifies, ipc
      ensures Valid() && called == No.NotifyCallback(old(notifies[..]), notifyId)
      ensures given == if called == NULL then [] else pData
      ensures var ran := if called == NULL then [] else script;
              View() == P.RunScript(old(View()), ran) && OthersRan(ran)
    {
      hide T.RunOnTimers, No.RunOnNotifies, NetOf, Protocol.ScriptInRange;
      NothingRan(timers[..], notifies[..]);
      var i := 0;
      while i < SIZE
        invariant i <= SIZE && Valid() && View() == old(View()) && OthersRan([])
        invariant No.Lookup(notifies[..], notifyId, i) == No.Lookup(old(notifies[..]), notifyId, 0)
      {
        if notifies[i].cb != NULL && notifyId == notifies[i].id {
          called, given := notifies[i].cb, pData;
          NothingRan(old(timers[..]), old(notifies[..]));
          RunScript(script);
          return;
        }
        i := i + 1;
      }
      called, given := NULL, [];
    }

    /** One turn of the ProcessTimers loop. */
    method TimerTurn(i: nat, now: Timeval, script: P.Script) returns (ghost ticks: seq<T.Tick>)
      requires Valid() && i < SIZE && Protocol.ScriptInRange(script)
      modifies this, requests, timers, notifies, ipc
      ensures Valid() && (timers[..], ticks) == T.TimerTurn(old(timers[..]), now, i, script)
      ensures ticks == [] || (|ticks| == 1 && ticks[0].slot == i)
      ensures var ran := if ticks == [] then [] else script;
              View() == P.RunScript(old(View()), ran) && notifies[..] == No.RunOnNotifies(old(notifies[..]), ran)
    {
      hide T.RunOnTimers, No.RunOnNotifies, NetOf, Protocol.ScriptInRange, IsTimeOver;
      ticks := [];
      NothingRan(timers[..], notifies[..]);
      if timers[i].cb != NULL && IsTimeOver(now, timers[i].extra) {
        var saved := timers[i];
        timers[i] := Free(T.EPOCH);
        assert timers[..] == old(timers[..])[i := Free(T.EPOCH)];
        ticks := [T.Tick(i, saved.id, saved.cb)];
        RunScript(script);
      }
    }

    method ProcessTimers(now: Timeval, scripts: seq<P.Script>) returns (ghost ticks: seq<T.Tick>)
      requires Valid() && |scripts| == SIZE
      requires forall j | 0 <= j < SIZE :: Protocol.ScriptInRange(scripts[j])
      modifies this, requests, timers, notifies, ipc
      ensures Valid() && (timers[..], ticks) == T.ProcessTimers(old(timers[..]), now, 0, scripts)
      ensures var ran := TickScripts(ticks, scripts);
              View() == P.RunScript(old(View()), ran) && notifies[..] == No.RunOnNotifies(old(notifies[..]), ran)
    {
      hide T.TimerTurn, P.RunScript, No.RunOnNotifies, NetOf, Protocol.ScriptInRange, T.ProcessTimers, TickScripts,
           TimersSoFar;
      ghost var m0, ts0, ns0 := View(), timers[..], notifies[..];
      ticks := [];
      TimersBegin(m0, ts0, ns0, now, scripts);
      var i := 0;
      while i < SIZE
        invariant i <= SIZE && Valid() && TimersSoFar(ts0, timers[..], now, i, scripts, ticks)
        invariant View() == P.RunScript(m0, TickScripts(ticks, scripts))
        invariant notifies[..] == No.RunOnNotifies(ns0, TickScripts(ticks, scripts))
      {
        TimersTurn(ts0, timers[..], now, i, scripts, ticks);
        ghost var t := TimerTurn(i, now, scripts[i]);
        TurnAppends(m0, ns0, ticks, t, i, scripts);
        ticks := ticks + t;
        i := i + 1;
      }
      TimersEnd(ts0, timers[..], now, scripts, ticks);
    }

    // ----------------------------------------------- main.c

    /** The switch of ProcessIpcMessages on the fields read from the buffer. */
    method Dispatch(msg: N.Message, at: Timeval, fault: N.Fault, script: P.Script)
      requires Valid() && Protocol.ScriptInRange(script) && msg.id < TWO16 && |msg.data| <= MAX_MESSAGE_SIZE
      modifies this, requests, timers, notifies, ipc
      ensures Valid() && View() == P.Dispatch(old(View()), msg, at, fault, script)
      ensures OthersRan(if log == old(log) then [] else script)
    {
      hide NetOf, P.Request, P.ProcessShortResponses, P.ProcessLongResponses, P.SetStage,
           T.RunOnTimers, No.RunOnNotifies, Protocol.ScriptInRange;
      NothingRan(timers[..], notifies[..]);
      if msg.kind == MSG_TYPE_SHORT_REQUEST {
        if |msg.data| == msg.size {
          var ret := Request(P.Call(msg.id, false, msg.data, P.HOUR, ResponseToConsole, at, fault));
        }
      } else if msg.kind == MSG_TYPE_SHORT_RESPONSE {
        if |msg.data| == msg.size {
          recs := P.SetStage(recs, msg.seqNum, P.Gone);
          ProcessShortResponses(msg.seqNum % TWO16, msg.data, script);
        }
      } else if msg.kind == MSG_TYPE_LONG_RESPONSE {
        if |msg.data| == 0 {
          recs := P.SetStage(recs, msg.seqNum, P.Gone);
          var ret := ProcessLongResponses(msg.seqNum % TWO16, msg.size, fault, script);
        }
      }
    }

    /** ProcessIpcMessages: the fields are read from the raw buffer, and the length
        tests are those of 32-bit arithmetic on the received length. */
    method ProcessIpcMessages(at: Timeval, fault: N.Fault, script: P.Script)
      requires Valid() && Protocol.ScriptInRange(script)
      modifies this, requests, timers, notifies, ipc
      ensures Valid() && View() == P.Deliver(old(View()), at, fault, script)
      ensures OthersRan(if log == old(log) then [] else script)
    {
      hide W.Decode, W.Get16, W.Get32, NetOf, P.Dispatch, T.RunOnTimers, No.RunOnNotifies, Protocol.ScriptInRange;
      NothingRan(timers[..], notifies[..]);
      InboxHead(ipc.queues, ipc.shm);
      if ipc.queues[0] == [] {
        return;
      }
      ghost var packet := ipc.queues[0][0];
      NetTail(ipc.queues, ipc.shm, TSKID_MGR);
      var ipcBuf := new byte[W.BUF_SIZE];
      var recvLen := ipc.RecvIpcMessage(TSKID_MGR, ipcBuf);
      var buf := ipcBuf[..];
      ReadFields(packet, buf);
      var kind, size := W.Get16(buf, 0), W.Get32(buf, 8);
      var whole := recvLen == (size + HDR_SIZE) % TWO32;
      var header := recvLen == HDR_SIZE;
      if (kind == MSG_TYPE_SHORT_REQUEST && whole) || (kind == MSG_TYPE_SHORT_RESPONSE && whole)
         || (kind == MSG_TYPE_LONG_RESPONSE && header) {
        Dispatch(N.Message(kind, W.Get32(buf, 2), W.Get16(buf, 6), size, buf[HDR_SIZE..recvLen]), at, fault, script);
      } else {
        DispatchDrops(View(), W.Decode(packet), at, fault, script);
      }
    }
  }

  /** Messages of other types, or of the wrong length, are dropped. */
  lemma DispatchDrops(m: P.Mgr, msg: N.Message, at: Timeval, fault: N.Fault, script: P.Script)
    requires P.ValidMgr(m)
    requires !(msg.kind == MSG_TYPE_SHORT_REQUEST && |msg.data| == msg.size)
    requires !(msg.kind == MSG_TYPE_SHORT_RESPONSE && |msg.data| == msg.size)
    requires !(msg.kind == MSG_TYPE_LONG_RESPONSE && |msg.data| == 0)
    ensures P.Dispatch(m, msg, at, fault, script) == m
  {
  }

  lemma InboxHead(queues: seq<seq<seq<byte>>>, shm: N.Shm)
    requires Packets(queues)
    ensures NetOf(queues, shm).inbox == [] <==> queues[0] == []
    ensures queues[0] != [] ==> NetOf(queues, shm).inbox[0] == W.Decode(queues[0][0])
  {
  }

  /** The fields the manager reads from its buffer are those of the packet, and its
      length test is the test on the payload. */
  lemma ReadFields(packet: seq<byte>, buf: seq<byte>)
    requires HDR_SIZE <= |packet| <= MAX_MESSAGE_SIZE && |buf| == W.BUF_SIZE && buf[..|packet|] == packet
    ensures var m := W.Decode(packet);
            && W.Get16(buf, 0) == m.kind && W.Get32(buf, 2) == m.seqNum && W.Get16(buf, 6) == m.id
               && W.Get32(buf, 8) == m.size
            && buf[HDR_SIZE..|packet|] == m.data && |m.data| == |packet| - HDR_SIZE
            && (|packet| == (m.size + HDR_SIZE) % TWO32 <==> |m.data| == m.size)
  {
  }

  /** The response sweep has reached slot i, having run `ran`. */
  ghost predicate SweepSoFar(m0: P.Mgr, m: P.Mgr, now: Timeval, i: nat, scripts: seq<P.Script>, ran: P.Script)
    requires P.ValidMgr(m0) && P.ValidMgr(m) && i <= GUI_MAX_REQUESTS && |scripts| == GUI_MAX_REQUESTS
  {
    && P.Sweep(m, now, i, scripts) == P.Sweep(m0, now, 0, scripts)
    && ran + SweepScripts(m, now, i, scripts) == SweepScripts(m0, now, 0, scripts)
  }

  lemma SweepBegins(m0: P.Mgr, now: Timeval, scripts: seq<P.Script>)
    requires P.ValidMgr(m0) && |scripts| == GUI_MAX_REQUESTS
    ensures SweepSoFar(m0, m0, now, 0, scripts, [])
  {
  }

  lemma SweepTurns(m0: P.Mgr, m: P.Mgr, now: Timeval, i: nat, scripts: seq<P.Script>, ran: P.Script)
    requires P.ValidMgr(m0) && P.ValidMgr(m) && i < GUI_MAX_REQUESTS && |scripts| == GUI_MAX_REQUESTS
    requires SweepSoFar(m0, m, now, i, scripts, ran)
    ensures var called := if P.Expired(m.slots[i], now) && m.slots[i].cb != NULL then scripts[i] else [];
            SweepSoFar(m0, P.SweepSlot(m, now, i, scripts[i]), now, i + 1, scripts, ran + called)
  {
    hide P.SweepSlot, P.Expired, P.Sweep, SweepScripts;
    SweepUnfolds(m, now, i, scripts);
    var called := if P.Expired(m.slots[i], now) && m.slots[i].cb != NULL then scripts[i] else [];
    var rest := SweepScripts(P.SweepSlot(m, now, i, scripts[i]), now, i + 1, scripts);
    assert ran + (called + rest) == ran + called + rest;
  }

  lemma SweepUnfolds(m: P.Mgr, now: Timeval, i: nat, scripts: seq<P.Script>)
    requires P.ValidMgr(m) && i < GUI_MAX_REQUESTS && |scripts| == GUI_MAX_REQUESTS
    ensures var m' := P.SweepSlot(m, now, i, scripts[i]);
            && P.Sweep(m, now, i, scripts) == P.Sweep(m', now, i + 1, scripts)
            && SweepScripts(m, now, i, scripts)
               == (if P.Expired(m.slots[i], now) && m.slots[i].cb != NULL then scripts[i] else [])
                  + SweepScripts(m', now, i + 1, scripts)
  {
  }

  lemma SweepEnds(m0: P.Mgr, m: P.Mgr, now: Timeval, scripts: seq<P.Script>, ran: P.Script)
    requires P.ValidMgr(m0) && P.ValidMgr(m) && |scripts| == GUI_MAX_REQUESTS
    requires SweepSoFar(m0, m, now, GUI_MAX_REQUESTS, scripts, ran)
    ensures m == P.Sweep(m0, now, 0, scripts) && ran == SweepScripts(m0, now, 0, scripts)
  {
    assert ran + [] == ran;
  }

  /** The timer sweep has reached slot i, having run `ticks`. */
  ghost predicate TimersSoFar(ts0: seq<T.Timer>, ts: seq<T.Timer>, now: Timeval, i: nat, scripts: seq<P.Script>,
                              ticks: seq<T.Tick>)
    requires |ts0| == SIZE && |ts| == SIZE && i <= SIZE && |scripts| == SIZE
  {
    var (end, rest) := T.ProcessTimers(ts, now, i, scripts);
    (end, ticks + rest) == T.ProcessTimers(ts0, now, 0, scripts)
  }

  lemma TimersBegin(m0: P.Mgr, ts0: seq<T.Timer>, ns0: seq<No.Notify>, now: Timeval, scripts: seq<P.Script>)
    requires P.ValidMgr(m0) && |ts0| == SIZE && |ns0| == SIZE && |scripts| == SIZE
    ensures TimersSoFar(ts0, ts0, now, 0, scripts, [])
    ensures P.RunScript(m0, TickScripts([], scripts)) == m0 && No.RunOnNotifies(ns0, TickScripts([], scripts)) == ns0
  {
    hide T.ProcessTimers;
    var rest := T.ProcessTimers(ts0, now, 0, scripts).1;
    assert [] + rest == rest;
  }

  lemma TimersTurn(ts0: seq<T.Timer>, ts: seq<T.Timer>, now: Timeval, i: nat, scripts: seq<P.Script>,
                   ticks: seq<T.Tick>)
    requires |ts0| == SIZE && |ts| == SIZE && i < SIZE && |scripts| == SIZE
    requires TimersSoFar(ts0, ts, now, i, scripts, ticks)
    ensures var (ts', t) := T.TimerTurn(ts, now, i, scripts[i]);
            TimersSoFar(ts0, ts', now, i + 1, scripts, ticks + t)
  {
    hide T.TimerTurn;
    var (ts', t) := T.TimerTurn(ts, now, i, scripts[i]);
    var rest := T.ProcessTimers(ts', now, i + 1, scripts).1;
    assert ticks + (t + rest) == ticks + t + rest;
  }

  lemma TimersEnd(ts0: seq<T.Timer>, ts: seq<T.Timer>, now: Timeval, scripts: seq<P.Script>, ticks: seq<T.Tick>)
    requires |ts0| == SIZE && |ts| == SIZE && |scripts| == SIZE
    requires TimersSoFar(ts0, ts, now, SIZE, scripts, ticks)
    ensures (ts, ticks) == T.ProcessTimers(ts0, now, 0, scripts)
  {
    assert ticks + [] == ticks;
  }

  lemma TurnAppends(m: P.Mgr, ns: seq<No.Notify>, ticks: seq<T.Tick>, t: seq<T.Tick>, i: nat, scripts: seq<P.Script>)
    requires P.ValidMgr(m) && |ns| == SIZE && |scripts| == SIZE && i < SIZE
    requires t == [] || (|t| == 1 && t[0].slot == i)
    ensures var ran := TickScripts(ticks, scripts); var more := if t == [] then [] else scripts[i];
            && P.RunScript(m, TickScripts(ticks + t, scripts)) == P.RunScript(P.RunScript(m, ran), more)
            && No.RunOnNotifies(ns, TickScripts(ticks + t, scripts))
               == No.RunOnNotifies(No.RunOnNotifies(ns, ran), more)
  {
    TickScriptsAppend(ticks, t, scripts);
    var ran, more := TickScripts(ticks, scripts), if t == [] then [] else scripts[i];
    assert TickScripts(t, scripts) == more;
    Trace.RunAppend(m, ran, more);
    No.RunAppend(ns, ran, more);
  }

  lemma NothingRan(ts: seq<T.Timer>, ns: seq<No.Notify>)
    requires |ts| == SIZE && |ns| == SIZE
    ensures T.RunOnTimers(ts, []) == ts && No.RunOnNotifies(ns, []) == ns
  {
  }
}
