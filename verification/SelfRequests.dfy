/** Short requests addressed to the manager itself: each delivery turns one into another,
    until the pending table is full. */
module SelfRequests {
  import opened Base
  import opened Deadline
  import opened Net
  import opened Pending
  import opened Protocol
  import opened Trace
  import opened Occupancy

  function SelfMessage(s: nat, id: nat, bytes: seq<byte>): Message {
    ShortMessage(MSG_TYPE_SHORT_REQUEST, s, id, bytes)
  }

  /** Delivering such a request while a slot is free puts the same request back into the
      inbox under a new number and takes one more slot, for an hour; when none is free
      it ends there. */
  lemma SelfRequestReturns(m: Mgr, s: nat, id: nat, bytes: seq<byte>, at: Timeval, script: Script)
    requires ValidMgr(m) && m.net.inbox != [] && m.net.inbox[0] == SelfMessage(s, id, bytes)
    requires TaskOf(id) == TSKID_MGR && Fits(bytes)
    ensures var f, n, due := FirstFree(m.slots, 0), NextSeqNum(m.issued), ExpiresAt(at, HOUR);
            Deliver(m, at, NoFault, script) ==
            if f == GUI_MAX_REQUESTS then m.(net := m.net.(inbox := m.net.inbox[1..]))
            else m.(slots := m.slots[f := Slot(n, id, ResponseToConsole, due)],
                    issued := m.issued + 1,
                    net := m.net.(inbox := m.net.inbox[1..] + [SelfMessage(n, id, bytes)]),
                    recs := m.recs[n := Rec(f, id, ResponseToConsole, bytes, due, Waiting, Lost)])
  {
    hide FirstFree, ExpiresAt;
  }

  /** A call of Request that addresses the manager takes a slot and puts such a request
      behind whatever is in the inbox. */
  lemma SelfCallLoops(m: Mgr, c: Call)
    requires ValidMgr(m) && FirstFree(m.slots, 0) < GUI_MAX_REQUESTS
    requires forall j | 0 <= j < GUI_MAX_REQUESTS :: m.slots[j] == CLEARED || m.slots[j].id != 0
    requires TaskOf(c.id) == TSKID_MGR && Fits(c.bytes) && c.fault.NoFault? && !(c.isNull && |c.bytes| != 0)
    ensures var (m', err) := Request(m, c);
            && err == GUI_SUCCESS && Occupied(m') == Occupied(m) + 1
            && m'.net.inbox == m.net.inbox + [SelfMessage(NextSeqNum(m.issued), c.id, c.bytes)]
            && (m.net.inbox == [] ==> Looping(m', c.id, c.bytes))
  {
    hide FirstFree, ExpiresAt;
    var f := FirstFree(m.slots, 0);
    var m' := Request(m, c).0;
    assert m'.slots == m.slots[f := m'.slots[f]] && m'.slots[f].id == c.id;
    UsedMore(m.slots, f, m'.slots[f], GUI_MAX_REQUESTS);
  }

  function DeliverAll(m: Mgr, ats: seq<Timeval>): (r: Mgr)
    requires ValidMgr(m)
    ensures ValidMgr(r)
    decreases |ats|
  {
    if ats == [] then m else DeliverAll(Deliver(m, ats[0], NoFault, []), ats[1..])
  }

  /** A used slot has an identifier, and nothing but a request to the manager is in the
      inbox. */
  ghost predicate Looping(m: Mgr, id: nat, bytes: seq<byte>) {
    && ValidMgr(m)
    && (forall j | 0 <= j < GUI_MAX_REQUESTS :: m.slots[j] == CLEARED || m.slots[j].id != 0)
    && |m.net.inbox| == 1 && m.net.inbox[0] == SelfMessage(m.net.inbox[0].seqNum, id, bytes)
  }

  /** Used slots stay, and new ones belong to the console until one hour has passed. */
  ghost predicate Filling(was: seq<Slot>, slots: seq<Slot>, id: nat, ats: seq<Timeval>) {
    && |slots| == |was|
    && forall j | 0 <= j < |was| ::
         if was[j] != CLEARED then slots[j] == was[j]
         else slots[j] == CLEARED || ConsoleSlot(slots[j], id, ats)
  }

  ghost predicate ConsoleSlot(slot: Slot, id: nat, ats: seq<Timeval>) {
    slot.id == id && slot.cb == ResponseToConsole && exists at :: at in ats && slot.expires == ExpiresAt(at, HOUR)
  }

  lemma {:induction false} UsedMore(slots: seq<Slot>, i: nat, slot: Slot, n: nat)
    requires i < |slots| && n <= |slots| && slots[i] == CLEARED && slot != CLEARED
    ensures Used(slots[i := slot], n) == Used(slots, n) + (if i < n then 1 else 0)
  {
    if n > 0 {
      UsedMore(slots, i, slot, n - 1);
    }
  }

  lemma {:induction false} AllUsed(slots: seq<Slot>, n: nat)
    requires n <= |slots| && forall j | 0 <= j < n :: slots[j] != CLEARED
    ensures Used(slots, n) == n
  {
    if n > 0 {
      AllUsed(slots, n - 1);
    }
  }

  lemma {:induction false} SomeFree(slots: seq<Slot>, n: nat, j: nat)
    requires j < n <= |slots| && slots[j] == CLEARED
    ensures Used(slots, n) < n
  {
    UsedBound(slots, n - 1);
    if j < n - 1 {
      SomeFree(slots, n - 1, j);
    }
  }

  lemma OneTurn(m: Mgr, id: nat, bytes: seq<byte>, at: Timeval)
    requires Looping(m, id, bytes) && TaskOf(id) == TSKID_MGR && Fits(bytes) && Occupied(m) < GUI_MAX_REQUESTS
    ensures var m' := Deliver(m, at, NoFault, []);
            Looping(m', id, bytes) && Occupied(m') == Occupied(m) + 1 && Filling(m.slots, m'.slots, id, [at])
  {
    SelfRequestReturns(m, m.net.inbox[0].seqNum, id, bytes, at, []);
    var f := FirstFree(m.slots, 0);
    if f == GUI_MAX_REQUESTS {
      AllUsed(m.slots, GUI_MAX_REQUESTS);
    }
    hide Deliver, Used, FirstFree, ExpiresAt;
    var slot := Slot(NextSeqNum(m.issued), id, ResponseToConsole, ExpiresAt(at, HOUR));
    UsedMore(m.slots, f, slot, GUI_MAX_REQUESTS);
    assert ConsoleSlot(slot, id, [at]) by {
      assert at in [at];
    }
  }

  lemma FillingJoins(a: seq<Slot>, b: seq<Slot>, c: seq<Slot>, id: nat, at: Timeval, rest: seq<Timeval>)
    requires Filling(a, b, id, [at]) && Filling(b, c, id, rest)
    ensures Filling(a, c, id, [at] + rest)
  {
    forall j | 0 <= j < |a| && a[j] == CLEARED && c[j] != CLEARED ensures ConsoleSlot(c[j], id, [at] + rest) {
      if b[j] != CLEARED {
        var u :| u in [at] && c[j].expires == ExpiresAt(u, HOUR);
        assert u in [at] + rest;
      } else {
        var u :| u in rest && c[j].expires == ExpiresAt(u, HOUR);
        assert u in [at] + rest;
      }
    }
  }

  /** One request to the manager takes one slot with each delivery, as long as there is
      one, and no response will ever free any of them. */
  lemma {:induction false} SelfRequestFills(m: Mgr, id: nat, bytes: seq<byte>, ats: seq<Timeval>)
    requires Looping(m, id, bytes) && TaskOf(id) == TSKID_MGR && Fits(bytes) && Occupied(m) + |ats| <= GUI_MAX_REQUESTS
    ensures var m' := DeliverAll(m, ats);
            Looping(m', id, bytes) && Occupied(m') == Occupied(m) + |ats| && Filling(m.slots, m'.slots, id, ats)
    decreases |ats|
  {
    hide Deliver, Looping, Occupied, Filling;
    if ats == [] {
      NothingFilled(m.slots, id);
    } else {
      assert ValidMgr(m) by {
        LoopingIsValid(m, id, bytes);
      }
      var next := Deliver(m, ats[0], NoFault, []);
      OneTurn(m, id, bytes, ats[0]);
      SelfRequestFills(next, id, bytes, ats[1..]);
      assert ats == [ats[0]] + ats[1..];
      FillingJoins(m.slots, next.slots, DeliverAll(next, ats[1..]).slots, id, ats[0], ats[1..]);
    }
  }

  lemma NothingFilled(slots: seq<Slot>, id: nat)
    ensures Filling(slots, slots, id, [])
  {
  }

  lemma LoopingIsValid(m: Mgr, id: nat, bytes: seq<byte>)
    requires Looping(m, id, bytes)
    ensures ValidMgr(m)
  {
  }

  /** With the table full every well-formed call of Request is turned away. */
  lemma FullTable(m: Mgr, id: nat, bytes: seq<byte>, c: Call)
    requires Looping(m, id, bytes) && Occupied(m) == GUI_MAX_REQUESTS
    requires c.id != 0 && !(c.isNull && |c.bytes| != 0)
    ensures Request(m, c) == (m, GUI_ERR_REQUESTS_FULL)
  {
    var f := FirstFree(m.slots, 0);
    if f < GUI_MAX_REQUESTS {
      SomeFree(m.slots, GUI_MAX_REQUESTS, f);
    }
  }

  // ------------------------------------------------- a run

  function Deliveries(ats: seq<Timeval>): (steps: seq<Step>)
    ensures |steps| == |ats|
  {
    seq(|ats|, i requires 0 <= i < |ats| => DeliverStep(ats[i], NoFault, []))
  }

  lemma DeliveriesJoin(steps: seq<Step>, ats: seq<Timeval>)
    requires ats != []
    ensures (steps + [DeliverStep(ats[0], NoFault, [])]) + Deliveries(ats[1..]) == steps + Deliveries(ats)
  {
  }

  lemma OneDelivery(s: Sys, at: Timeval)
    requires ValidSys(s)
    ensures var step := DeliverStep(at, NoFault, []);
            Enabled(s, step) && Next(s, step) == s.(mgr := Deliver(s.mgr, at, NoFault, []))
  {
    hide Deliver;
  }

  lemma {:induction false} DeliveriesRun(states: seq<Sys>, steps: seq<Step>, ats: seq<Timeval>) returns (all: seq<Sys>)
    requires IsRun(states, steps) && ValidSys(states[|steps|])
    ensures IsRun(all, steps + Deliveries(ats)) && ValidSys(states[|steps|])
    ensures all[|steps| + |ats|] == states[|steps|].(mgr := DeliverAll(states[|steps|].mgr, ats))
    decreases |ats|
  {
    var s := states[|steps|];
    if ats == [] {
      assert steps + Deliveries(ats) == steps;
      all := states;
    } else {
      var step := DeliverStep(ats[0], NoFault, []);
      var next := s.(mgr := Deliver(s.mgr, ats[0], NoFault, []));
      OneDelivery(s, ats[0]);
      hide IsRun, Deliver, Next, Enabled, Deliveries;
      RunGoesOn(states, steps, step);
      assert (states + [next])[|steps + [step]|] == next;
      all := DeliveriesRun(states + [next], steps + [step], ats[1..]);
      DeliveriesJoin(steps, ats);
    }
  }

  /** One console line with an identifier of the manager, and sixteen deliveries later
      every slot belongs to it, each for an hour from its own delivery: no sweep before
      then frees any of them. */
  lemma ConsoleFillsTable(id: nat, bytes: seq<byte>, ats: seq<Timeval>) returns (states: seq<Sys>)
    requires id < TWO16 && TaskOf(id) == TSKID_MGR && Fits(bytes) && |ats| == GUI_MAX_REQUESTS
    ensures IsRun(states, [ConsoleStep(id, bytes)] + Deliveries(ats))
    ensures var m := states[GUI_MAX_REQUESTS + 1].mgr;
            && Looping(m, id, bytes) && Occupied(m) == GUI_MAX_REQUESTS
            && (forall j | 0 <= j < GUI_MAX_REQUESTS :: ConsoleSlot(m.slots[j], id, ats))
            && (forall now | Normal(now)
                             && (forall at | at in ats :: Normal(at) && Micros(now) - Micros(at) < HOUR * 1000) ::
                  forall j | 0 <= j < GUI_MAX_REQUESTS :: !Expired(m.slots[j], now))
  {
    var s0, step := Init(), ConsoleStep(id, bytes);
    var s1 := Console(s0, id, bytes);
    assert IsRun([s0], []);
    RunGoesOn([s0], [], step);
    assert [s0] + [s1] == [s0, s1] && [] + [step] == [step];
    states := DeliveriesRun([s0, s1], [step], ats);
    AllFree(s0.mgr.slots, GUI_MAX_REQUESTS);
    SelfRequestFills(s1.mgr, id, bytes, ats);
    var m := states[GUI_MAX_REQUESTS + 1].mgr;
    assert m == DeliverAll(s1.mgr, ats);
    hide DeliverAll, IsRun, IsTimeOver, ExpiresAt;
    forall j | 0 <= j < GUI_MAX_REQUESTS ensures ConsoleSlot(m.slots[j], id, ats) {
      if m.slots[j] == CLEARED {
        SomeFree(m.slots, GUI_MAX_REQUESTS, j);
      }
    }
    forall now, j | 0 <= j < GUI_MAX_REQUESTS && Normal(now)
                    && (forall at | at in ats :: Normal(at) && Micros(now) - Micros(at) < HOUR * 1000)
      ensures !Expired(m.slots[j], now)
    {
      assert ConsoleSlot(m.slots[j], id, ats);
      var at :| at in ats && m.slots[j].expires == ExpiresAt(at, HOUR);
      OverWhenElapsed(now, at, HOUR);
    }
  }

  lemma {:induction false} AllFree(slots: seq<Slot>, n: nat)
    requires n <= |slots| && forall j | 0 <= j < n :: slots[j] == CLEARED
    ensures Used(slots, n) == 0
  {
    if n > 0 {
      AllFree(slots, n - 1);
    }
  }
}
