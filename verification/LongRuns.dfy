/** What survives past 65535 requests: until the 32-bit sequence number itself wraps,
    the table stays well formed and no request is reported twice. */
module LongRuns {
  import opened Base
  import opened Deadline
  import opened Net
  import opened Pending
  import opened Protocol
  import opened Trace
  import opened Delivery

  /** Reported requests are distinct and no longer in the table. */
  ghost predicate LogDistinct(log: seq<Event>, slots: seq<Slot>, issued: nat) {
    && (forall i | 0 <= i < |log| :: 1 <= log[i].seqNum <= issued && !HoldsNumber(slots, log[i].seqNum))
    && (forall i, j | 0 <= i < j < |log| :: log[i].seqNum != log[j].seqNum)
  }

  ghost predicate Numbered(m: Mgr) {
    && ValidMgr(m) && TableWf(m.slots) && 0 !in m.recs
    && (forall i | 0 <= i < GUI_MAX_REQUESTS :: m.slots[i].seqNum <= m.issued)
    && LogDistinct(m.log, m.slots, m.issued)
  }

  lemma ClearKeeps(m: Mgr)
    requires Numbered(m)
    ensures Numbered(ClearRequests(m))
  {
  }

  lemma FinishKeeps(m: Mgr, i: nat, status: Status, data: seq<byte>, err: nat)
    requires Numbered(m) && i < GUI_MAX_REQUESTS && m.slots[i] != CLEARED
    ensures Numbered(Finish(m, i, status, data, err))
  {
    var f := Finish(m, i, status, data, err);
    var s := m.slots[i].seqNum;
    assert HoldsNumber(m.slots, s);
    forall u | (u != 0 && !HoldsNumber(m.slots, u)) || u == s ensures !HoldsNumber(f.slots, u) {
      assert forall k | 0 <= k < |f.slots| :: f.slots[k] == CLEARED || (k != i && f.slots[k] == m.slots[k]);
    }
  }

  lemma PlaceKeeps(m: Mgr, i: nat, slot: Slot)
    requires Numbered(m) && i < GUI_MAX_REQUESTS && m.slots[i].id == 0
    requires slot == CLEARED || (slot.seqNum == m.issued + 1 && slot.id != 0)
    ensures TableWf(m.slots[i := slot]) && LogDistinct(m.log, m.slots[i := slot], m.issued + 1)
  {
  }

  lemma RequestKeeps(m: Mgr, c: Call)
    requires Numbered(m) && m.issued + 1 < TWO32
    ensures Numbered(Request(m, c).0)
    ensures Request(m, c).1 != GUI_SUCCESS ==> Request(m, c).0.slots == m.slots
  {
    hide SendRequest, TableWf, LogDistinct, FirstFree;
    var i := FirstFree(m.slots, 0);
    if i < GUI_MAX_REQUESTS {
      assert m.slots[i] == CLEARED by {
        FreeIsCleared(m.slots, i);
      }
      PlaceKeeps(m, i, CLEARED);
      if c.id != 0 {
        PlaceKeeps(m, i, Slot(m.issued + 1, c.id, c.cb, ExpiresAt(c.at, c.timeout)));
      }
      assert m.slots[i := CLEARED] == m.slots;
    }
  }

  lemma FreeIsCleared(slots: seq<Slot>, i: nat)
    requires TableWf(slots) && i < |slots| && slots[i].id == 0
    ensures slots[i] == CLEARED
  {
  }

  /** Numbered looks neither at the transport nor at the stages. */
  lemma OtherFields(m: Mgr, m': Mgr)
    requires Numbered(m) && ValidNet(m'.net) && m'.recs.Keys == m.recs.Keys
    requires m'.slots == m.slots && m'.issued == m.issued && m'.log == m.log
    ensures Numbered(m')
  {
  }

  /** Reporting a free slot, as the scan for number 0 does, changes nothing. */
  lemma ReportKeeps(m: Mgr, i: nat, status: Status, data: seq<byte>, err: nat)
    requires Numbered(m)
    ensures Numbered(Do(m, Report(i, status, data, err)))
  {
    if i < GUI_MAX_REQUESTS {
      if m.slots[i] == CLEARED {
        assert m.slots[i := CLEARED] == m.slots;
      } else {
        FinishKeeps(m, i, status, data, err);
      }
    }
  }

  lemma EffectKeeps(m: Mgr, e: Effect)
    requires Numbered(m) && Do(m, e).issued < TWO32
    ensures Numbered(Do(m, e))
  {
    assert ValidMgr(m);
    DoIssues(m, e);
    hide Numbered, Request, ClearRequests, Finish;
    match e
    case Ask(c) =>
      if Do(m, e) != m {
        RequestKeeps(m, c);
      }
    case Wipe => ClearKeeps(m);
    case Report(i, status, data, err) => ReportKeeps(m, i, status, data, err);
  }

  lemma {:induction false} EffectsKeep(m: Mgr, es: seq<Effect>)
    requires Numbered(m) && DoAll(m, es).issued < TWO32
    ensures Numbered(DoAll(m, es))
    decreases |es|
  {
    assert ValidMgr(m);
    hide Numbered, Do;
    if es != [] {
      DoAllIssues(Do(m, es[0]), es[1..]);
      EffectKeeps(m, es[0]);
      EffectsKeep(Do(m, es[0]), es[1..]);
    }
  }

  lemma StartKeeps(s: Sys, step: Step)
    requires ValidSys(s) && Enabled(s, step) && Numbered(s.mgr)
    ensures Numbered(Start(s, step).mgr)
  {
    hide Numbered, WaitForRequest, Response, LongData;
    OtherFields(s.mgr, Start(s, step).mgr);
  }

  lemma NextKeeps(s: Sys, step: Step)
    requires ValidSys(s) && Enabled(s, step) && Numbered(s.mgr) && Next(s, step).mgr.issued < TWO32
    ensures Numbered(Next(s, step).mgr)
  {
    hide Numbered, Start, Next, Effects;
    StartKeeps(s, step);
    NextTrace(s, step);
    EffectsKeep(Start(s, step).mgr, Effects(s, step));
  }

  /** In every run of fewer than 2^32 requests free slots are all zero, used ones carry
      distinct nonzero numbers, and no callback is run twice for one request. */
  lemma {:induction false} RunNumbered(states: seq<Sys>, steps: seq<Step>, k: nat)
    requires IsRun(states, steps) && k < |states| && states[k].mgr.issued < TWO32
    ensures Numbered(states[k].mgr)
  {
    hide Next, Enabled;
    if k > 0 {
      NextIssues(states[k - 1], steps[k - 1]);
      RunNumbered(states, steps, k - 1);
      NextKeeps(states[k - 1], steps[k - 1]);
    }
  }

  // ------------------------------------------------- a number that is gone

  /** From entry `from` on the log reports request s. */
  ghost predicate ReportedFrom(log: seq<Event>, from: nat, s: nat) {
    exists k :: from <= k < |log| && log[k].seqNum == s
  }

  /** A number that has left the table is neither reissued nor reported. */
  lemma EffectGone(m: Mgr, e: Effect, s: nat)
    requires Numbered(m) && Do(m, e).issued < TWO32 && 1 <= s <= m.issued && !HoldsNumber(m.slots, s)
    ensures !HoldsNumber(Do(m, e).slots, s)
    ensures m.log <= Do(m, e).log && !ReportedFrom(Do(m, e).log, |m.log|, s)
  {
    DoIssues(m, e);
    hide SendRequest, TableWf, LogDistinct, FirstFree;
    if e.Report? && e.slot < GUI_MAX_REQUESTS {
      assert m.slots[e.slot].seqNum != s;
    }
  }

  lemma {:induction false} EffectsGone(m: Mgr, es: seq<Effect>, s: nat)
    requires Numbered(m) && DoAll(m, es).issued < TWO32 && 1 <= s <= m.issued && !HoldsNumber(m.slots, s)
    ensures !HoldsNumber(DoAll(m, es).slots, s)
    ensures m.log <= DoAll(m, es).log && !ReportedFrom(DoAll(m, es).log, |m.log|, s)
    decreases |es|
  {
    assert ValidMgr(m);
    hide Numbered, Do, HoldsNumber;
    if es != [] {
      DoIssues(m, es[0]);
      DoAllIssues(Do(m, es[0]), es[1..]);
      EffectKeeps(m, es[0]);
      EffectGone(m, es[0], s);
      EffectsGone(Do(m, es[0]), es[1..], s);
    }
  }
}
