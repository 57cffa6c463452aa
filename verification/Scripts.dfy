/** What a callback's API calls leave alone in the pending table. */
module Scripts {
  import opened Base
  import opened Deadline
  import opened Net
  import opened Pending

  /** The script loads a window. */
  predicate Loads(script: Script) {
    script != [] && (script[0].DoLoadWindow? || Loads(script[1..]))
  }

  /** A slot that was free is as before, cleared, or holds a request numbered from
      first + 1 to last. */
  predicate FreshOrSame(was: Slot, slot: Slot, first: nat, last: nat) {
    slot == was || slot == CLEARED || first < slot.seqNum <= last
  }

  /** Used slots are untouched; free ones are used for newer requests only. */
  ghost predicate Untouched(m: Mgr, m': Mgr) {
    && |m'.slots| == |m.slots| && m.issued <= m'.issued
    && forall j | 0 <= j < |m.slots| ::
         if m.slots[j].id != 0 then m'.slots[j] == m.slots[j]
         else FreshOrSame(m.slots[j], m'.slots[j], m.issued, m'.issued)
  }

  lemma RequestUntouched(m: Mgr, c: Call)
    requires ValidMgr(m) && m.issued + 1 < TWO32
    ensures Untouched(m, Request(m, c).0) && Request(m, c).0.log == m.log
  {
    hide SendRequest, ExpiresAt;
  }

  lemma UntouchedTrans(a: Mgr, b: Mgr, c: Mgr)
    requires Untouched(a, b) && Untouched(b, c)
    ensures Untouched(a, c)
  {
  }

  lemma UntouchedRefl(m: Mgr)
    ensures Untouched(m, m)
  {
  }

  lemma ActIssues(m: Mgr, a: Action)
    requires ValidMgr(m)
    ensures Act(m, a).issued >= m.issued && Act(m, a).log == m.log
    ensures Act(m, a).issued == m.issued && !a.DoLoadWindow? ==> Act(m, a) == m
    ensures Act(m, a).issued <= m.issued + 1
  {
    hide SendRequest, FirstFree;
  }

  /** Scripts only issue numbers and never run a callback themselves. */
  lemma {:induction false} ScriptsDoNotLog(m: Mgr, script: Script)
    requires ValidMgr(m)
    ensures RunScript(m, script).log == m.log && RunScript(m, script).issued >= m.issued
    decreases |script|
  {
    hide Act;
    if script != [] {
      ActIssues(m, script[0]);
      ScriptsDoNotLog(Act(m, script[0]), script[1..]);
    }
  }

  /** A callback that loads no window leaves every pending request where it is. */
  lemma {:induction false} ScriptUntouched(m: Mgr, script: Script)
    requires ValidMgr(m) && !Loads(script) && RunScript(m, script).issued < TWO32
    ensures Untouched(m, RunScript(m, script))
    decreases |script|
  {
    UntouchedRefl(m);
    if script != [] {
      var next := Act(m, script[0]);
      ScriptsDoNotLog(next, script[1..]);
      ActIssues(m, script[0]);
      hide Untouched, Request;
      if next != m {
        RequestUntouched(m, script[0].call);
      }
      ScriptUntouched(next, script[1..]);
      UntouchedTrans(m, next, RunScript(m, script));
    }
  }
}
