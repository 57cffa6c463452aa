/** Notification callbacks: a slot table looked up by identifier. */
module Notifies {
  import opened Base
  import opened Pending
  import opened SlotTable

  type Notify = Entry<()>

  function NotifyError(out: Outcome): nat {
    match out
    case Done => GUI_SUCCESS
    case NullCallback => GUI_ERR_PARAMETER
    case InvalidId => GUI_ERR_NOTIFYID_INVALID
    case TableFull => GUI_ERR_NOTIFIES_FULL
  }

  /** The notify-table effect of one API call. */
  function ActOnNotifies(ns: seq<Notify>, a: Action): (r: seq<Notify>)
    requires |ns| == SIZE
    ensures |r| == SIZE
  {
    match a
    case DoRegisterNotify(id, cb) => Register(ns, id, cb, ()).0
    case DoLoadWindow => Clear(())
    case _ => ns
  }

  function RunOnNotifies(ns: seq<Notify>, script: Script): (r: seq<Notify>)
    requires |ns| == SIZE
    ensures |r| == SIZE
    decreases |script|
  {
    if script == [] then ns else RunOnNotifies(ActOnNotifies(ns, script[0]), script[1..])
  }

  /** The slot ProcessNotifies stops at: the first one with a callback and this
      identifier. */
  function Lookup(ns: seq<Notify>, id: nat, i: nat): (r: nat)
    requires i <= |ns|
    ensures i <= r <= |ns|
    ensures forall k | i <= k < r :: ns[k].cb == NULL || ns[k].id != id
    ensures r < |ns| ==> ns[r].cb != NULL && ns[r].id == id
    decreases |ns| - i
  {
    if i == |ns| || (ns[i].cb != NULL && ns[i].id == id) then i else Lookup(ns, id, i + 1)
  }

  /** The callback ProcessNotifies calls. */
  function NotifyCallback(ns: seq<Notify>, id: nat): Callback {
    var i := Lookup(ns, id, 0);
    if i < |ns| then ns[i].cb else NULL
  }

  /** ProcessNotifies looks the identifier up in the map the table stands for. */
  lemma LookupIsMap(ns: seq<Notify>, id: nat)
    requires |ns| == SIZE && Wf(ns, ())
    ensures NotifyCallback(ns, id) == if id in AsMap(ns) then AsMap(ns)[id].0 else NULL
    ensures NotifyCallback(ns, id) != NULL <==> id in AsMap(ns)
  {
  }

  lemma ActWf(ns: seq<Notify>, a: Action)
    requires |ns| == SIZE && Wf(ns, ())
    ensures Wf(ActOnNotifies(ns, a), ())
  {
  }

  /** However many callbacks run, the table stays a well-formed map. */
  lemma {:induction false} ScriptWf(ns: seq<Notify>, script: Script)
    requires |ns| == SIZE && Wf(ns, ())
    ensures Wf(RunOnNotifies(ns, script), ())
    decreases |script|
  {
    hide Wf, ActOnNotifies;
    if script != [] {
      ActWf(ns, script[0]);
      ScriptWf(ActOnNotifies(ns, script[0]), script[1..]);
    }
  }

  // ------------------------------------------------- what callers are told

  /** RegisterNotifyCallback returns 0 exactly for a callback under an unused identifier
      while fewer than sixteen are registered, 11 exactly when sixteen are, 3 exactly for
      a NULL callback and 10 otherwise. */
  lemma RegisterCodes(ns: seq<Notify>, id: nat, cb: Callback)
    requires Wf(ns, ())
    ensures var ret, m := NotifyError(Register(ns, id, cb, ()).1), AsMap(ns);
            && (ret == 0 <==> cb != 0 && id != 0 && id !in m && |m| < 16)
            && (ret == 11 <==> cb != 0 && id != 0 && id !in m && |m| == 16)
            && (ret == 3 <==> cb == 0)
            && (ret == 10 <==> cb != 0 && (id == 0 || id in m))
  {
    assert |ns| == SIZE;
    hide Wf, AsMap;
    RegisterInserts(ns, (), id, cb, ());
    FullIsSixteen(ns, ());
    RegisterRefuses(ns, id, cb, ());
  }

  // ------------------------------------------------- what a script leaves registered

  lemma {:induction false} RunAppend(ns: seq<Notify>, a: Script, b: Script)
    requires |ns| == SIZE
    ensures RunOnNotifies(ns, a + b) == RunOnNotifies(RunOnNotifies(ns, a), b)
    decreases |a|
  {
    if a == [] {
      assert a + b == b;
    } else {
      assert (a + b)[1..] == a[1..] + b;
      hide ActOnNotifies;
      RunAppend(ActOnNotifies(ns, a[0]), a[1..], b);
    }
  }

  /** From position i on no window is loaded. */
  predicate NoLoad(script: Script, i: nat) {
    forall k | i <= k < |script| :: !script[k].DoLoadWindow?
  }

  /** Action k registers cb under id, and is not refused. */
  ghost predicate Registers(ns: seq<Notify>, script: Script, k: nat, id: nat, cb: Callback)
    requires |ns| == SIZE
  {
    && k < |script| && script[k] == DoRegisterNotify(id, cb) && id != 0 && cb != NULL
    && var m := AsMap(RunOnNotifies(ns, script[..k])); id !in m && |m| < 16
  }

  /** One action: a load unbinds everything, an accepted registration adds one binding. */
  lemma ActBinds(ns: seq<Notify>, a: Action, id: nat, cb: Callback)
    requires |ns| == SIZE && Wf(ns, ()) && cb != NULL
    ensures NotifyCallback(ActOnNotifies(ns, a), id) == cb <==>
            || (NotifyCallback(ns, id) == cb && !a.DoLoadWindow?)
            || (a == DoRegisterNotify(id, cb) && id != 0 && id !in AsMap(ns) && |AsMap(ns)| < 16)
  {
    var ns' := ActOnNotifies(ns, a);
    ActWf(ns, a);
    LookupIsMap(ns, id);
    LookupIsMap(ns', id);
    hide Wf, AsMap, NotifyCallback, Register, Clear;
    match a
    case DoRegisterNotify(u, c) => RegisterInserts(ns, (), u, c, ());
    case DoLoadWindow => ClearEmpties(());
    case _ =>
  }

  lemma RunSnoc(ns: seq<Notify>, before: Script, a: Action)
    requires |ns| == SIZE
    ensures RunOnNotifies(ns, before + [a]) == ActOnNotifies(RunOnNotifies(ns, before), a)
  {
    hide *;
    RunAppend(ns, before, [a]);
    RunOne(RunOnNotifies(ns, before), a);
  }

  lemma RunOne(ns: seq<Notify>, a: Action)
    requires |ns| == SIZE
    ensures RunOnNotifies(ns, [a]) == ActOnNotifies(ns, a)
  {
    hide ActOnNotifies;
    assert [a][1..] == [];
  }

  /** Over any script, from a well-formed table: a notification runs cb if and only if it
      did so before and no window has been loaded, or a registration of cb for it was
      accepted and no window has been loaded since. */
  lemma {:induction false} BoundAfter(ns: seq<Notify>, script: Script, id: nat, cb: Callback)
    requires |ns| == SIZE && Wf(ns, ()) && cb != NULL
    ensures NotifyCallback(RunOnNotifies(ns, script), id) == cb <==>
            || (NotifyCallback(ns, id) == cb && NoLoad(script, 0))
            || (exists k: nat :: Registers(ns, script, k, id, cb) && NoLoad(script, k + 1))
    decreases |script|
  {
    hide Wf, ActOnNotifies, NotifyCallback, AsMap;
    if script != [] {
      var n := |script| - 1;
      var before, a := script[..n], script[n];
      BoundAfter(ns, before, id, cb);
      assert before + [a] == script;
      RunSnoc(ns, before, a);
      ScriptWf(ns, before);
      ActBinds(RunOnNotifies(ns, before), a, id, cb);
      NoLoadSnoc(script, 0);
      assert Registers(ns, script, n, id, cb) && NoLoad(script, n + 1) <==>
             var m := AsMap(RunOnNotifies(ns, before));
             a == DoRegisterNotify(id, cb) && id != 0 && id !in m && |m| < 16;
      forall k: nat | k < n
        ensures Registers(ns, script, k, id, cb) && NoLoad(script, k + 1) <==>
                Registers(ns, before, k, id, cb) && NoLoad(before, k + 1) && !a.DoLoadWindow?
      {
        assert before[..k] == script[..k];
        NoLoadSnoc(script, k + 1);
      }
      assert forall k: nat | Registers(ns, script, k, id, cb) :: k <= n;
      assert forall k: nat | Registers(ns, before, k, id, cb) :: k < n;
    }
  }

  lemma NoLoadSnoc(script: Script, i: nat)
    requires i < |script|
    ensures NoLoad(script, i) <==> NoLoad(script[..|script| - 1], i) && !script[|script| - 1].DoLoadWindow?
  {
  }

  /** In particular a callback that ends by loading a window leaves nothing registered. */
  lemma NothingAfterLoad(ns: seq<Notify>, script: Script, id: nat)
    requires |ns| == SIZE && Wf(ns, ()) && script != [] && script[|script| - 1].DoLoadWindow?
    ensures NotifyCallback(RunOnNotifies(ns, script), id) == NULL
  {
    hide Wf, NotifyCallback;
    var cb := NotifyCallback(RunOnNotifies(ns, script), id);
    if cb != NULL {
      BoundAfter(ns, script, id, cb);
    }
  }
}
