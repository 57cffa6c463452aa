/** The slot tables of timer.c and notify.c: sixteen slots, searched by identifier and
    by free callback pointer, that should act as one bounded map. */
module SlotTable {
  import opened Base

  datatype Entry<V> = Entry(id: nat, cb: Callback, extra: V)

  /** GUI_MAX_TIMERS and GUI_MAX_NOTIFIES. */
  const SIZE := 16

  function Free<V>(zero: V): Entry<V> {
    Entry(0, NULL, zero)
  }

  /** A slot is all zero or has an identifier and a callback; identifiers are distinct. */
  ghost predicate Wf<V(!new)>(ts: seq<Entry<V>>, zero: V) {
    && |ts| == SIZE
    && (forall i | 0 <= i < SIZE :: ts[i] == Free(zero) || (ts[i].id != 0 && ts[i].cb != NULL))
    && (forall i, j | 0 <= i < j < SIZE && ts[i].id != 0 :: ts[i].id != ts[j].id)
  }

  /** The first slot from i on with this identifier, or the table's length. */
  function FindId<V>(ts: seq<Entry<V>>, id: nat, i: nat): (r: nat)
    requires i <= |ts|
    ensures i <= r <= |ts|
    ensures forall k | i <= k < r :: ts[k].id != id
    ensures r < |ts| ==> ts[r].id == id
    decreases |ts| - i
  {
    if i == |ts| || ts[i].id == id then i else FindId(ts, id, i + 1)
  }

  function FindFree<V>(ts: seq<Entry<V>>, i: nat): (r: nat)
    requires i <= |ts|
    ensures i <= r <= |ts|
    ensures forall k | i <= k < r :: ts[k].cb != NULL
    ensures r < |ts| ==> ts[r].cb == NULL
    decreases |ts| - i
  {
    if i == |ts| || ts[i].cb == NULL then i else FindFree(ts, i + 1)
  }

  datatype Outcome = Done | NullCallback | InvalidId | TableFull

  function Register<V>(ts: seq<Entry<V>>, id: nat, cb: Callback, extra: V): (r: (seq<Entry<V>>, Outcome))
    ensures |r.0| == |ts|
  {
    if cb == NULL then (ts, NullCallback)
    else if id == 0 || FindId(ts, id, 0) < |ts| then (ts, InvalidId)
    else
      var i := FindFree(ts, 0);
      if i == |ts| then (ts, TableFull) else (ts[i := Entry(id, cb, extra)], Done)
  }

  function Deregister<V>(ts: seq<Entry<V>>, id: nat, zero: V): (r: (seq<Entry<V>>, Outcome))
    ensures |r.0| == |ts|
  {
    if id == 0 then (ts, InvalidId)
    else
      var i := FindId(ts, id, 0);
      if i == |ts| then (ts, InvalidId) else (ts[i := Free(zero)], Done)
  }

  function Clear<V>(zero: V): (ts: seq<Entry<V>>)
    ensures |ts| == SIZE && forall i | 0 <= i < SIZE :: ts[i] == Free(zero)
  {
    seq(SIZE, _ => Free(zero))
  }

  // ------------------------------------------------- the map it stands for

  /** Identifiers used in the first n slots. */
  ghost function Ids<V(!new)>(ts: seq<Entry<V>>, n: nat): set<nat>
    requires n <= |ts|
  {
    set i | 0 <= i < n && ts[i].id != 0 :: ts[i].id
  }

  /** What is registered, by identifier. */
  ghost function AsMap<V(!new)>(ts: seq<Entry<V>>): (m: map<nat, (Callback, V)>)
    ensures m.Keys == Ids(ts, |ts|)
  {
    map id: nat | id in Ids(ts, |ts|) :: var e := ts[FindId(ts, id, 0)]; (e.cb, e.extra)
  }

  /** In a well-formed table an identifier has one place. */
  lemma OnePlace<V(!new)>(ts: seq<Entry<V>>, zero: V, k: nat)
    requires Wf(ts, zero) && k < SIZE && ts[k].id != 0
    ensures FindId(ts, ts[k].id, 0) == k
    ensures ts[k].id in AsMap(ts) && AsMap(ts)[ts[k].id] == (ts[k].cb, ts[k].extra)
  {
  }

  /** The used slots among the first n. */
  ghost function Used<V(!new)>(ts: seq<Entry<V>>, n: nat): (r: nat)
    requires n <= |ts|
  {
    if n == 0 then 0 else Used(ts, n - 1) + (if ts[n - 1].id == 0 then 0 else 1)
  }

  lemma NewId<V(!new)>(ts: seq<Entry<V>>, zero: V, n: nat)
    requires Wf(ts, zero) && n < SIZE && ts[n].id != 0
    ensures ts[n].id !in Ids(ts, n)
  {
  }

  lemma {:induction false} UsedAll<V(!new)>(ts: seq<Entry<V>>, n: nat)
    requires n <= |ts|
    ensures Used(ts, n) <= n && (Used(ts, n) == n <==> forall i | 0 <= i < n :: ts[i].id != 0)
  {
    if n > 0 {
      UsedAll(ts, n - 1);
    }
  }

  lemma IdsNext<V(!new)>(ts: seq<Entry<V>>, n: nat)
    requires n < |ts|
    ensures Ids(ts, n + 1) == if ts[n].id == 0 then Ids(ts, n) else Ids(ts, n) + {ts[n].id}
  {
    var after := if ts[n].id == 0 then Ids(ts, n) else Ids(ts, n) + {ts[n].id};
    forall u | u in after ensures u in Ids(ts, n + 1) {
      if u in Ids(ts, n) {
        var i :| 0 <= i < n && ts[i].id != 0 && ts[i].id == u;
      }
    }
    forall u | u in Ids(ts, n + 1) ensures u in after {
      var i :| 0 <= i < n + 1 && ts[i].id != 0 && ts[i].id == u;
    }
  }

  lemma IdsStep<V(!new)>(ts: seq<Entry<V>>, zero: V, n: nat)
    requires Wf(ts, zero) && n < SIZE
    ensures |Ids(ts, n + 1)| == |Ids(ts, n)| + (if ts[n].id == 0 then 0 else 1)
  {
    assert |ts| == SIZE;
    hide Wf, Ids;
    IdsNext(ts, n);
    if ts[n].id != 0 {
      NewId(ts, zero, n);
      OneMore(Ids(ts, n), Ids(ts, n + 1), ts[n].id);
    }
  }

  lemma {:induction false} IdsCount<V(!new)>(ts: seq<Entry<V>>, zero: V, n: nat)
    requires Wf(ts, zero) && n <= SIZE
    ensures |Ids(ts, n)| == Used(ts, n)
  {
    if n == 0 {
      assert Ids(ts, 0) == {};
    } else {
      assert |ts| == SIZE;
      hide Wf, Ids;
      IdsCount(ts, zero, n - 1);
      IdsStep(ts, zero, n - 1);
    }
  }

  /** The table is full exactly when sixteen identifiers are registered. */
  lemma FullIsSixteen<V(!new)>(ts: seq<Entry<V>>, zero: V)
    requires Wf(ts, zero)
    ensures |AsMap(ts)| <= SIZE
    ensures FindFree(ts, 0) == SIZE <==> |AsMap(ts)| == SIZE
  {
    IdsCount(ts, zero, SIZE);
    UsedAll(ts, SIZE);
    assert |AsMap(ts).Keys| == |AsMap(ts)|;
  }

  lemma Registered<V(!new)>(ts: seq<Entry<V>>, zero: V, id: nat)
    requires Wf(ts, zero)
    ensures id in AsMap(ts) <==> id != 0 && FindId(ts, id, 0) < SIZE
  {
  }

  lemma OverwriteWf<V(!new)>(ts: seq<Entry<V>>, zero: V, i: nat, e: Entry<V>)
    requires Wf(ts, zero) && i < SIZE && (e == Free(zero) || (e.id != 0 && e.cb != NULL))
    requires forall j | 0 <= j < SIZE && j != i && e.id != 0 :: ts[j].id != e.id
    ensures Wf(ts[i := e], zero)
  {
  }

  /** Overwriting slot i with entry e, whose identifier is new or zero, replaces the
      binding of the old identifier by that of e. */
  lemma Overwrite<V(!new)>(ts: seq<Entry<V>>, zero: V, i: nat, e: Entry<V>)
    requires Wf(ts, zero) && i < SIZE && (e == Free(zero) || (e.id != 0 && e.cb != NULL))
    requires forall j | 0 <= j < SIZE && j != i && e.id != 0 :: ts[j].id != e.id
    ensures var m, m' := AsMap(ts) - {ts[i].id}, AsMap(ts[i := e]);
            && Wf(ts[i := e], zero)
            && m' == if e.id == 0 then m else m[e.id := (e.cb, e.extra)]
  {
    OverwriteWf(ts, zero, i, e);
    ZeroUnbound(ts);
    if e.id != 0 {
      OnePlace(ts[i := e], zero, i);
    }
    hide *;
    var m, m' := AsMap(ts), AsMap(ts[i := e]);
    forall u: nat ensures && (u in m' <==> (u == e.id && u != 0) || (u in m && u != ts[i].id))
                          && (u in m' && u != e.id ==> u in m && m'[u] == m[u]) {
      Elsewhere(ts, zero, i, e, u);
    }
    SameMaps(m, m', ts[i].id, e);
  }

  lemma SameMaps<V(!new)>(m: map<nat, (Callback, V)>, m': map<nat, (Callback, V)>, gone: nat, e: Entry<V>)
    requires forall u: nat :: u in m' <==> (u == e.id && u != 0) || (u in m && u != gone)
    requires forall u: nat | u in m' && u != e.id :: u in m && m'[u] == m[u]
    requires e.id != 0 ==> m'[e.id] == (e.cb, e.extra)
    requires 0 !in m
    ensures m' == if e.id == 0 then m - {gone} else (m - {gone})[e.id := (e.cb, e.extra)]
  {
  }

  lemma Elsewhere<V(!new)>(ts: seq<Entry<V>>, zero: V, i: nat, e: Entry<V>, u: nat)
    requires Wf(ts, zero) && i < SIZE && Wf(ts[i := e], zero)
    requires forall j | 0 <= j < SIZE && j != i && e.id != 0 :: ts[j].id != e.id
    ensures var m, m' := AsMap(ts), AsMap(ts[i := e]);
            && (u in m' <==> (u == e.id && u != 0) || (u in m && u != ts[i].id))
            && (u in m' && u != e.id ==> u in m && m'[u] == m[u])
  {
    var ts' := ts[i := e];
    if ts[i].id != 0 {
      AloneAt(ts, zero, i);
    }
    if e.id != 0 {
      OnePlace(ts', zero, i);
    }
    hide AsMap, Wf;
    Registered(ts, zero, u);
    Registered(ts', zero, u);
    var k, k' := FindId(ts, u, 0), FindId(ts', u, 0);
    if k < SIZE && u != 0 {
      OnePlace(ts, zero, k);
      assert k != i ==> ts'[k] == ts[k];
    }
    if k' < SIZE && u != 0 {
      OnePlace(ts', zero, k');
      assert k' != i ==> ts'[k'] == ts[k'];
      if k' != i {
        OnePlace(ts, zero, k');
      }
    }
  }

  lemma AloneAt<V(!new)>(ts: seq<Entry<V>>, zero: V, i: nat)
    requires Wf(ts, zero) && i < SIZE && ts[i].id != 0
    ensures forall j | 0 <= j < SIZE && j != i :: ts[j].id != ts[i].id
  {
  }

  /** Registering is a bounded insertion: it succeeds exactly for a callback under an
      unused identifier while fewer than sixteen are registered, and then adds just
      that binding; otherwise nothing changes. */
  lemma RegisterInserts<V(!new)>(ts: seq<Entry<V>>, zero: V, id: nat, cb: Callback, extra: V)
    requires Wf(ts, zero)
    ensures var (ts', out) := Register(ts, id, cb, extra);
            && Wf(ts', zero)
            && (out.Done? <==> cb != NULL && id != 0 && id !in AsMap(ts) && |AsMap(ts)| < SIZE)
            && (out.TableFull? <==> cb != NULL && id != 0 && id !in AsMap(ts) && |AsMap(ts)| == SIZE)
            && AsMap(ts') == if out.Done? then AsMap(ts)[id := (cb, extra)] else AsMap(ts)
  {
    Registered(ts, zero, id);
    FullIsSixteen(ts, zero);
    hide AsMap;
    if Register(ts, id, cb, extra).1.Done? {
      Overwrite(ts, zero, FindFree(ts, 0), Entry(id, cb, extra));
      ZeroUnbound(ts);
    }
  }

  /** Which refusal it is. */
  lemma RegisterRefuses<V(!new)>(ts: seq<Entry<V>>, id: nat, cb: Callback, extra: V)
    requires |ts| == SIZE
    ensures Register(ts, id, cb, extra).1.NullCallback? <==> cb == NULL
    ensures Register(ts, id, cb, extra).1.InvalidId? <==> cb != NULL && (id == 0 || id in AsMap(ts))
  {
    if id != 0 && FindId(ts, id, 0) < SIZE {
      assert id in Ids(ts, SIZE);
    }
  }

  lemma ZeroUnbound<V(!new)>(ts: seq<Entry<V>>)
    ensures 0 !in AsMap(ts) && AsMap(ts) - {0} == AsMap(ts)
  {
  }

  /** Deregistering removes just that binding, and reports whether there was one. */
  lemma DeregisterRemoves<V(!new)>(ts: seq<Entry<V>>, zero: V, id: nat)
    requires Wf(ts, zero)
    ensures var (ts', out) := Deregister(ts, id, zero);
            && Wf(ts', zero)
            && (out.Done? <==> id in AsMap(ts))
            && AsMap(ts') == AsMap(ts) - {id}
  {
    Registered(ts, zero, id);
    hide AsMap;
    if id in AsMap(ts) {
      Overwrite(ts, zero, FindId(ts, id, 0), Free(zero));
    } else {
      assert AsMap(ts) - {id} == AsMap(ts);
    }
  }

  lemma ClearEmpties<V(!new)>(zero: V)
    ensures Wf(Clear(zero), zero) && AsMap(Clear(zero)) == map[]
  {
  }
}
