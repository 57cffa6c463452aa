/** Two ways to leak a segment although no system call fails. */
module Leaks {
  import opened Base
  import opened Deadline
  import opened Net
  import opened Pending
  import opened Protocol
  import opened Trace

  function LongCall(id: nat, bytes: seq<byte>, at: Timeval): Call {
    Call(id, false, bytes, HOUR, NULL, at, NoFault)
  }

  /** The first request of a run, with a long payload. */
  lemma FirstRequest(id: nat, bytes: seq<byte>, at: Timeval)
    requires !Fits(bytes) && 1 <= TaskOf(id) <= TSK_NUM
    ensures var m := RunScript(Init().mgr, [DoRequest(LongCall(id, bytes, at))]);
            var msg := LongMessage(MSG_TYPE_LONG_REQUEST, 1, id, bytes);
            && m.net.shm == map[1 := bytes]
            && m.net.inbox == (if TaskOf(id) == TSKID_MGR then [msg] else [])
            && m.net.taskQ == (if TaskOf(id) == TSKID_MGR then Init().mgr.net.taskQ
                               else Init().mgr.net.taskQ[TaskOf(id) := [msg]])
  {
    var m0, c := Init().mgr, LongCall(id, bytes, at);
    assert FirstFree(m0.slots, 0) == 0;
    assert m0.issued == 0 && m0.net.shm == map[] && m0.net.inbox == [] && m0.net.taskQ[TaskOf(id)] == [];
    CreateWrite(m0.net.shm, 1, bytes);
    OneAct(m0, DoRequest(c));
    hide RunScript, FirstFree, ShmCreate, ShmWrite;
    assert SendRequest(m0.net, 1, id, bytes, NoFault).1 == GUI_SUCCESS;
    var sent := SendRequest(m0.net, 1, id, bytes, NoFault).0;
    assert Request(m0, c).0.net == sent;
    var msg := LongMessage(MSG_TYPE_LONG_REQUEST, 1, id, bytes);
    assert m0.net.taskQ[TaskOf(id)] + [msg] == [msg] && sent.shm == map[1 := bytes];
  }

  /** All queues are empty and the segment is still there. */
  ghost predicate DrainedWith(s: Sys, bytes: seq<byte>) {
    && ValidSys(s) && s.mgr.net.inbox == [] && (forall t: nat | IsTask(t) :: s.mgr.net.taskQ[t] == [])
    && s.mgr.net.shm == map[1 := bytes]
  }

  lemma CallEnabled(id: nat, bytes: seq<byte>, at: Timeval)
    requires id < TWO16 && |bytes| + HDR_SIZE < TWO32
    ensures ScriptInRange([DoRequest(LongCall(id, bytes, at))]) && ScriptInRange([])
  {
  }

  /** A long request addressed to the manager: delivery drops the message and leaves the
      segment. */
  lemma ManagerLongLeaks(id: nat, bytes: seq<byte>, at: Timeval)
    requires TaskOf(id) == TSKID_MGR && !Fits(bytes) && |bytes| + HDR_SIZE < TWO32
    ensures exists states: seq<Sys>, steps ::
              && IsRun(states, steps) && DrainedWith(states[|steps|], bytes)
              && steps == [User([DoRequest(LongCall(id, bytes, at))]), DeliverStep(at, NoFault, [])]
  {
    hide RunScript, ScriptInRange;
    FirstRequest(id, bytes, at);
    CallEnabled(id, bytes, at);
    var steps := [User([DoRequest(LongCall(id, bytes, at))]), DeliverStep(at, NoFault, [])];
    var s1 := Init().(mgr := RunScript(Init().mgr, steps[0].script));
    var s2 := s1.(mgr := Deliver(s1.mgr, at, NoFault, []));
    assert s1.mgr.net.inbox[1..] == [];
    assert IsRun([Init(), s1, s2], steps);
    assert DrainedWith([Init(), s1, s2][|steps|], bytes);
  }

  /** A receiver whose buffer is too small: the message is consumed and refused. */
  lemma SmallBufferLeaks(id: nat, bytes: seq<byte>, at: Timeval, capacity: nat)
    requires id < TWO16 && IsTask(TaskOf(id)) && !Fits(bytes) && |bytes| + HDR_SIZE < TWO32 && capacity < |bytes|
    ensures exists states: seq<Sys>, steps ::
              && IsRun(states, steps) && DrainedWith(states[|steps|], bytes)
              && steps == [User([DoRequest(LongCall(id, bytes, at))]), ReceiveStep(TaskOf(id), capacity, NoFault)]
  {
    hide RunScript, ScriptInRange;
    FirstRequest(id, bytes, at);
    CallEnabled(id, bytes, at);
    var t := TaskOf(id);
    var steps := [User([DoRequest(LongCall(id, bytes, at))]), ReceiveStep(t, capacity, NoFault)];
    var s1 := Init().(mgr := RunScript(Init().mgr, steps[0].script));
    var s2 := Receive(s1, t, capacity, NoFault).0;
    assert s1.mgr.net.taskQ[t][1..] == [];
    assert IsRun([Init(), s1, s2], steps);
    assert DrainedWith([Init(), s1, s2][|steps|], bytes);
  }
}
