/** `Session::Send`, `RegisterSend` and `ProcessSend` as methods that update the session's fields, and
    the proof that an uninterrupted call is a run of the send pipeline. */
module SessionSend {
  import opened KernelAnswer
  import opened SendPipeline

  datatype Fields = Fields(
    connected: bool,
    registered: bool,
    owner: bool,
    queue: seq<Buffer>,
    batch: seq<Buffer>,
    inFlight: bool)

  function FieldsOf(sh: Shared): Fields {
    Fields(sh.connected, sh.registered, sh.owner, sh.queue, sh.batch, sh.inFlight)
  }

  /** The fields after `RegisterSend`: a closed session is left as it is; otherwise the whole queue
      goes to the kernel as one batch, or is dropped when the kernel refuses. */
  function AfterRegister(f: Fields, k: Kernel): Fields {
    if !f.connected then f
    else if k.Taken? then f.(owner := true, queue := [], batch := f.batch + f.queue, inFlight := true)
    else f.(connected := !k.reset, registered := false, owner := false, queue := [], batch := [])
  }

  function AfterSend(f: Fields, buf: Buffer, k: Kernel): Fields {
    if !f.connected then f
    else if f.registered then f.(queue := f.queue + [buf])
    else AfterRegister(f.(registered := true, queue := f.queue + [buf]), k)
  }

  function AfterProcess(f: Fields, bytes: nat, k: Kernel): Fields {
    var g := f.(owner := false, batch := [], inFlight := false);
    if bytes == 0 then g.(connected := false)
    else if g.queue == [] then g.(registered := false)
    else AfterRegister(g, k)
  }

  class Session {
    var connected: bool
    var sendRegistered: bool
    var sendOwner: bool
    var sendQueue: seq<Buffer>
    var sendBuffers: seq<Buffer>
    var inFlight: bool

    constructor ()
      ensures View() == Fields(false, false, false, [], [], false)
    {
      connected, sendRegistered, sendOwner, inFlight := false, false, false, false;
      sendQueue, sendBuffers := [], [];
    }

    ghost function View(): Fields
      reads this
    {
      Fields(connected, sendRegistered, sendOwner, sendQueue, sendBuffers, inFlight)
    }

    method Send(buf: Buffer, k: Kernel)
      modifies this
      ensures View() == AfterSend(old(View()), buf, k)
      ensures !old(connected) ==> View() == old(View())
      ensures old(connected && sendRegistered) ==>
                && sendQueue == old(sendQueue) + [buf] && connected && sendRegistered
                && sendBuffers == old(sendBuffers) && sendOwner == old(sendOwner) && inFlight == old(inFlight)
      ensures old(connected && !sendRegistered) ==>
                && sendQueue == [] && sendRegistered == sendOwner == k.Taken?
                && sendBuffers == (if k.Taken? then old(sendBuffers) + (old(sendQueue) + [buf]) else [])
                && connected == (k != RefusedNow(true)) && inFlight == (k.Taken? || old(inFlight))
    {
      if !connected { return; }
      var registerSend := false;
      sendQueue := sendQueue + [buf];
      var was := sendRegistered;
      sendRegistered := true;
      if !was { registerSend := true; }
      if registerSend { RegisterSend(k); }
    }

    method RegisterSend(k: Kernel)
      modifies this
      ensures View() == AfterRegister(old(View()), k)
      ensures !old(connected) ==> View() == old(View())
      ensures old(connected) && k.Taken? ==>
                && sendQueue == [] && sendBuffers == old(sendBuffers) + old(sendQueue)
                && sendOwner && inFlight && connected && sendRegistered == old(sendRegistered)
      ensures old(connected) && k.RefusedNow? ==>
                && sendQueue == [] && sendBuffers == [] && !sendOwner && !sendRegistered
                && connected == !k.reset && inFlight == old(inFlight)
    {
      if !connected { return; }
      sendOwner := true;
      while sendQueue != []
        invariant View() == old(View()).(owner := true, queue := sendQueue, batch := sendBuffers)
        invariant sendBuffers + sendQueue == old(sendBuffers + sendQueue)
        decreases |sendQueue|
      {
        var sendBuffer := sendQueue[0];
        sendQueue := sendQueue[1..];
        sendBuffers := sendBuffers + [sendBuffer];
      }
      match k
      case Taken => inFlight := true;
      case RefusedNow(reset) =>
        if reset { connected := false; }
        sendOwner := false;
        sendBuffers := [];
        sendRegistered := false;
    }

    method ProcessSend(bytes: nat, k: Kernel)
      modifies this
      ensures View() == AfterProcess(old(View()), bytes, k)
      ensures sendOwner == inFlight && (inFlight ==> sendRegistered == old(sendRegistered))
      ensures inFlight ==> sendBuffers == old(sendQueue) != []
      ensures !inFlight ==> sendBuffers == []
      ensures inFlight <==> bytes > 0 && old(sendQueue) != [] && old(connected) && k.Taken?
      ensures bytes == 0 ==> !connected && sendQueue == old(sendQueue) && sendRegistered == old(sendRegistered)
      ensures bytes > 0 && old(sendQueue) == [] ==> !sendRegistered && connected == old(connected)
      ensures bytes > 0 && old(sendQueue) != [] && !old(connected) ==>
                !connected && sendQueue == old(sendQueue) && sendRegistered == old(sendRegistered)
      ensures bytes > 0 && old(sendQueue) != [] && old(connected) ==>
                sendQueue == [] && connected == (k != RefusedNow(true)) && (k.RefusedNow? ==> !sendRegistered)
    {
      inFlight := false;
      sendOwner := false;
      sendBuffers := [];
      if bytes == 0 {
        connected := false;
        return;
      }
      if sendQueue == [] {
        sendRegistered := false;
      } else {
        assert sendBuffers + sendQueue == old(sendQueue);
        RegisterSend(k);
      }
    }
  }

  // ------------------------------------------------------------------ calls are runs

  /** The steps of one thread while the others stand still. */
  function Solo(sh: Shared, t: Tid, pc: Pc, cs: seq<Choice>): Move
    decreases |cs|
  {
    if cs == [] then Move(sh, pc)
    else
      var m := Step(sh, t, pc, cs[0]);
      if m.Blocked? then Blocked else Solo(m.sh, t, m.pc, cs[1..])
  }

  ghost predicate Leads(sh: Shared, t: Tid, pc: Pc, m: Move) {
    exists cs: seq<Choice> :: Solo(sh, t, pc, cs) == m
  }

  lemma LeadsSelf(sh: Shared, t: Tid, pc: Pc)
    ensures Leads(sh, t, pc, Move(sh, pc))
  {
    assert Solo(sh, t, pc, []) == Move(sh, pc);
  }

  lemma LeadsStep(sh: Shared, t: Tid, pc: Pc, c: Choice, m: Move, end: Move)
    requires Step(sh, t, pc, c) == m && m.Move? && Leads(m.sh, t, m.pc, end)
    ensures Leads(sh, t, pc, end)
  {
    var cs: seq<Choice> :| Solo(m.sh, t, m.pc, cs) == end;
    assert ([c] + cs)[1..] == cs;
    assert Solo(sh, t, pc, [c] + cs) == end;
  }

  lemma {:induction false} SoloIsARun(s: State, t: Tid, cs: seq<Choice>)
    requires t in s.pcs && Solo(s.sh, t, s.pcs[t], cs).Move?
    ensures var m := Solo(s.sh, t, s.pcs[t], cs);
            Run(s, seq(|cs|, i requires 0 <= i < |cs| => Act(t, cs[i]))) == Moved(State(m.sh, s.pcs[t := m.pc]))
    decreases |cs|
  {
    var acts := seq(|cs|, i requires 0 <= i < |cs| => Act(t, cs[i]));
    if cs == [] {
      assert s.pcs[t := s.pcs[t]] == s.pcs;
    } else {
      var s' := Next(s, Act(t, cs[0])).s;
      SoloIsARun(s', t, cs[1..]);
      assert acts[1..] == seq(|cs[1..]|, i requires 0 <= i < |cs[1..]| => Act(t, cs[1..][i]));
      var m := Solo(s.sh, t, s.pcs[t], cs);
      assert s'.pcs[t := m.pc] == s.pcs[t := m.pc];
    }
  }

  /** The drain loop, once per buffer and once to leave. */
  lemma {:induction false} DrainLeads(sh: Shared, t: Tid, nested: bool)
    ensures Leads(sh, t, RegDrain(nested), Move(sh.(queue := [], batch := sh.batch + sh.queue), RegUnlock(nested)))
    decreases |sh.queue|
  {
    var m := Step(sh, t, RegDrain(nested), Go);
    if sh.queue == [] {
      assert sh.batch + sh.queue == sh.batch;
      LeadsSelf(m.sh, t, m.pc);
    } else {
      assert m.sh.batch + m.sh.queue == sh.batch + sh.queue;
      DrainLeads(m.sh, t, nested);
    }
    LeadsStep(sh, t, RegDrain(nested), Go, m, Move(sh.(queue := [], batch := sh.batch + sh.queue), RegUnlock(nested)));
  }

  /** The failure branch. */
  lemma RefusedLeads(sh: Shared, t: Tid, nested: bool, reset: bool) returns (end: Shared)
    ensures Leads(sh, t, RegError(nested, reset), Move(end, Return(nested)))
    ensures end.lock == sh.lock && FieldsOf(end) == FieldsOf(sh).(
              connected := sh.connected && !reset, registered := false, owner := false, batch := [])
  {
    hide Leads;
    var m1 := Step(sh, t, RegError(nested, reset), Go);
    var m2 := Step(m1.sh, t, RegRelease(nested), Go);
    var m3 := Step(m2.sh, t, RegClear(nested), Go);
    var m4 := Step(m3.sh, t, RegUnflag(nested), Go);
    end := m4.sh;
    LeadsSelf(end, t, m4.pc);
    LeadsStep(m3.sh, t, RegUnflag(nested), Go, m4, m4);
    LeadsStep(m2.sh, t, RegClear(nested), Go, m3, m4);
    LeadsStep(m1.sh, t, RegRelease(nested), Go, m2, m4);
    LeadsStep(sh, t, RegError(nested, reset), Go, m1, m4);
  }

  lemma LeadsTrans(sh: Shared, t: Tid, pc: Pc, mid: Move, end: Move)
    requires Leads(sh, t, pc, mid) && mid.Move? && Leads(mid.sh, t, mid.pc, end)
    ensures Leads(sh, t, pc, end)
  {
    var cs: seq<Choice> :| Solo(sh, t, pc, cs) == mid;
    SoloTrans(sh, t, pc, cs, mid, end);
  }

  lemma {:induction false} SoloTrans(sh: Shared, t: Tid, pc: Pc, cs: seq<Choice>, mid: Move, end: Move)
    requires Solo(sh, t, pc, cs) == mid && mid.Move? && Leads(mid.sh, t, mid.pc, end)
    ensures Leads(sh, t, pc, end)
    decreases |cs|
  {
    if cs != [] {
      var m := Step(sh, t, pc, cs[0]);
      SoloTrans(m.sh, t, m.pc, cs[1..], mid, end);
      LeadsStep(sh, t, pc, cs[0], m, end);
    }
  }

  /** The lock is where a caller of `RegisterSend` leaves it. */
  predicate LockFor(lock: Lock, t: Tid, nested: bool) {
    if nested then lock == Locked(t, 1) else lock.Unlocked?
  }

  /** `RegisterSend` from the drained queue on. */
  lemma IssueLeads(sh: Shared, t: Tid, nested: bool, k: Kernel) returns (end: Shared)
    requires sh.lock == Locked(t, if nested then 2 else 1)
    ensures Leads(sh, t, RegUnlock(nested), Move(end, Return(nested)))
    ensures LockFor(end.lock, t, nested)
    ensures FieldsOf(end) ==
            if k.Taken? then FieldsOf(sh).(inFlight := true)
            else FieldsOf(sh).(connected := sh.connected && !k.reset, registered := false, owner := false, batch := [])
  {
    var m1 := Step(sh, t, RegUnlock(nested), Go);
    if k.Taken? {
      var m2 := Step(m1.sh, t, RegIssue(nested), Go);
      end := m2.sh;
      LeadsSelf(end, t, m2.pc);
      LeadsStep(m1.sh, t, RegIssue(nested), Go, m2, m2);
      LeadsStep(sh, t, RegUnlock(nested), Go, m1, m2);
    } else {
      var m2 := Step(m1.sh, t, RegIssue(nested), Refuse(k.reset));
      end := RefusedLeads(m2.sh, t, nested, k.reset);
      LeadsStep(m1.sh, t, RegIssue(nested), Refuse(k.reset), m2, Move(end, Return(nested)));
      LeadsStep(sh, t, RegUnlock(nested), Go, m1, Move(end, Return(nested)));
    }
  }

  /** `RegisterSend` alone: from its first test to its return. */
  lemma RegisterLeads(sh: Shared, t: Tid, nested: bool, k: Kernel) returns (end: Shared)
    requires LockFor(sh.lock, t, nested)
    ensures Leads(sh, t, RegCheck(nested), Move(end, Return(nested)))
    ensures FieldsOf(end) == AfterRegister(FieldsOf(sh), k) && end.lock == sh.lock
  {
    var m1 := Step(sh, t, RegCheck(nested), Go);
    if !sh.connected {
      end := m1.sh;
      LeadsSelf(end, t, m1.pc);
      LeadsStep(sh, t, RegCheck(nested), Go, m1, m1);
    } else {
      var m2 := Step(m1.sh, t, RegOwner(nested), Go);
      var m3 := Step(m2.sh, t, RegLock(nested), Go);
      var m4 := Move(m3.sh.(queue := [], batch := m3.sh.batch + m3.sh.queue), RegUnlock(nested));
      end := IssueLeads(m4.sh, t, nested, k);
      DrainLeads(m3.sh, t, nested);
      LeadsTrans(m3.sh, t, RegDrain(nested), m4, Move(end, Return(nested)));
      LeadsStep(m2.sh, t, RegLock(nested), Go, m3, Move(end, Return(nested)));
      LeadsStep(m1.sh, t, RegOwner(nested), Go, m2, Move(end, Return(nested)));
      LeadsStep(sh, t, RegCheck(nested), Go, m1, Move(end, Return(nested)));
    }
  }

  /** The locked section of `Send`, then `RegisterSend` when the flag was clear. */
  lemma SendLeads(sh: Shared, t: Tid, buf: Buffer, k: Kernel) returns (end: Shared)
    requires sh.lock.Unlocked? && sh.connected
    ensures Leads(sh, t, SendLock(buf), Move(end, Idle))
    ensures FieldsOf(end) == AfterSend(FieldsOf(sh), buf, k) && end.lock.Unlocked?
  {
    hide Leads, AfterRegister;
    var m1 := Step(sh, t, SendLock(buf), Go);
    var m2 := Step(m1.sh, t, SendPush(buf), Go);
    var m3 := Step(m2.sh, t, SendClaim, Go);
    var m4 := Step(m3.sh, t, m3.pc, Go);
    if sh.registered {
      end := m4.sh;
      LeadsSelf(end, t, m4.pc);
    } else {
      end := RegisterLeads(m4.sh, t, false, k);
    }
    LeadsStep(m3.sh, t, m3.pc, Go, m4, Move(end, Idle));
    LeadsStep(m2.sh, t, SendClaim, Go, m3, Move(end, Idle));
    LeadsStep(m1.sh, t, SendPush(buf), Go, m2, Move(end, Idle));
    LeadsStep(sh, t, SendLock(buf), Go, m1, Move(end, Idle));
  }

  /** A `Send` that no other thread interrupts is a run of the pipeline, and leaves the fields as the
      method does. */
  lemma SendIsARun(s: State, t: Tid, buf: Buffer, k: Kernel)
    requires t in s.pcs && s.pcs[t].Idle? && s.sh.lock.Unlocked?
    ensures exists x: Schedule, end: Shared ::
              && Run(s, x) == Moved(State(end, s.pcs))
              && FieldsOf(end) == AfterSend(FieldsOf(s.sh), buf, k) && end.lock.Unlocked?
  {
    var m1 := Step(s.sh, t, Idle, CallSend(buf));
    var m2 := Step(m1.sh, t, SendCheck(buf), Go);
    var end: Shared;
    if s.sh.connected {
      end := SendLeads(m2.sh, t, buf, k);
    } else {
      end := s.sh;
      LeadsSelf(end, t, Idle);
    }
    LeadsStep(m1.sh, t, SendCheck(buf), Go, m2, Move(end, Idle));
    LeadsStep(s.sh, t, Idle, CallSend(buf), m1, Move(end, Idle));
    LeadsIsARun(s, t, end);
  }

  lemma LeadsIsARun(s: State, t: Tid, end: Shared)
    requires t in s.pcs && s.pcs[t].Idle? && Leads(s.sh, t, Idle, Move(end, Idle))
    ensures exists x: Schedule :: Run(s, x) == Moved(State(end, s.pcs))
  {
    var cs: seq<Choice> :| Solo(s.sh, t, Idle, cs) == Move(end, Idle);
    SoloIsARun(s, t, cs);
    assert s.pcs[t := Idle] == s.pcs;
  }

  /** The same for `ProcessSend`. */
  lemma ProcessSendIsARun(s: State, t: Tid, bytes: nat, k: Kernel)
    requires t in s.pcs && s.pcs[t].Idle? && s.sh.lock.Unlocked? && s.sh.inFlight
    ensures exists x: Schedule, end: Shared ::
              && Run(s, x) == Moved(State(end, s.pcs))
              && FieldsOf(end) == AfterProcess(FieldsOf(s.sh), bytes, k) && end.lock.Unlocked?
  {
    var m1 := Step(s.sh, t, Idle, TakeCompletion(bytes));
    var end := ProcessLeads(m1.sh, t, bytes, k);
    LeadsStep(s.sh, t, Idle, TakeCompletion(bytes), m1, Move(end, Idle));
    LeadsIsARun(s, t, end);
  }

  lemma ProcessLeads(sh: Shared, t: Tid, bytes: nat, k: Kernel) returns (end: Shared)
    requires sh.lock.Unlocked? && !sh.inFlight
    ensures Leads(sh, t, ProcOwner(bytes), Move(end, Idle)) && end.lock.Unlocked?
    ensures FieldsOf(end) == AfterProcess(FieldsOf(sh), bytes, k)
  {
    hide Leads, AfterRegister;
    var m2 := Step(sh, t, ProcOwner(bytes), Go);
    var m3 := Step(m2.sh, t, ProcClear(bytes), Go);
    if bytes == 0 {
      end := m3.sh.(connected := false, token := Lost);
      LeadsSelf(end, t, Idle);
      LeadsStep(m3.sh, t, ProcBytes(bytes), Go, Move(end, Idle), Move(end, Idle));
    } else {
      end := LockedProcessLeads(m3.sh, t, k);
      LeadsStep(m3.sh, t, ProcBytes(bytes), Go, Move(m3.sh, ProcLock), Move(end, Idle));
    }
    LeadsStep(m2.sh, t, ProcClear(bytes), Go, m3, Move(end, Idle));
    LeadsStep(sh, t, ProcOwner(bytes), Go, m2, Move(end, Idle));
  }

  /** The locked end of `ProcessSend`. */
  lemma LockedProcessLeads(sh: Shared, t: Tid, k: Kernel) returns (end: Shared)
    requires sh.lock.Unlocked?
    ensures Leads(sh, t, ProcLock, Move(end, Idle)) && end.lock.Unlocked?
    ensures FieldsOf(end) ==
            if sh.queue == [] then FieldsOf(sh).(registered := false) else AfterRegister(FieldsOf(sh), k)
  {
    var m1 := Step(sh, t, ProcLock, Go);
    assert m1.sh == sh.(lock := Locked(t, 1));
    end := QueueLeads(m1.sh, t, k);
    LeadsStep(sh, t, ProcLock, Go, m1, Move(end, Idle));
  }

  lemma QueueLeads(sh: Shared, t: Tid, k: Kernel) returns (end: Shared)
    requires sh.lock == Locked(t, 1)
    ensures Leads(sh, t, ProcQueue, Move(end, Idle)) && end.lock.Unlocked?
    ensures FieldsOf(end) ==
            if sh.queue == [] then FieldsOf(sh).(registered := false) else AfterRegister(FieldsOf(sh), k)
  {
    var m := Step(sh, t, ProcQueue, Go);
    if sh.queue == [] {
      end := UnlockLeads(m.sh, t);
    } else {
      var before := RegisterLeads(sh, t, true, k);
      end := UnlockLeads(before, t);
      LeadsTrans(sh, t, RegCheck(true), Move(before, ProcUnlock), Move(end, Idle));
    }
    LeadsStep(sh, t, ProcQueue, Go, m, Move(end, Idle));
  }

  lemma UnlockLeads(sh: Shared, t: Tid) returns (end: Shared)
    requires sh.lock == Locked(t, 1)
    ensures Leads(sh, t, ProcUnlock, Move(end, Idle)) && end == sh.(lock := Unlocked)
  {
    end := sh.(lock := Unlocked);
    LeadsSelf(end, t, Idle);
    LeadsStep(sh, t, ProcUnlock, Go, Move(end, Idle), Move(end, Idle));
  }
}
