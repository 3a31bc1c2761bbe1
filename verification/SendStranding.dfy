/** The runs behind the exceptions of `SendTheorems.NothingStranded`: each leaves an accepted buffer in
    the queue of a connected session with nobody to send it. */
module SendStranding {
  import opened KernelAnswer
  import opened SendPipeline
  import opened SendLedger
  import opened SendTheorems
  import opened SessionSend

  /** A buffer waits in a connected session while every thread is idle and nothing is pending. */
  ghost predicate Stranded(s: State) {
    Reachable(s) && Quiescent(s) && s.sh.connected && s.sh.queue != []
  }

  lemma {:induction false} RunAppend(s: State, x: Schedule, y: Schedule)
    requires Run(s, x).Moved?
    ensures Run(s, x + y) == Run(Run(s, x).s, y)
    decreases |x|
  {
    if x == [] {
      assert x + y == y;
    } else {
      assert (x + y)[1..] == x[1..] + y;
      RunAppend(Next(s, x[0]).s, x[1..], y);
    }
  }

  lemma ReachableOn(s: State, y: Schedule)
    requires Reachable(s) && Run(s, y).Moved?
    ensures Reachable(Run(s, y).s)
  {
    var threads: set<Tid>, x: Schedule :| Run(Init(threads), x) == Moved(s);
    RunAppend(Init(threads), x, y);
    assert Run(Init(threads), x + y) == Run(s, y);
  }

  lemma ReachableNext(s: State, a: Act) returns (s': State)
    requires Reachable(s) && Next(s, a).Moved?
    ensures s' == Next(s, a).s && Reachable(s')
  {
    s' := Next(s, a).s;
    assert Run(s, [a]) == Run(s', []);
    ReachableOn(s, [a]);
  }

  lemma Fresh(threads: set<Tid>) returns (s: State)
    ensures s == Init(threads) && Reachable(s)
  {
    s := Init(threads);
    assert Run(s, []) == Moved(s);
  }

  lemma SendAlone(s: State, t: Tid, buf: Buffer, k: Kernel) returns (s': State)
    requires Reachable(s) && t in s.pcs && s.pcs[t].Idle? && s.sh.lock.Unlocked?
    ensures Reachable(s') && s'.pcs == s.pcs && s'.sh.lock.Unlocked?
    ensures FieldsOf(s'.sh) == AfterSend(FieldsOf(s.sh), buf, k)
  {
    SendIsARun(s, t, buf, k);
    var x: Schedule, end: Shared :| Run(s, x) == Moved(State(end, s.pcs)) &&
      FieldsOf(end) == AfterSend(FieldsOf(s.sh), buf, k) && end.lock.Unlocked?;
    ReachableOn(s, x);
    s' := State(end, s.pcs);
  }

  lemma ProcessAlone(s: State, t: Tid, bytes: nat, k: Kernel) returns (s': State)
    requires Reachable(s) && t in s.pcs && s.pcs[t].Idle? && s.sh.lock.Unlocked? && s.sh.inFlight
    ensures Reachable(s') && s'.pcs == s.pcs && s'.sh.lock.Unlocked?
    ensures FieldsOf(s'.sh) == AfterProcess(FieldsOf(s.sh), bytes, k)
  {
    ProcessSendIsARun(s, t, bytes, k);
    var x: Schedule, end: Shared :| Run(s, x) == Moved(State(end, s.pcs)) &&
      FieldsOf(end) == AfterProcess(FieldsOf(s.sh), bytes, k) && end.lock.Unlocked?;
    ReachableOn(s, x);
    s' := State(end, s.pcs);
  }

  /** A completion of zero bytes leaves the flag set: after a reconnect a `Send` only queues. */
  lemma ZeroByteCompletionStrands(b0: Buffer, b1: Buffer) returns (s: State)
    ensures Stranded(s) && s.sh.queue == [b1] && s.sh.registered
  {
    s := Fresh({0});
    s := ReachableNext(s, Act(0, Connect));
    s := SendAlone(s, 0, b0, Taken);
    s := ProcessAlone(s, 0, 0, Taken);
    s := ReachableNext(s, Act(0, Connect));
    s := SendAlone(s, 0, b1, Taken);
  }

  lemma LeadsOn(s: State, t: Tid, end: Move) returns (s': State)
    requires Reachable(s) && t in s.pcs && Leads(s.sh, t, s.pcs[t], end) && end.Move?
    ensures s' == State(end.sh, s.pcs[t := end.pc]) && Reachable(s')
  {
    var cs: seq<Choice> :| Solo(s.sh, t, s.pcs[t], cs) == end;
    SoloIsARun(s, t, cs);
    s' := State(end.sh, s.pcs[t := end.pc]);
    ReachableOn(s, seq(|cs|, i requires 0 <= i < |cs| => Act(t, cs[i])));
  }

  /** The locked section of a `Send` that claims the flag. */
  lemma ClaimLeads(sh: Shared, t: Tid, buf: Buffer) returns (end: Shared)
    requires sh.lock.Unlocked? && sh.connected && !sh.registered
    ensures Leads(sh, t, Idle, Move(end, RegCheck(false))) && end.lock.Unlocked?
    ensures FieldsOf(end) == FieldsOf(sh).(registered := true, queue := sh.queue + [buf])
  {
    var m1 := Step(sh, t, SendLock(buf), Go);
    var m2 := Step(m1.sh, t, SendPush(buf), Go);
    var m3 := Step(m2.sh, t, SendClaim, Go);
    var m4 := Step(m3.sh, t, SendUnlock(true), Go);
    end := m4.sh;
    LeadsSelf(end, t, m4.pc);
    LeadsStep(m3.sh, t, SendUnlock(true), Go, m4, m4);
    LeadsStep(m2.sh, t, SendClaim, Go, m3, m4);
    LeadsStep(m1.sh, t, SendPush(buf), Go, m2, m4);
    LeadsStep(sh, t, SendLock(buf), Go, m1, m4);
    LeadsStep(sh, t, SendCheck(buf), Go, Move(sh, SendLock(buf)), m4);
    LeadsStep(sh, t, Idle, CallSend(buf), Move(sh, SendCheck(buf)), m4);
  }

  /** `RegisterSend` up to the point where the kernel has refused the drained batch. */
  lemma RefusalLeads(sh: Shared, t: Tid) returns (end: Shared)
    requires sh.lock.Unlocked? && sh.connected
    ensures Leads(sh, t, RegCheck(false), Move(end, RegError(false, false))) && end.lock.Unlocked?
    ensures FieldsOf(end) == FieldsOf(sh).(owner := true, queue := [], batch := sh.batch + sh.queue)
  {
    hide Leads;
    var m2 := Step(sh, t, RegOwner(false), Go);
    var m3 := Step(m2.sh, t, RegLock(false), Go);
    var m4 := Move(m3.sh.(queue := [], batch := m3.sh.batch + m3.sh.queue), RegUnlock(false));
    var m5 := Step(m4.sh, t, RegUnlock(false), Go);
    var m6 := Step(m5.sh, t, RegIssue(false), Refuse(false));
    end := m6.sh;
    LeadsSelf(end, t, m6.pc);
    LeadsStep(m5.sh, t, RegIssue(false), Refuse(false), m6, m6);
    LeadsStep(m4.sh, t, RegUnlock(false), Go, m5, m6);
    DrainLeads(m3.sh, t, false);
    LeadsTrans(m3.sh, t, RegDrain(false), m4, m6);
    LeadsStep(m2.sh, t, RegLock(false), Go, m3, m6);
    LeadsStep(sh, t, RegOwner(false), Go, m2, m6);
    LeadsStep(sh, t, RegCheck(false), Go, Move(sh, RegOwner(false)), m6);
  }

  /** A refused `WSASend` that does not disconnect clears the flag without looking at the queue, where
      another thread may have left a buffer in the meantime; it waits for the next `Send`. */
  lemma RefusedSendStrands(b0: Buffer, b1: Buffer) returns (s: State)
    ensures Stranded(s) && s.sh.queue == [b1] && !s.sh.registered
  {
    s := Fresh({0, 1});
    s := ReachableNext(s, Act(0, Connect));
    var claimed := ClaimLeads(s.sh, 0, b0);
    s := LeadsOn(s, 0, Move(claimed, RegCheck(false)));
    var refused := RefusalLeads(s.sh, 0);
    s := LeadsOn(s, 0, Move(refused, RegError(false, false)));
    assert FieldsOf(s.sh) == Fields(true, true, true, [], [b0], false);
    s := SendAlone(s, 1, b1, Taken);
    var cleared := RefusedLeads(s.sh, 0, false, false);
    s := LeadsOn(s, 0, Move(cleared, Idle));
  }
}
