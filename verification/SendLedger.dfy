/** What every run of the send pipeline keeps: one send at a time, first in first out, nothing lost
    without a recorded reason. */
module SendLedger {
  import opened SendPipeline

  function Batches(rs: seq<Retired>): seq<seq<Buffer>> {
    if rs == [] then [] else Batches(rs[..|rs|-1]) + [rs[|rs|-1].batch]
  }

  function Flatten(bs: seq<seq<Buffer>>): seq<Buffer> {
    if bs == [] then [] else Flatten(bs[..|bs|-1]) + bs[|bs|-1]
  }

  /** Accepted buffers are the retired batches, then the batch in the event, then the queue; and the
      `WSASend` calls are the retired batches and the outstanding one. */
  ghost predicate Ledger(sh: Shared) {
    && sh.accepted == Flatten(Batches(sh.retired)) + sh.batch + sh.queue
    && sh.issued == Batches(sh.retired) + (if sh.outstanding then [sh.batch] else [])
  }

  /** A zero-byte completion is on record but the thread that took it has not given up yet. */
  predicate AboutToLose(s: State) {
    s.sh.token.Held? && s.sh.token.holder in s.pcs && s.pcs[s.sh.token.holder] == ProcBytes(0)
  }

  ghost predicate OutcomeInv(s: State) {
    && (forall r :: r in s.sh.retired ==> r.batch != [])
    && (!s.sh.token.Lost? && !AboutToLose(s) ==> forall r :: r in s.sh.retired ==> r.outcome != Completed(0))
  }

  /** A queue that nobody serves is about to be claimed, unless it was left behind by a refusal. */
  ghost predicate UnservedInv(s: State) {
    s.sh.token.Free? && s.sh.queue != [] && !s.sh.unserved ==>
      s.sh.lock.Locked? && s.sh.lock.owner in s.pcs && s.pcs[s.sh.lock.owner].SendClaim?
  }

  ghost predicate Inv(s: State) {
    CoreInv(s) && Ledger(s.sh) && OutcomeInv(s) && UnservedInv(s)
  }

  // ------------------------------------------------------------------ preservation

  lemma {:induction false} BatchesSnoc(rs: seq<Retired>, r: Retired)
    ensures Batches(rs + [r]) == Batches(rs) + [r.batch]
  {
    assert (rs + [r])[..|rs|] == rs;
  }

  lemma {:induction false} FlattenSnoc(bs: seq<seq<Buffer>>, b: seq<Buffer>)
    ensures Flatten(bs + [b]) == Flatten(bs) + b
  {
    assert (bs + [b])[..|bs|] == bs;
  }

  predicate Retires(pc: Pc) {
    pc.RegClear? || pc.ProcClear?
  }

  predicate Books(pc: Pc) {
    pc.SendPush? || pc.RegDrain? || pc.RegIssue? || Retires(pc)
  }

  ghost predicate SameBooks(a: Shared, b: Shared) {
    && a.accepted == b.accepted && a.retired == b.retired && a.issued == b.issued
    && a.outstanding == b.outstanding && a.batch == b.batch && a.queue == b.queue
  }

  lemma QuietStart(sh: Shared, t: Tid, c: Choice)
    requires StartStep(sh, t, c).Move?
    ensures SameBooks(sh, StartStep(sh, t, c).sh)
  {
  }

  lemma QuietSend(sh: Shared, t: Tid, pc: Pc)
    requires pc.SendCheck? || pc.SendLock? || pc.SendClaim? || pc.SendUnlock?
    requires SendStep(sh, t, pc).Move?
    ensures SameBooks(sh, SendStep(sh, t, pc).sh)
  {
  }

  lemma QuietRegister(sh: Shared, t: Tid, pc: Pc, c: Choice)
    requires pc.RegCheck? || pc.RegOwner? || pc.RegLock? || pc.RegUnlock?
    requires RegisterStep(sh, t, pc, c).Move?
    ensures SameBooks(sh, RegisterStep(sh, t, pc, c).sh)
  {
  }

  lemma QuietProcess(sh: Shared, t: Tid, pc: Pc)
    requires pc.ProcOwner? || pc.ProcBytes? || pc.ProcLock? || pc.ProcQueue? || pc.ProcUnlock?
    requires ProcessStep(sh, t, pc).Move?
    ensures SameBooks(sh, ProcessStep(sh, t, pc).sh)
  {
  }

  /** The other steps touch no field the ledger speaks about. */
  lemma QuietStep(sh: Shared, t: Tid, pc: Pc, c: Choice)
    requires Step(sh, t, pc, c).Move? && !Books(pc)
    ensures SameBooks(sh, Step(sh, t, pc, c).sh)
  {
    if pc.Idle? {
      QuietStart(sh, t, c);
    } else if pc.SendCheck? || pc.SendLock? || pc.SendClaim? || pc.SendUnlock? {
      QuietSend(sh, t, pc);
    } else if pc.RegCheck? || pc.RegOwner? || pc.RegLock? || pc.RegUnlock? {
      QuietRegister(sh, t, pc, c);
    } else if !pc.RegError? && !pc.RegRelease? && !pc.RegUnflag? {
      QuietProcess(sh, t, pc);
    }
  }

  lemma {:induction false} RetireKeepsLedger(sh: Shared, o: Outcome)
    requires Ledger(sh) && sh.outstanding
    ensures Ledger(sh.(batch := [], outstanding := false, retired := sh.retired + [Retired(sh.batch, o)]))
  {
    var before, r := Batches(sh.retired), Retired(sh.batch, o);
    BatchesSnoc(sh.retired, r);
    FlattenSnoc(before, sh.batch);
    var f := Flatten(before) + sh.batch;
    assert f + [] == f;
    assert before + [sh.batch] + [] == before + [sh.batch];
  }

  lemma PushStep(sh: Shared, t: Tid, pc: Pc)
    requires Ledger(sh) && pc.SendPush?
    ensures Ledger(SendStep(sh, t, pc).sh)
  {
    hide Flatten, Batches;
    var done := Flatten(Batches(sh.retired));
    Regroup(done, sh.batch, sh.queue, [pc.buf]);
  }

  lemma Regroup(done: seq<Buffer>, batch: seq<Buffer>, queue: seq<Buffer>, more: seq<Buffer>)
    ensures done + batch + (queue + more) == (done + batch + queue) + more
  {
  }

  lemma DrainStep(sh: Shared, t: Tid, pc: Pc, c: Choice)
    requires Ledger(sh) && pc.RegDrain? && !sh.outstanding
    ensures Ledger(RegisterStep(sh, t, pc, c).sh)
  {
    hide Flatten, Batches;
    if sh.queue != [] { FrontMoves(Flatten(Batches(sh.retired)), sh.batch, sh.queue); }
  }

  lemma FrontMoves(done: seq<Buffer>, batch: seq<Buffer>, queue: seq<Buffer>)
    requires queue != []
    ensures done + (batch + [queue[0]]) + queue[1..] == done + batch + queue
  {
    assert queue == [queue[0]] + queue[1..];
  }

  lemma IssueStep(sh: Shared, t: Tid, pc: Pc, c: Choice)
    requires Ledger(sh) && pc.RegIssue? && !sh.outstanding
    ensures Ledger(RegisterStep(sh, t, pc, c).sh)
  {
    hide Flatten, Batches;
    assert Batches(sh.retired) + [] == Batches(sh.retired);
  }

  lemma BookStep(sh: Shared, t: Tid, pc: Pc, c: Choice)
    requires Ledger(sh) && Step(sh, t, pc, c).Move? && (pc.SendPush? || pc.RegDrain? || pc.RegIssue?)
    requires pc.RegDrain? || pc.RegIssue? ==> !sh.outstanding
    ensures Ledger(Step(sh, t, pc, c).sh)
  {
    hide Flatten, Batches, Ledger, SendStep, RegisterStep;
    if pc.SendPush? {
      PushStep(sh, t, pc);
    } else if pc.RegDrain? {
      DrainStep(sh, t, pc, c);
    } else {
      IssueStep(sh, t, pc, c);
    }
  }

  lemma RetireStep(sh: Shared, t: Tid, pc: Pc, c: Choice)
    requires Ledger(sh) && Step(sh, t, pc, c).Move? && Retires(pc) && sh.outstanding
    ensures Ledger(Step(sh, t, pc, c).sh)
  {
    hide Flatten, Batches;
    RetireKeepsLedger(sh, if pc.RegClear? then Refused else Completed(pc.bytes));
  }

  lemma StepKeepsLedger(s: State, a: Act)
    requires CoreInv(s) && Ledger(s.sh) && Next(s, a).Moved?
    ensures Ledger(Next(s, a).s.sh)
  {
    hide Step, Flatten, Batches, LockLocal;
    var pc := s.pcs[a.t];
    assert Local(s.sh, a.t, pc);
    if !Books(pc) {
      QuietStep(s.sh, a.t, pc, a.c);
    } else if Retires(pc) {
      RetireStep(s.sh, a.t, pc, a.c);
    } else {
      BookStep(s.sh, a.t, pc, a.c);
    }
  }

  lemma RetireKeepsOutcome(s: State, a: Act)
    requires CoreInv(s) && OutcomeInv(s) && Next(s, a).Moved? && Retires(s.pcs[a.t])
    ensures OutcomeInv(Next(s, a).s)
  {
    var pc := s.pcs[a.t];
    var s' := Next(s, a).s;
    assert Local(s.sh, a.t, pc);
    var r := Retired(s.sh.batch, if pc.RegClear? then Refused else Completed(pc.bytes));
    assert s'.sh.retired == s.sh.retired + [r];
  }

  lemma StepKeepsOutcome(s: State, a: Act)
    requires CoreInv(s) && OutcomeInv(s) && Next(s, a).Moved?
    ensures OutcomeInv(Next(s, a).s)
  {
    hide LockLocal, Ledger, Flatten, Batches;
    var pc := s.pcs[a.t];
    assert Local(s.sh, a.t, pc);
    if Retires(pc) {
      RetireKeepsOutcome(s, a);
    } else if Books(pc) {
      assert Next(s, a).s.sh.retired == s.sh.retired;
    } else {
      QuietStep(s.sh, a.t, pc, a.c);
    }
  }

  lemma StepKeepsUnserved(s: State, a: Act)
    requires CoreInv(s) && UnservedInv(s) && Next(s, a).Moved?
    ensures UnservedInv(Next(s, a).s)
  {
    assert Local(s.sh, a.t, s.pcs[a.t]);
    StepKeepsCore(s, a);
    if s.sh.lock.Locked? && s.sh.lock.owner != a.t {
      assert Local(s.sh, s.sh.lock.owner, s.pcs[s.sh.lock.owner]);
    }
  }

  lemma StepKeepsInv(s: State, a: Act)
    requires Inv(s) && Next(s, a).Moved?
    ensures Inv(Next(s, a).s)
  {
    StepKeepsCore(s, a);
    StepKeepsLedger(s, a);
    StepKeepsOutcome(s, a);
    StepKeepsUnserved(s, a);
  }

  lemma {:induction false} RunKeepsInv(s: State, sched: Schedule)
    requires Inv(s) && Run(s, sched).Moved?
    ensures Inv(Run(s, sched).s)
    decreases |sched|
  {
    if sched != [] {
      StepKeepsInv(s, sched[0]);
      RunKeepsInv(Next(s, sched[0]).s, sched[1..]);
    }
  }

  ghost predicate Reachable(s: State) {
    exists threads: set<Tid>, sched: Schedule :: Run(Init(threads), sched) == Moved(s)
  }

  lemma ReachableInv(s: State)
    requires Reachable(s)
    ensures Inv(s)
  {
    var threads: set<Tid>, sched: Schedule :| Run(Init(threads), sched) == Moved(s);
    RunKeepsInv(Init(threads), sched);
  }
}
