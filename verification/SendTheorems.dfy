/** The promises of the send pipeline over every run of any number of threads. */
module SendTheorems {
  import opened SendPipeline
  import opened SendLedger

  predicate Quiescent(s: State) {
    !s.sh.inFlight && forall t :: t in s.pcs ==> s.pcs[t].Idle?
  }

  /** At most one party may send: a thread inside `RegisterSend`/`ProcessSend`, or the kernel. */
  lemma OneSender(s: State)
    requires Reachable(s)
    ensures forall t, u :: t in s.pcs && u in s.pcs && Holds(s.pcs[t]) && Holds(s.pcs[u]) ==> t == u
    ensures forall t :: t in s.pcs && Holds(s.pcs[t]) ==> s.sh.registered && !s.sh.inFlight
    ensures s.sh.inFlight ==> s.sh.registered && s.sh.owner
    ensures s.sh.token.Lost? <==> s.sh.registered && !s.sh.inFlight && forall t :: t in s.pcs ==> !Holds(s.pcs[t])
  {
    ReachableInv(s);
    forall t | t in s.pcs
      ensures Holds(s.pcs[t]) <==> s.sh.token == Held(t)
    {
      assert Local(s.sh, t, s.pcs[t]);
    }
  }

  /** `WSASend` is called only when no other is outstanding, with a non-empty batch and an owner; and
      it then carries everything that was queued when the queue was drained. */
  lemma SendIssuedAlone(s: State, t: Tid)
    requires Reachable(s) && t in s.pcs && s.pcs[t].RegIssue?
    ensures !s.sh.inFlight && !s.sh.outstanding && s.sh.batch != [] && s.sh.owner
    ensures s.sh.accepted == Flatten(s.sh.issued) + s.sh.batch + s.sh.queue
  {
    ReachableInv(s);
    assert Local(s.sh, t, s.pcs[t]);
    assert s.sh.issued == Batches(s.sh.retired);
  }

  /** While the kernel holds a batch no step of any thread touches the send event. */
  lemma EventUntouchedWhilePending(s: State, a: Act)
    requires Reachable(s) && s.sh.inFlight && Next(s, a).Moved?
    ensures var sh' := Next(s, a).s.sh;
            sh'.batch == s.sh.batch != [] && sh'.owner && sh'.issued == s.sh.issued &&
            s.sh.issued != [] && s.sh.issued[|s.sh.issued|-1] == s.sh.batch
  {
    ReachableInv(s);
    StepKeepsCore(s, a);
  }

  /** What went to the kernel, in order, followed by the buffers still held, is what was accepted. */
  lemma FirstInFirstOut(s: State)
    requires Reachable(s)
    ensures s.sh.accepted == Flatten(s.sh.issued) + (if s.sh.outstanding then [] else s.sh.batch) + s.sh.queue
  {
    ReachableInv(s);
    var before := Batches(s.sh.retired);
    if s.sh.outstanding {
      FlattenSnoc(before, s.sh.batch);
      var f := Flatten(before) + s.sh.batch;
      assert f + [] == f;
    } else {
      assert before + [] == before;
    }
  }

  /** Each `WSASend` carries at least one buffer, and its outcome is recorded once, in call order. */
  lemma OutcomesInOrder(s: State)
    requires Reachable(s)
    ensures |s.sh.issued| == |s.sh.retired| + (if s.sh.outstanding then 1 else 0)
    ensures forall i :: 0 <= i < |s.sh.retired| ==> s.sh.issued[i] == s.sh.retired[i].batch
    ensures forall i :: 0 <= i < |s.sh.issued| ==> s.sh.issued[i] != []
  {
    hide Local, Flatten, Batches, UnservedInv, AboutToLose;
    ReachableInv(s);
    BatchesAt(s.sh.retired);
    OutstandingHasBatch(s);
    forall i | 0 <= i < |s.sh.retired|
      ensures s.sh.retired[i].batch != []
    {
      assert s.sh.retired[i] in s.sh.retired;
    }
  }

  lemma OutstandingHasBatch(s: State)
    requires CoreInv(s)
    ensures s.sh.outstanding ==> s.sh.batch != []
  {
    if s.sh.token.Held? {
      assert Local(s.sh, s.sh.token.holder, s.pcs[s.sh.token.holder]);
    }
  }

  lemma {:induction false} BatchesAt(rs: seq<Retired>)
    ensures |Batches(rs)| == |rs|
    ensures forall i :: 0 <= i < |rs| ==> Batches(rs)[i] == rs[i].batch
  {
    if rs != [] { BatchesAt(rs[..|rs|-1]); }
  }

  /** With all threads idle and nothing pending, the flag is set exactly when the token was lost. Where
      it was not, a buffer is stranded exactly when the flag was last cleared by the failure branch of
      `RegisterSend` over a non-empty queue; everything else that was accepted has left, in order, in
      batches that were refused or moved bytes. */
  lemma NothingStranded(s: State)
    requires Reachable(s) && Quiescent(s)
    ensures s.sh.registered <==> s.sh.token.Lost?
    ensures !s.sh.registered ==>
              && (s.sh.queue != [] <==> s.sh.unserved)
              && s.sh.batch == [] && s.sh.accepted == Flatten(Batches(s.sh.retired)) + s.sh.queue
              && forall r :: r in s.sh.retired ==> r.outcome != Completed(0)
  {
    hide Flatten, Batches, HolderInv;
    ReachableInv(s);
    forall t | t in s.pcs
      ensures s.sh.token != Held(t) && !Owns(s.sh, t)
    {
      assert Local(s.sh, t, s.pcs[t]);
    }
    var done := Flatten(Batches(s.sh.retired));
    assert done + [] == done;
  }

  /** The event keeps the session alive exactly while a completion is due or a thread is between setting
      and clearing its owner; so at rest it does not. */
  lemma OwnerSetWhen(s: State)
    requires Reachable(s)
    ensures s.sh.owner <==> s.sh.inFlight || exists t :: t in s.pcs && Owning(s.pcs[t])
    ensures Quiescent(s) ==> !s.sh.owner
  {
    hide Ledger, OutcomeInv, UnservedInv, LockLocal;
    ReachableInv(s);
    forall t | t in s.pcs
      ensures s.sh.token == Held(t) <==> Holds(s.pcs[t])
      ensures Owning(s.pcs[t]) ==> s.sh.token == Held(t) && s.sh.owner
    {
      assert Local(s.sh, t, s.pcs[t]);
    }
    if s.sh.token.Held? {
      assert Local(s.sh, s.sh.token.holder, s.pcs[s.sh.token.holder]);
    }
  }

  /** What disconnects a session: a call of `Disconnect`, a completion of zero bytes, and a refusal with a
      reset; nothing but a connect undoes it. */
  lemma DisconnectsWhere(sh: Shared, t: Tid, pc: Pc, c: Choice)
    requires Step(sh, t, pc, c).Move?
    ensures Step(sh, t, pc, c).sh.connected <==>
              if pc.Idle? && c.CallDisconnect? then false
              else if pc.Idle? && c.Connect? then true
              else if pc == ProcBytes(0) || (pc.RegError? && pc.reset) then false
              else sh.connected
  {
  }

  /** A completion of zero bytes closes the session and ends the call. */
  lemma ZeroBytesDisconnect(s: State, t: Tid)
    requires t in s.pcs && s.pcs[t] == ProcBytes(0)
    ensures Next(s, Act(t, Go)).Moved?
    ensures var s' := Next(s, Act(t, Go)).s; !s'.sh.connected && s'.pcs[t].Idle? && s'.sh.queue == s.sh.queue
  {
  }

  // ------------------------------------------------------------------ undisturbed runs

  /** Not a disconnect, a refusal or a completion of zero bytes. */
  predicate Undisturbed(c: Choice) {
    !c.CallDisconnect? && !c.Refuse? && c != TakeCompletion(0)
  }

  predicate Calm(sh: Shared, pc: Pc) {
    && !sh.token.Lost? && !sh.unserved
    && (sh.connected || (!sh.inFlight && (pc.Idle? || pc.SendCheck?)))
    && !pc.RegError? && !pc.RegRelease? && !pc.RegClear? && !pc.RegUnflag?
    && (pc.ProcOwner? || pc.ProcClear? || pc.ProcBytes? ==> pc.bytes > 0)
  }

  lemma CalmStep(sh: Shared, t: Tid, pc: Pc, c: Choice)
    requires Calm(sh, pc) && Undisturbed(c) && Step(sh, t, pc, c).Move?
    ensures var m := Step(sh, t, pc, c);
            Calm(m.sh, m.pc) && (sh.connected ==> m.sh.connected) && (!sh.connected ==> !m.sh.inFlight)
  {
  }

  ghost predicate AllMoved(rs: seq<Retired>) {
    forall r :: r in rs ==> r.outcome.Completed? && r.outcome.bytes > 0
  }

  lemma CalmRetires(sh: Shared, t: Tid, pc: Pc, c: Choice)
    requires Calm(sh, pc) && Step(sh, t, pc, c).Move? && AllMoved(sh.retired)
    ensures AllMoved(Step(sh, t, pc, c).sh.retired)
  {
    if !Books(pc) { QuietStep(sh, t, pc, c); }
  }

  ghost predicate AllCalm(s: State) {
    && (forall t :: t in s.pcs ==> Calm(s.sh, s.pcs[t]))
    && !s.sh.token.Lost? && !s.sh.unserved && AllMoved(s.sh.retired)
  }

  lemma {:induction false} CalmRun(s: State, sched: Schedule)
    requires AllCalm(s) && Run(s, sched).Moved?
    requires forall i :: 0 <= i < |sched| ==> Undisturbed(sched[i].c)
    ensures AllCalm(Run(s, sched).s)
    decreases |sched|
  {
    hide Step, AllMoved;
    if sched != [] {
      var a := sched[0];
      CalmStep(s.sh, a.t, s.pcs[a.t], a.c);
      CalmRetires(s.sh, a.t, s.pcs[a.t], a.c);
      CalmRun(Next(s, a).s, sched[1..]);
    }
  }

  /** At every moment of such a run a non-empty queue is being served: the kernel will complete, a
      thread has the right to send, or the thread inside `Send`'s locked section is about to claim it. */
  lemma UndisturbedQueueIsServed(threads: set<Tid>, sched: Schedule)
    requires Run(Init(threads), sched).Moved?
    requires forall i :: 0 <= i < |sched| ==> Undisturbed(sched[i].c)
    ensures var s := Run(Init(threads), sched).s;
            s.sh.queue != [] ==>
              || s.sh.inFlight || (exists t :: t in s.pcs && Holds(s.pcs[t]))
              || (s.sh.lock.Locked? && s.sh.lock.owner in s.pcs && s.pcs[s.sh.lock.owner].SendClaim?)
  {
    hide Next, Ledger, OutcomeInv;
    var s := Run(Init(threads), sched).s;
    assert Reachable(s);
    ReachableInv(s);
    CalmRun(Init(threads), sched);
    if s.sh.token.Held? {
      assert Local(s.sh, s.sh.token.holder, s.pcs[s.sh.token.holder]);
    }
  }

  /** No data is stranded: whatever the interleaving, when a run without a disconnect, a refusal or a
      completion of zero bytes comes to rest, every accepted buffer has been delivered, in order, and
      the next `Send` may claim the flag. */
  lemma UndisturbedRunsDeliver(threads: set<Tid>, sched: Schedule)
    requires Run(Init(threads), sched).Moved? && Quiescent(Run(Init(threads), sched).s)
    requires forall i :: 0 <= i < |sched| ==> Undisturbed(sched[i].c)
    ensures var sh := Run(Init(threads), sched).s.sh;
            && !sh.registered && sh.queue == [] && sh.batch == []
            && sh.accepted == Flatten(Batches(sh.retired))
            && forall r :: r in sh.retired ==> r.outcome.Completed? && r.outcome.bytes > 0
  {
    hide Next, Flatten, Batches;
    var s := Run(Init(threads), sched).s;
    assert Reachable(s);
    CalmRun(Init(threads), sched);
    NothingStranded(s);
    var done := Flatten(Batches(s.sh.retired));
    assert done + [] == done;
  }

  // ------------------------------------------------------------------ a session that stops sending

  /** The flag is set, but no completion is due and no thread has the right to send. */
  ghost predicate Abandoned(s: State) {
    s.sh.registered && !s.sh.inFlight && forall t :: t in s.pcs ==> !Holds(s.pcs[t])
  }

  /** A session is abandoned in two places only: `RegisterSend` on a closed session, and a completion of
      zero bytes; and it stays so. */
  lemma TokenLostWhere(s: State, a: Act)
    requires Reachable(s) && Next(s, a).Moved?
    ensures Abandoned(Next(s, a).s) <==>
              Abandoned(s) || (s.pcs[a.t].RegCheck? && !s.sh.connected) || s.pcs[a.t] == ProcBytes(0)
  {
    hide Step, Ledger, OutcomeInv, UnservedInv;
    ReachableInv(s);
    StepKeepsCore(s, a);
    AbandonedIsLost(s);
    AbandonedIsLost(Next(s, a).s);
    assert Local(s.sh, a.t, s.pcs[a.t]);
    LossStep(s.sh, a.t, s.pcs[a.t], a.c);
  }

  lemma AbandonedIsLost(s: State)
    requires CoreInv(s)
    ensures Abandoned(s) <==> s.sh.token.Lost?
  {
    hide LockLocal, HolderInv;
    if s.sh.token.Held? {
      assert Local(s.sh, s.sh.token.holder, s.pcs[s.sh.token.holder]);
    }
    forall t | t in s.pcs
      ensures Holds(s.pcs[t]) <==> s.sh.token == Held(t)
    {
      assert Local(s.sh, t, s.pcs[t]);
    }
  }

  lemma LossStep(sh: Shared, t: Tid, pc: Pc, c: Choice)
    requires Step(sh, t, pc, c).Move? && Global(sh) && (Holds(pc) <==> sh.token == Held(t))
    ensures Step(sh, t, pc, c).sh.token.Lost? <==>
              sh.token.Lost? || (pc.RegCheck? && !sh.connected) || pc == ProcBytes(0)
  {
    hide Release, Acquire;
    if pc.Idle? {
    } else if pc.SendCheck? || pc.SendLock? || pc.SendPush? || pc.SendClaim? || pc.SendUnlock? {
      ReleaseKeepsToken(sh);
    } else if pc.RegCheck? || pc.RegOwner? || pc.RegLock? || pc.RegDrain? || pc.RegUnlock? || pc.RegIssue? {
      ReleaseKeepsToken(sh);
    } else if !pc.RegError? && !pc.RegRelease? && !pc.RegClear? && !pc.RegUnflag? {
      ReleaseKeepsToken(sh);
    }
    if CanAcquire(sh, t) { AcquireKeepsToken(sh, t); }
  }

  lemma ReleaseKeepsToken(sh: Shared)
    ensures Release(sh).token == sh.token
  {
  }

  lemma AcquireKeepsToken(sh: Shared, t: Tid)
    requires CanAcquire(sh, t)
    ensures Acquire(sh, t).token == sh.token
  {
  }

  lemma DeadStep(s: State, a: Act)
    requires CoreInv(s) && s.sh.token.Lost? && Next(s, a).Moved?
    ensures var sh' := Next(s, a).s.sh;
            && sh'.token.Lost? && sh'.issued == s.sh.issued && sh'.registered
            && s.sh.accepted <= sh'.accepted && sh'.queue == s.sh.queue + sh'.accepted[|s.sh.accepted|..]
  {
    hide HolderInv;
    assert Local(s.sh, a.t, s.pcs[a.t]);
    if !Books(s.pcs[a.t]) {
      QuietStep(s.sh, a.t, s.pcs[a.t], a.c);
    }
    StepKeepsCore(s, a);
  }

  /** Once lost, always lost: whatever is scheduled afterwards, reconnecting included, `WSASend` is
      never called again, and the queue holds what it held and every buffer accepted since. */
  lemma {:induction false} LostForever(s: State, sched: Schedule)
    requires CoreInv(s) && s.sh.token.Lost? && Run(s, sched).Moved?
    ensures var sh' := Run(s, sched).s.sh;
            && sh'.token.Lost? && sh'.issued == s.sh.issued
            && s.sh.accepted <= sh'.accepted && sh'.queue == s.sh.queue + sh'.accepted[|s.sh.accepted|..]
    decreases |sched|
  {
    hide CoreInv, Next;
    if sched == [] {
      assert s.sh.queue + s.sh.accepted[|s.sh.accepted|..] == s.sh.queue;
    } else {
      var s1 := Next(s, sched[0]).s;
      DeadStep(s, sched[0]);
      StepKeepsCore(s, sched[0]);
      LostForever(s1, sched[1..]);
      Since(s.sh.queue, s.sh.accepted, s1.sh.accepted, Run(s, sched).s.sh.accepted);
    }
  }

  lemma Since(queue: seq<Buffer>, a: seq<Buffer>, b: seq<Buffer>, c: seq<Buffer>)
    requires a <= b <= c
    ensures queue + b[|a|..] + c[|b|..] == queue + c[|a|..]
  {
  }

  // ------------------------------------------------------------------ progress

  function Phase(pc: Pc): nat {
    match pc
    case ProcOwner(_) => 16
    case ProcClear(_) => 15
    case ProcBytes(_) => 14
    case ProcLock => 13
    case ProcQueue => 12
    case SendUnlock(_) => 11
    case RegCheck(_) => 10
    case RegOwner(_) => 9
    case RegLock(_) => 8
    case RegDrain(_) => 7
    case RegUnlock(_) => 6
    case RegIssue(_) => 5
    case RegError(_, _) => 4
    case RegRelease(_) => 3
    case RegClear(_) => 2
    case RegUnflag(_) => 1
    case _ => 0
  }

  /** Steps a lock owner without the token needs before it unlocks. */
  function ToUnlock(pc: Pc): nat {
    match pc
    case SendPush(_) => 3
    case SendClaim => 2
    case _ => 1
  }

  /** The token is given away or the holder is nearer to that. */
  predicate Nearer(sh: Shared, pc: Pc, m: Move) {
    m.Move? &&
    (|| m.sh.token != sh.token
     || Phase(m.pc) < Phase(pc)
     || (pc.RegDrain? && m.pc == pc && |m.sh.queue| < |sh.queue|))
  }

  lemma RegisterNearer(sh: Shared, t: Tid, pc: Pc, c: Choice)
    requires pc.RegCheck? || pc.RegOwner? || pc.RegLock? || pc.RegDrain? || pc.RegUnlock? || pc.RegIssue?
    requires sh.token == Held(t) && RegisterStep(sh, t, pc, c).Move?
    ensures Nearer(sh, pc, RegisterStep(sh, t, pc, c))
  {
  }

  lemma ErrorNearer(sh: Shared, t: Tid, pc: Pc)
    requires pc.RegError? || pc.RegRelease? || pc.RegClear? || pc.RegUnflag?
    requires sh.token == Held(t)
    ensures Nearer(sh, pc, ErrorStep(sh, pc))
  {
  }

  lemma ProcessNearer(sh: Shared, t: Tid, pc: Pc)
    requires pc.ProcOwner? || pc.ProcClear? || pc.ProcBytes? || pc.ProcLock? || pc.ProcQueue?
    requires sh.token == Held(t) && ProcessStep(sh, t, pc).Move?
    ensures Nearer(sh, pc, ProcessStep(sh, t, pc))
  {
  }

  lemma HolderStep(sh: Shared, t: Tid, pc: Pc, c: Choice)
    requires Holds(pc) && sh.token == Held(t) && Step(sh, t, pc, c).Move?
    ensures Nearer(sh, pc, Step(sh, t, pc, c))
  {
    if pc.RegCheck? || pc.RegOwner? || pc.RegLock? || pc.RegDrain? || pc.RegUnlock? || pc.RegIssue? {
      RegisterNearer(sh, t, pc, c);
    } else if pc.RegError? || pc.RegRelease? || pc.RegClear? || pc.RegUnflag? {
      ErrorNearer(sh, t, pc);
    } else if !pc.SendUnlock? {
      ProcessNearer(sh, t, pc);
    }
  }

  /** Every step of the token holder either gives the token away or moves it down a well-founded
      order: the phase, and inside the drain loop the length of the queue. */
  lemma HolderAdvances(s: State, c: Choice)
    requires Reachable(s) && s.sh.token.Held? && Next(s, Act(s.sh.token.holder, c)).Moved?
    ensures var t, s' := s.sh.token.holder, Next(s, Act(s.sh.token.holder, c)).s;
            t in s.pcs && t in s'.pcs &&
            (|| s'.sh.token != s.sh.token
             || Phase(s'.pcs[t]) < Phase(s.pcs[t])
             || (s.pcs[t].RegDrain? && s'.pcs[t] == s.pcs[t] && |s'.sh.queue| < |s.sh.queue|))
  {
    ReachableInv(s);
    var t := s.sh.token.holder;
    assert Local(s.sh, t, s.pcs[t]);
    HolderStep(s.sh, t, s.pcs[t], c);
  }

  /** How far the holder may still be: its phases and the buffers it has to drain. */
  function Distance(s: State, t: Tid): nat
    requires t in s.pcs
  {
    Phase(s.pcs[t]) + |s.sh.queue|
  }

  function StepsOf(sched: Schedule, t: Tid): nat {
    if sched == [] then 0 else (if sched[0].t == t then 1 else 0) + StepsOf(sched[1..], t)
  }

  /** `t` has the token at every moment of the run. */
  predicate HoldsThroughout(s: State, sched: Schedule, t: Tid)
    decreases |sched|
  {
    s.sh.token == Held(t) &&
    (sched == [] || (Next(s, sched[0]).Moved? && HoldsThroughout(Next(s, sched[0]).s, sched[1..], t)))
  }

  lemma HolderCost(sh: Shared, t: Tid, pc: Pc, c: Choice)
    requires Holds(pc) && sh.token == Held(t) && Step(sh, t, pc, c).Move? && Step(sh, t, pc, c).sh.token == sh.token
    ensures var m := Step(sh, t, pc, c);
            m.sh.accepted == sh.accepted && Phase(m.pc) + |m.sh.queue| < Phase(pc) + |sh.queue|
  {
    hide HolderInv;
    HolderStep(sh, t, pc, c);
    if !Books(pc) {
      QuietStep(sh, t, pc, c);
    }
  }

  lemma OtherCost(sh: Shared, t: Tid, pc: Pc, c: Choice)
    requires !Holds(pc) && Step(sh, t, pc, c).Move?
    ensures var sh' := Step(sh, t, pc, c).sh; |sh'.queue| - |sh'.accepted| == |sh.queue| - |sh.accepted|
  {
    if !Books(pc) {
      QuietStep(sh, t, pc, c);
    }
  }

  /** The steps of the holder up to the next hand-over are bounded: by 16, one for each buffer in the
      queue, and one for each buffer that others push meanwhile. */
  lemma {:induction false} HolderStepsBounded(s: State, sched: Schedule, t: Tid)
    requires CoreInv(s) && Run(s, sched).Moved? && HoldsThroughout(s, sched, t)
    ensures var s' := Run(s, sched).s;
            && t in s.pcs && t in s'.pcs
            && StepsOf(sched, t) + Distance(s', t) <= Distance(s, t) + |s'.sh.accepted| - |s.sh.accepted|
            && Distance(s, t) <= 16 + |s.sh.queue|
    decreases |sched|
  {
    hide Step, Phase, HolderInv, LockLocal;
    assert Local(s.sh, t, s.pcs[t]);
    PhaseBound(s.pcs[t]);
    if sched != [] {
      var a := sched[0];
      assert Local(s.sh, a.t, s.pcs[a.t]);
      if a.t == t { HolderCost(s.sh, t, s.pcs[t], a.c); } else { OtherCost(s.sh, a.t, s.pcs[a.t], a.c); }
      StepKeepsCore(s, a);
      HolderStepsBounded(Next(s, a).s, sched[1..], t);
    }
  }

  lemma PhaseBound(pc: Pc)
    ensures Phase(pc) <= 16
  {
  }

  /** No step of another thread moves the holder back. */
  lemma OthersDoNotDelay(s: State, a: Act)
    requires Reachable(s) && s.sh.token.Held? && a.t != s.sh.token.holder && Next(s, a).Moved?
    ensures var t, s' := s.sh.token.holder, Next(s, a).s;
            && t in s.pcs && t in s'.pcs && s'.pcs[t] == s.pcs[t] && s'.sh.token == s.sh.token
            && (s.pcs[t].RegDrain? ==> s'.sh.queue == s.sh.queue)
  {
    ReachableInv(s);
    StepKeepsCore(s, a);
    assert Local(s.sh, s.sh.token.holder, s.pcs[s.sh.token.holder]);
  }

  /** The holder waits only for the lock, and then the lock's owner can move and is at most three
      steps from unlocking: no deadlock. */
  lemma HolderWaitsBriefly(s: State)
    requires Reachable(s) && s.sh.token.Held? && Next(s, Act(s.sh.token.holder, Go)).Stuck?
    ensures s.sh.lock.Locked? && s.sh.lock.owner in s.pcs && s.sh.lock.owner != s.sh.token.holder
    ensures var u := s.sh.lock.owner;
            && Next(s, Act(u, Go)).Moved?
            && var s' := Next(s, Act(u, Go)).s;
               s'.sh.lock.Unlocked? || (s'.sh.lock == s.sh.lock && 0 < ToUnlock(s'.pcs[u]) < ToUnlock(s.pcs[u]) <= 3)
  {
    ReachableInv(s);
    var t := s.sh.token.holder;
    assert Local(s.sh, t, s.pcs[t]);
    assert s.sh.lock.Locked?;
    assert Local(s.sh, s.sh.lock.owner, s.pcs[s.sh.lock.owner]);
  }
}
