/** The TCP send pipeline of a session, as a state machine whose steps are the atomic actions of
    `Send`, `RegisterSend` and `ProcessSend`. Any number of threads take steps in any order; the
    kernel's answers are part of the schedule. */
module SendPipeline {

  type Tid = nat

  /** A shared send buffer; the tag tells two buffers with equal contents apart. */
  datatype Buffer = Buffer(tag: nat, writeSize: nat)

  /** How a batch left the send event: completed with a byte count, or refused by `WSASend`. */
  datatype Outcome = Completed(bytes: nat) | Refused

  datatype Retired = Retired(batch: seq<Buffer>, outcome: Outcome)

  /** The session's recursive write lock. */
  datatype Lock = Unlocked | Locked(owner: Tid, depth: nat)

  /** History variable: who may touch the send event. It drives no step. */
  datatype Token = Free | Held(holder: Tid) | Kernel | Lost

  /** What the threads share, then the history variables (from `token` on). */
  datatype Shared = Shared(
    connected: bool,
    registered: bool,          // _sendRegistered
    owner: bool,               // _sendEvent.owner is set
    queue: seq<Buffer>,        // _sendQueue
    batch: seq<Buffer>,        // _sendEvent.sendBuffers
    lock: Lock,
    inFlight: bool,            // the kernel owes a completion
    token: Token,
    accepted: seq<Buffer>,     // every buffer pushed, in lock order
    retired: seq<Retired>,
    issued: seq<seq<Buffer>>,  // the batch of every WSASend call
    outstanding: bool,         // the last of them is not retired yet
    unserved: bool)            // the flag was last cleared after a refusal, over a non-empty queue

  /** One program counter per atomic action; `nested` says that `ProcessSend` is the caller, which
      already holds the lock. */
  datatype Pc =
    | Idle
    | SendCheck(buf: Buffer)
    | SendLock(buf: Buffer)
    | SendPush(buf: Buffer)
    | SendClaim
    | SendUnlock(claimed: bool)
    | RegCheck(nested: bool)
    | RegOwner(nested: bool)
    | RegLock(nested: bool)
    | RegDrain(nested: bool)
    | RegUnlock(nested: bool)
    | RegIssue(nested: bool)
    | RegError(nested: bool, reset: bool)
    | RegRelease(nested: bool)
    | RegClear(nested: bool)
    | RegUnflag(nested: bool)
    | ProcOwner(bytes: nat)
    | ProcClear(bytes: nat)
    | ProcBytes(bytes: nat)
    | ProcLock
    | ProcQueue
    | ProcUnlock

  /** What the scheduler lets a thread do. */
  datatype Choice =
    | CallSend(buf: Buffer)
    | TakeCompletion(bytes: nat)
    | CallDisconnect
    | Connect
    | Go
    | Refuse(reset: bool)      // WSASend fails at once; `reset` errors disconnect

  datatype State = State(sh: Shared, pcs: map<Tid, Pc>)

  /** The result of one atomic action: the new shared state and program counter, unless the thread
      is blocked or the choice does not apply. */
  datatype Move = Blocked | Move(sh: Shared, pc: Pc)

  function Return(nested: bool): Pc {
    if nested then ProcUnlock else Idle
  }

  predicate CanAcquire(sh: Shared, t: Tid) {
    sh.lock.Unlocked? || sh.lock.owner == t
  }

  function Acquire(sh: Shared, t: Tid): Shared
    requires CanAcquire(sh, t)
  {
    sh.(lock := if sh.lock.Unlocked? then Locked(t, 1) else Locked(t, sh.lock.depth + 1))
  }

  function Release(sh: Shared): Shared {
    sh.(lock := if sh.lock.Locked? && sh.lock.depth > 1 then Locked(sh.lock.owner, sh.lock.depth - 1) else Unlocked)
  }

  /** `Send` up to and including its locked section. */
  function SendStep(sh: Shared, t: Tid, pc: Pc): Move
    requires pc.SendCheck? || pc.SendLock? || pc.SendPush? || pc.SendClaim? || pc.SendUnlock?
  {
    match pc
    case SendCheck(buf) => Move(sh, if sh.connected then SendLock(buf) else Idle)
    case SendLock(buf) =>
      if CanAcquire(sh, t) then Move(Acquire(sh, t), SendPush(buf)) else Blocked
    case SendPush(buf) =>
      Move(sh.(queue := sh.queue + [buf], accepted := sh.accepted + [buf]), SendClaim)
    case SendClaim =>
      if sh.registered then Move(sh, SendUnlock(false))
      else Move(sh.(registered := true, token := Held(t), unserved := false), SendUnlock(true))
    case SendUnlock(claimed) => Move(Release(sh), if claimed then RegCheck(false) else Idle)
  }

  /** `RegisterSend` up to the `WSASend` call. */
  function RegisterStep(sh: Shared, t: Tid, pc: Pc, c: Choice): Move
    requires pc.RegCheck? || pc.RegOwner? || pc.RegLock? || pc.RegDrain? || pc.RegUnlock? || pc.RegIssue?
  {
    match pc
    case RegCheck(nested) =>
      if sh.connected then Move(sh, RegOwner(nested))
      else Move(sh.(token := Lost), Return(nested))
    case RegOwner(nested) => Move(sh.(owner := true), RegLock(nested))
    case RegLock(nested) =>
      if CanAcquire(sh, t) then Move(Acquire(sh, t), RegDrain(nested)) else Blocked
    case RegDrain(nested) =>
      if sh.queue == [] then Move(sh, RegUnlock(nested))
      else Move(sh.(queue := sh.queue[1..], batch := sh.batch + [sh.queue[0]]), pc)
    case RegUnlock(nested) => Move(Release(sh), RegIssue(nested))
    case RegIssue(nested) =>
      var called := sh.(issued := sh.issued + [sh.batch], outstanding := true);
      if c.Refuse? then Move(called, RegError(nested, c.reset))
      else Move(called.(inFlight := true, token := Kernel), Return(nested))
  }

  /** The failure branch of `RegisterSend`. */
  function ErrorStep(sh: Shared, pc: Pc): Move
    requires pc.RegError? || pc.RegRelease? || pc.RegClear? || pc.RegUnflag?
  {
    match pc
    case RegError(nested, reset) =>
      Move(if reset then sh.(connected := false) else sh, RegRelease(nested))
    case RegRelease(nested) => Move(sh.(owner := false), RegClear(nested))
    case RegClear(nested) =>
      Move(sh.(batch := [], outstanding := false, retired := sh.retired + [Retired(sh.batch, Refused)]),
           RegUnflag(nested))
    case RegUnflag(nested) =>
      Move(sh.(registered := false, token := Free, unserved := sh.queue != []), Return(nested))
  }

  /** `ProcessSend`. */
  function ProcessStep(sh: Shared, t: Tid, pc: Pc): Move
    requires pc.ProcOwner? || pc.ProcClear? || pc.ProcBytes? || pc.ProcLock? || pc.ProcQueue? || pc.ProcUnlock?
  {
    match pc
    case ProcOwner(bytes) => Move(sh.(owner := false), ProcClear(bytes))
    case ProcClear(bytes) =>
      Move(sh.(batch := [], outstanding := false, retired := sh.retired + [Retired(sh.batch, Completed(bytes))]),
           ProcBytes(bytes))
    case ProcBytes(bytes) =>
      if bytes == 0 then Move(sh.(connected := false, token := Lost), Idle)
      else Move(sh, ProcLock)
    case ProcLock =>
      if CanAcquire(sh, t) then Move(Acquire(sh, t), ProcQueue) else Blocked
    case ProcQueue =>
      if sh.queue == [] then Move(sh.(registered := false, token := Free, unserved := false), ProcUnlock)
      else Move(sh, RegCheck(true))
    case ProcUnlock => Move(Release(sh), Idle)
  }

  /** What an idle thread may start: a `Send`, a completion, a disconnect, a (re)connect. */
  function StartStep(sh: Shared, t: Tid, c: Choice): Move {
    match c
    case CallSend(buf) => Move(sh, SendCheck(buf))
    case TakeCompletion(bytes) =>
      if sh.inFlight then Move(sh.(inFlight := false, token := Held(t)), ProcOwner(bytes)) else Blocked
    case CallDisconnect => Move(sh.(connected := false), Idle)
    case Connect => Move(sh.(connected := true), Idle)
    case Go => Blocked
    case Refuse(_) => Blocked
  }

  /** One atomic action of thread `t`; `Blocked` when it must wait or the choice does not apply. */
  function Step(sh: Shared, t: Tid, pc: Pc, c: Choice): Move {
    if pc.Idle? then StartStep(sh, t, c)
    else if !c.Go? && !(c.Refuse? && pc.RegIssue?) then Blocked
    else if pc.SendCheck? || pc.SendLock? || pc.SendPush? || pc.SendClaim? || pc.SendUnlock? then SendStep(sh, t, pc)
    else if pc.RegCheck? || pc.RegOwner? || pc.RegLock? || pc.RegDrain? || pc.RegUnlock? || pc.RegIssue? then
      RegisterStep(sh, t, pc, c)
    else if pc.RegError? || pc.RegRelease? || pc.RegClear? || pc.RegUnflag? then ErrorStep(sh, pc)
    else ProcessStep(sh, t, pc)
  }

  datatype Act = Act(t: Tid, c: Choice)

  /** A run follows a schedule: which thread moves and what it is allowed to do. */
  type Schedule = seq<Act>

  datatype Result = Stuck | Moved(s: State)

  function Next(s: State, a: Act): Result {
    if a.t !in s.pcs then Stuck
    else
      var m := Step(s.sh, a.t, s.pcs[a.t], a.c);
      if m.Blocked? then Stuck else Moved(State(m.sh, s.pcs[a.t := m.pc]))
  }

  function Init(threads: set<Tid>): State {
    State(
      Shared(false, false, false, [], [], Unlocked, false, Free, [], [], [], false, false),
      map t | t in threads :: Idle)
  }

  function Run(s: State, sched: Schedule): Result
    decreases |sched|
  {
    if sched == [] then Moved(s)
    else
      var r := Next(s, sched[0]);
      if r.Stuck? then Stuck else Run(r.s, sched[1..])
  }

  // ------------------------------------------------------------------ the invariant

  /** How often a thread at `pc` holds the write lock. */
  function Depth(pc: Pc): nat {
    match pc
    case SendPush(_) => 1
    case SendClaim => 1
    case SendUnlock(_) => 1
    case RegDrain(nested) => if nested then 2 else 1
    case RegUnlock(nested) => if nested then 2 else 1
    case RegCheck(nested) => if nested then 1 else 0
    case RegOwner(nested) => if nested then 1 else 0
    case RegLock(nested) => if nested then 1 else 0
    case RegIssue(nested) => if nested then 1 else 0
    case RegError(nested, _) => if nested then 1 else 0
    case RegRelease(nested) => if nested then 1 else 0
    case RegClear(nested) => if nested then 1 else 0
    case RegUnflag(nested) => if nested then 1 else 0
    case ProcQueue => 1
    case ProcUnlock => 1
    case _ => 0
  }

  /** The thread is inside `RegisterSend` or `ProcessSend` with the right to send. */
  predicate Holds(pc: Pc) {
    match pc
    case SendUnlock(claimed) => claimed
    case Idle => false
    case SendCheck(_) => false
    case SendLock(_) => false
    case SendPush(_) => false
    case SendClaim => false
    case ProcUnlock => false
    case _ => true
  }

  /** Where a thread has set the event's owner and not cleared it. */
  predicate Owning(pc: Pc) {
    || pc.RegLock? || pc.RegDrain? || pc.RegUnlock? || pc.RegIssue? || pc.RegError? || pc.RegRelease?
    || pc.ProcOwner?
  }

  /** What the send event and the queue hold while a thread with the token stands at `pc`. */
  predicate HolderInv(sh: Shared, pc: Pc) {
    && (sh.outstanding <==> pc.RegError? || pc.RegRelease? || pc.RegClear? || pc.ProcOwner? || pc.ProcClear?)
    && (sh.owner <==> Owning(pc))
    && match pc
    case SendUnlock(_) => sh.batch == [] && sh.queue != []
    case RegCheck(_) => sh.batch == [] && sh.queue != []
    case RegOwner(_) => sh.batch == [] && sh.queue != []
    case RegLock(_) => sh.batch == [] && sh.queue != []
    case RegDrain(_) => sh.batch != [] || sh.queue != []
    case RegUnlock(_) => sh.batch != [] && sh.queue == []
    case RegIssue(_) => sh.batch != []
    case RegError(_, _) => sh.batch != []
    case RegRelease(_) => sh.batch != []
    case RegClear(_) => sh.batch != []
    case RegUnflag(_) => sh.batch == []
    case ProcOwner(_) => sh.batch != []
    case ProcClear(_) => sh.batch != []
    case _ => sh.batch == []
  }

  predicate Owns(sh: Shared, t: Tid) {
    sh.lock.Locked? && sh.lock.owner == t
  }

  predicate LockLocal(sh: Shared, t: Tid, pc: Pc) {
    && (Owns(sh, t) <==> Depth(pc) > 0)
    && (Owns(sh, t) ==> sh.lock.depth == Depth(pc))
  }

  /** What holds of the shared state as seen by thread `t` at `pc`. */
  predicate Local(sh: Shared, t: Tid, pc: Pc) {
    && LockLocal(sh, t, pc)
    && (Holds(pc) <==> sh.token == Held(t))
    && (Holds(pc) ==> HolderInv(sh, pc))
    && (pc.SendClaim? ==> sh.queue != [])
  }

  /** What holds of the shared state whoever looks. */
  predicate Global(sh: Shared) {
    && (sh.inFlight <==> sh.token.Kernel?)
    && (sh.registered <==> !sh.token.Free?)
    && (sh.token.Kernel? ==> sh.batch != [] && sh.owner && sh.outstanding)
    && (sh.token.Free? || sh.token.Lost? ==> sh.batch == [] && !sh.outstanding && !sh.owner)
    && (sh.unserved ==> sh.token.Free? && sh.queue != [])
  }

  predicate CoreInv(s: State) {
    && Global(s.sh)
    && (forall t :: t in s.pcs ==> Local(s.sh, t, s.pcs[t]))
    && (s.sh.token.Held? ==> s.sh.token.holder in s.pcs)
    && (s.sh.lock.Locked? ==> s.sh.lock.owner in s.pcs)
  }

  // ------------------------------------------------------------------ preservation

  /** What a step of `t` may do to the others: only the lock owner changes the queue, only the token
      holder shortens it or touches the send event, and lock and token are handed over, not taken. */
  predicate Guarantee(sh: Shared, t: Tid, sh': Shared) {
    && (sh'.lock == sh.lock || (CanAcquire(sh, t) && (Owns(sh', t) || sh'.lock.Unlocked?)))
    && (sh'.token == sh.token || (sh.token.Held? ==> sh.token.holder == t))
    && (sh'.token.Held? && sh'.token != sh.token ==> sh'.token == Held(t))
    && (sh.token != Held(t) ==>
          && sh'.batch == sh.batch && sh'.owner == sh.owner
          && sh'.outstanding == sh.outstanding && sh'.issued == sh.issued && sh'.retired == sh.retired)
    && (sh'.queue != sh.queue ==> Owns(sh, t))
    && (sh.token != Held(t) ==> sh.queue <= sh'.queue)
  }

  lemma StartKeeps(sh: Shared, t: Tid, c: Choice)
    requires Global(sh) && Local(sh, t, Idle) && StartStep(sh, t, c).Move?
    ensures var m := StartStep(sh, t, c); Global(m.sh) && Local(m.sh, t, m.pc) && Guarantee(sh, t, m.sh)
  {
  }

  lemma SendKeeps(sh: Shared, t: Tid, pc: Pc)
    requires pc.SendCheck? || pc.SendLock? || pc.SendPush? || pc.SendClaim? || pc.SendUnlock?
    requires Global(sh) && Local(sh, t, pc) && SendStep(sh, t, pc).Move?
    ensures var m := SendStep(sh, t, pc); Global(m.sh) && Local(m.sh, t, m.pc) && Guarantee(sh, t, m.sh)
  {
  }

  lemma RegisterKeeps(sh: Shared, t: Tid, pc: Pc, c: Choice)
    requires pc.RegCheck? || pc.RegOwner? || pc.RegLock? || pc.RegDrain? || pc.RegUnlock? || pc.RegIssue?
    requires Global(sh) && Local(sh, t, pc) && RegisterStep(sh, t, pc, c).Move?
    ensures var m := RegisterStep(sh, t, pc, c); Global(m.sh) && Local(m.sh, t, m.pc) && Guarantee(sh, t, m.sh)
  {
  }

  lemma ErrorKeeps(sh: Shared, t: Tid, pc: Pc)
    requires pc.RegError? || pc.RegRelease? || pc.RegClear? || pc.RegUnflag?
    requires Global(sh) && Local(sh, t, pc)
    ensures var m := ErrorStep(sh, pc); Global(m.sh) && Local(m.sh, t, m.pc) && Guarantee(sh, t, m.sh)
  {
  }

  lemma ProcessKeeps(sh: Shared, t: Tid, pc: Pc)
    requires pc.ProcOwner? || pc.ProcClear? || pc.ProcBytes? || pc.ProcLock? || pc.ProcQueue? || pc.ProcUnlock?
    requires Global(sh) && Local(sh, t, pc) && ProcessStep(sh, t, pc).Move?
    ensures var m := ProcessStep(sh, t, pc); Global(m.sh) && Local(m.sh, t, m.pc) && Guarantee(sh, t, m.sh)
  {
  }

  lemma StepKeeps(sh: Shared, t: Tid, pc: Pc, c: Choice)
    requires Global(sh) && Local(sh, t, pc) && Step(sh, t, pc, c).Move?
    ensures var m := Step(sh, t, pc, c); Global(m.sh) && Local(m.sh, t, m.pc) && Guarantee(sh, t, m.sh)
  {
    if pc.Idle? {
      StartKeeps(sh, t, c);
    } else if pc.SendCheck? || pc.SendLock? || pc.SendPush? || pc.SendClaim? || pc.SendUnlock? {
      SendKeeps(sh, t, pc);
    } else if pc.RegCheck? || pc.RegOwner? || pc.RegLock? || pc.RegDrain? || pc.RegUnlock? || pc.RegIssue? {
      RegisterKeeps(sh, t, pc, c);
    } else if pc.RegError? || pc.RegRelease? || pc.RegClear? || pc.RegUnflag? {
      ErrorKeeps(sh, t, pc);
    } else {
      ProcessKeeps(sh, t, pc);
    }
  }

  /** The guarantee of `t` is all another thread needs for its own view. */
  lemma OthersKeep(sh: Shared, t: Tid, sh': Shared, u: Tid, pc: Pc)
    requires Guarantee(sh, t, sh') && Local(sh, u, pc) && u != t
    ensures Local(sh', u, pc)
  {
  }

  lemma StepKeepsCore(s: State, a: Act)
    requires CoreInv(s) && Next(s, a).Moved?
    ensures CoreInv(Next(s, a).s) && Guarantee(s.sh, a.t, Next(s, a).s.sh)
  {
    var s' := Next(s, a).s;
    StepKeeps(s.sh, a.t, s.pcs[a.t], a.c);
    forall u | u in s'.pcs
      ensures Local(s'.sh, u, s'.pcs[u])
    {
      if u != a.t { OthersKeep(s.sh, a.t, s'.sh, u, s.pcs[u]); }
    }
  }
}
