/** Connecting and disconnecting TCP sessions: `ProcessConnect`, any number of concurrent `Disconnect`
    callers and `ProcessDisconnect`, with the service's set and count and the game manager's set. */
module Lifecycle {

  type Sid = nat

  /** How far `ProcessConnect` has come. */
  datatype Connecting = NotStarted | Marked | Added | Announced | Armed

  /** How far the disconnect of the one caller that won the exchange has come. */
  datatype Leaving = NotAsked | Won | Posted | NeverPosted | Withdrawn | Released

  datatype Session = Session(connected: bool, up: Connecting, down: Leaving)

  /** A session is used for one connection; `crashed` records a failed assertion in `ReleaseSession`. */
  datatype State = State(
    all: map<Sid, Session>,
    sessions: set<Sid>,       // Service::_sessions
    sessionCount: int,
    managed: set<Sid>,        // GameSessionManager::_sessions
    crashed: bool)

  datatype Kind =
    | MarkConnected      // _connected.store(true)
    | AddSession
    | OnConnected        // GSessionManager.Add
    | ArmReceive
    | Disconnect         // _connected.exchange(false)
    | PostDisconnect     // DisconnectEx accepted
    | FailDisconnect     // DisconnectEx failed: no completion will come
    | OnDisconnected     // the completion: GSessionManager.Remove
    | ReleaseSession

  datatype Act = Create(sid: Sid) | Do(kind: Kind, sid: Sid)

  predicate Ready(x: Session, k: Kind) {
    match k
    case MarkConnected => x.up.NotStarted?
    case AddSession => x.up.Marked?
    case OnConnected => x.up.Added?
    case ArmReceive => x.up.Announced?
    case Disconnect => true
    case PostDisconnect => x.down.Won?
    case FailDisconnect => x.down.Won?
    case OnDisconnected => x.down.Posted?
    case ReleaseSession => x.down.Withdrawn?
  }

  /** The session's own part of an act. */
  function Own(x: Session, k: Kind): Session {
    match k
    case MarkConnected => x.(connected := true, up := Marked)
    case AddSession => x.(up := Added)
    case OnConnected => x.(up := Announced)
    case ArmReceive => x.(up := Armed)
    case Disconnect => if x.connected then x.(connected := false, down := Won) else x
    case PostDisconnect => x.(down := Posted)
    case FailDisconnect => x.(down := NeverPosted)
    case OnDisconnected => x.(down := Withdrawn)
    case ReleaseSession => x.(down := Released)
  }

  predicate Enabled(s: State, a: Act) {
    !s.crashed &&
    if a.Create? then a.sid !in s.all else a.sid in s.all && Ready(s.all[a.sid], a.kind)
  }

  /** `ReleaseSession` asserts that the session was there. */
  function Next(s: State, a: Act): State
    requires Enabled(s, a)
  {
    if a.Create? then s.(all := s.all[a.sid := Session(false, NotStarted, NotAsked)])
    else if a.kind.ReleaseSession? && a.sid !in s.sessions then s.(crashed := true)
    else
      State(
        s.all[a.sid := Own(s.all[a.sid], a.kind)],
        After(s.sessions, a.sid, a.kind.AddSession?, a.kind.ReleaseSession?),
        s.sessionCount + (if a.kind.AddSession? then 1 else if a.kind.ReleaseSession? then -1 else 0),
        After(s.managed, a.sid, a.kind.OnConnected?, a.kind.OnDisconnected?),
        s.crashed)
  }

  function After(xs: set<Sid>, sid: Sid, adds: bool, removes: bool): set<Sid> {
    if adds then xs + {sid} else if removes then xs - {sid} else xs
  }

  const Init: State := State(map[], {}, 0, {}, false)

  predicate Run(s: State, acts: seq<Act>)
    decreases |acts|
  {
    acts == [] || (Enabled(s, acts[0]) && Run(Next(s, acts[0]), acts[1..]))
  }

  function Final(s: State, acts: seq<Act>): State
    requires Run(s, acts)
    decreases |acts|
  {
    if acts == [] then s else Final(Next(s, acts[0]), acts[1..])
  }

  // ------------------------------------------------------------------ in every run

  predicate AddedTo(x: Session) {
    x.up.Added? || x.up.Announced? || x.up.Armed?
  }

  /** A session that is connected has not been asked to disconnect; one that never was connected neither. */
  predicate Good(x: Session) {
    && (x.connected ==> x.down.NotAsked?)
    && (x.up.NotStarted? ==> !x.connected && x.down.NotAsked?)
    && (x.down.Released? ==> AddedTo(x))
    && (!x.up.NotStarted? && x.down.NotAsked? ==> x.connected)
  }

  predicate InService(x: Session) {
    AddedTo(x) && !x.down.Released?
  }

  /** The set holds the sessions added and not released, and the count is its size. */
  ghost predicate Inv(s: State) {
    ServiceInv(s) && s.sessionCount == |s.sessions|
  }

  ghost predicate ServiceInv(s: State) {
    && (forall sid :: sid in s.sessions <==> sid in s.all && InService(s.all[sid]))
    && (forall sid :: sid in s.all ==> Good(s.all[sid]))
  }

  lemma OneServed(s: State, s': State, sid: Sid)
    requires ServiceInv(s) && sid in s'.all && s'.all == s.all[sid := s'.all[sid]]
    requires s'.sessions - {sid} == s.sessions - {sid}
    requires Good(s'.all[sid]) && (sid in s'.sessions <==> InService(s'.all[sid]))
    ensures ServiceInv(s')
  {
    hide Good, InService;
    forall x | x != sid
      ensures x in s'.sessions <==> x in s'.all && InService(s'.all[x])
    {
      assert x in s'.sessions - {sid} <==> x in s.sessions - {sid};
    }
  }

  function Order(d: Leaving): nat {
    match d
    case NotAsked => 0
    case Won => 1
    case Posted => 2
    case NeverPosted => 3
    case Withdrawn => 3
    case Released => 4
  }

  lemma OwnGood(x: Session, k: Kind)
    requires Good(x) && Ready(x, k) && (k.ReleaseSession? ==> AddedTo(x))
    ensures Good(Own(x, k))
    ensures InService(Own(x, k)) <==> k.AddSession? || (InService(x) && !k.ReleaseSession?)
    ensures k.AddSession? ==> !InService(x)
    ensures x.down == Own(x, k).down || Order(x.down) < Order(Own(x, k).down)
  {
  }

  lemma StepKeepsInv(s: State, a: Act)
    requires Inv(s) && Enabled(s, a)
    ensures Inv(Next(s, a))
  {
    hide Good, InService, Ready, Own;
    if a.Create? {
      CreateGood();
      assert a.sid !in s.sessions;
    } else {
      assert a.sid in s.sessions <==> InService(s.all[a.sid]);
      ReadyToRelease(s.all[a.sid]);
      if !(a.kind.ReleaseSession? && a.sid !in s.sessions) { OwnGood(s.all[a.sid], a.kind); }
    }
    hide ServiceInv;
    OneServed(s, Next(s, a), a.sid);
  }

  lemma ReadyToRelease(x: Session)
    ensures InService(x) ==> AddedTo(x)
  {
  }

  lemma CreateGood()
    ensures var x := Session(false, NotStarted, NotAsked); Good(x) && !InService(x)
  {
  }

  lemma {:induction false} RunKeepsInv(s: State, acts: seq<Act>)
    requires Inv(s) && Run(s, acts)
    ensures Inv(Final(s, acts))
    decreases |acts|
  {
    if acts != [] {
      StepKeepsInv(s, acts[0]);
      RunKeepsInv(Next(s, acts[0]), acts[1..]);
    }
  }

  /** However many callers disconnect a session, it goes down the road of one disconnect: each stage is
      entered at most once. */
  lemma OneDisconnect(s: State, a: Act, sid: Sid)
    requires Inv(s) && Enabled(s, a) && sid in s.all
    ensures sid in Next(s, a).all
    ensures var d, d' := s.all[sid].down, Next(s, a).all[sid].down;
            && (d' == d || (Order(d') > Order(d) && a.sid == sid))
            && (a.Do? && a.sid == sid && (a.kind.PostDisconnect? || a.kind.OnDisconnected?) ==> d' != d)
  {
    if a.Do? && a.sid == sid && !Next(s, a).crashed {
      assert sid in s.sessions <==> InService(s.all[sid]);
      OwnGood(s.all[sid], a.kind);
    }
  }

  /** The assertion in `ReleaseSession` fails exactly when the session was not added before. */
  lemma ReleaseCrashesIff(s: State, sid: Sid)
    requires Inv(s) && Enabled(s, Do(ReleaseSession, sid))
    ensures Next(s, Do(ReleaseSession, sid)).crashed <==> !AddedTo(s.all[sid])
  {
    assert sid in s.sessions <==> InService(s.all[sid]);
  }

  // ------------------------------------------------------------------ when nobody disconnects too early

  /** Nobody has the session to disconnect it before the game manager has been told of it. */
  predicate NotEarly(s: State, a: Act) {
    a.Do? && a.kind.Disconnect? && a.sid in s.all ==> s.all[a.sid].up.Announced? || s.all[a.sid].up.Armed?
  }

  predicate NeverEarly(s: State, acts: seq<Act>)
    requires Run(s, acts)
    decreases |acts|
  {
    acts == [] || (NotEarly(s, acts[0]) && NeverEarly(Next(s, acts[0]), acts[1..]))
  }

  predicate Told(x: Session) {
    x.up.Announced? || x.up.Armed?
  }

  predicate Managed(x: Session) {
    Told(x) && !x.down.Withdrawn? && !x.down.Released?
  }

  /** The part of `Orderly` about the game manager's set. */
  ghost predicate ManagerInv(s: State) {
    && (forall sid :: sid in s.all && !s.all[sid].down.NotAsked? ==> Told(s.all[sid]))
    && (forall sid :: sid in s.managed <==> sid in s.all && Managed(s.all[sid]))
  }

  /** A change of one session that is right for that session is right for all. */
  lemma OneChanged(s: State, s': State, sid: Sid)
    requires ManagerInv(s) && sid in s'.all && s'.all == s.all[sid := s'.all[sid]]
    requires s'.managed - {sid} == s.managed - {sid}
    requires s'.all[sid].down.NotAsked? || Told(s'.all[sid])
    requires sid in s'.managed <==> Managed(s'.all[sid])
    ensures ManagerInv(s')
  {
    hide Managed, Told;
    forall x | x != sid
      ensures x in s'.managed <==> x in s'.all && Managed(s'.all[x])
    {
      assert x in s'.managed - {sid} <==> x in s.managed - {sid};
    }
  }

  ghost predicate Orderly(s: State) {
    Inv(s) && !s.crashed && ManagerInv(s)
  }

  lemma OwnOrder(x: Session, k: Kind)
    requires Good(x) && Ready(x, k) && (x.down.NotAsked? || Told(x)) && (k.Disconnect? ==> Told(x))
    ensures Own(x, k).down.NotAsked? || Told(Own(x, k))
    ensures Managed(Own(x, k)) <==> k.OnConnected? || (Managed(x) && !k.OnDisconnected?)
    ensures k.ReleaseSession? ==> InService(x)
  {
  }

  lemma StepKeepsOrder(s: State, a: Act)
    requires Orderly(s) && Enabled(s, a) && NotEarly(s, a)
    ensures Orderly(Next(s, a))
  {
    StepKeepsInv(s, a);
    InvOf(s, a.sid);
    hide Inv, Good, InService, Ready, Own, Managed;
    if a.Create? {
      CreateManaged();
      assert a.sid !in s.managed;
    } else {
      assert a.sid in s.managed <==> Managed(s.all[a.sid]);
      OwnOrder(s.all[a.sid], a.kind);
    }
    hide ManagerInv;
    OneChanged(s, Next(s, a), a.sid);
  }

  lemma InvOf(s: State, sid: Sid)
    requires Inv(s)
    ensures sid in s.all ==> Good(s.all[sid]) && (sid in s.sessions <==> InService(s.all[sid]))
  {
  }

  lemma CreateManaged()
    ensures !Managed(Session(false, NotStarted, NotAsked))
  {
  }

  /** Then the assertion never fails, the count is the number of sessions, and every managed session is a
      session of the service; and a session in the service but not managed is on its way in or out. */
  lemma {:induction false} OrderlyRuns(s: State, acts: seq<Act>)
    requires Orderly(s) && Run(s, acts) && NeverEarly(s, acts)
    ensures Orderly(Final(s, acts))
    ensures var e := Final(s, acts);
            && !e.crashed && e.sessionCount == |e.sessions| && e.managed <= e.sessions
            && forall sid :: sid in e.sessions - e.managed ==> e.all[sid].up.Added? || e.all[sid].down.Withdrawn?
    decreases |acts|
  {
    if acts != [] {
      StepKeepsOrder(s, acts[0]);
      OrderlyRuns(Next(s, acts[0]), acts[1..]);
    }
  }

  lemma InitOrderly()
    ensures Orderly(Init)
  {
  }

  // ------------------------------------------------------------------ and when somebody does

  lemma RunCons(s: State, a: Act, acts: seq<Act>)
    requires Enabled(s, a) && Run(Next(s, a), acts)
    ensures Run(s, [a] + acts) && Final(s, [a] + acts) == Final(Next(s, a), acts)
  {
    assert ([a] + acts)[1..] == acts;
  }

  /** A disconnect between marking and adding a session makes the assertion fail. */
  lemma EarlyDisconnectCrashes() returns (acts: seq<Act>)
    ensures Run(Init, acts) && Final(Init, acts).crashed
  {
    hide Run, Final;
    var s1 := Next(Init, Create(0));
    var s2 := Next(s1, Do(MarkConnected, 0));
    var s3 := Next(s2, Do(Disconnect, 0));
    var s4 := Next(s3, Do(PostDisconnect, 0));
    var s5 := Next(s4, Do(OnDisconnected, 0));
    acts := LastAct(s5, Do(ReleaseSession, 0));
    RunCons(s4, Do(OnDisconnected, 0), acts);
    acts := [Do(OnDisconnected, 0)] + acts;
    RunCons(s3, Do(PostDisconnect, 0), acts);
    acts := [Do(PostDisconnect, 0)] + acts;
    RunCons(s2, Do(Disconnect, 0), acts);
    acts := [Do(Disconnect, 0)] + acts;
    RunCons(s1, Do(MarkConnected, 0), acts);
    acts := [Do(MarkConnected, 0)] + acts;
    RunCons(Init, Create(0), acts);
    acts := [Create(0)] + acts;
  }

  /** One between adding and announcing leaves the game manager with a session that the service has
      already released and that nothing will remove. */
  lemma EarlyDisconnectLeavesZombie(s: State, sid: Sid) returns (acts: seq<Act>)
    requires Orderly(s) && sid in s.all && s.all[sid] == Session(true, Added, NotAsked)
    ensures Run(s, acts)
    ensures var e := Final(s, acts);
            sid in e.managed && sid !in e.sessions && sid in e.all && e.all[sid].down.Released?
  {
    assert sid in s.sessions;
    hide Run, Final, Inv, ManagerInv;
    var s1 := Next(s, Do(Disconnect, sid));
    var s2 := Next(s1, Do(PostDisconnect, sid));
    var s3 := Next(s2, Do(OnDisconnected, sid));
    var s4 := Next(s3, Do(ReleaseSession, sid));
    acts := LastAct(s4, Do(OnConnected, sid));
    RunCons(s3, Do(ReleaseSession, sid), acts);
    RunCons(s2, Do(OnDisconnected, sid), [Do(ReleaseSession, sid)] + acts);
    RunCons(s1, Do(PostDisconnect, sid), [Do(OnDisconnected, sid)] + ([Do(ReleaseSession, sid)] + acts));
    acts := [Do(PostDisconnect, sid)] + ([Do(OnDisconnected, sid)] + ([Do(ReleaseSession, sid)] + acts));
    RunCons(s, Do(Disconnect, sid), acts);
    acts := [Do(Disconnect, sid)] + acts;
  }

  // ------------------------------------------------------------------ uninterrupted calls are runs

  /** `ProcessConnect` that nobody interrupts. */
  lemma ConnectIsARun(s: State, sid: Sid) returns (acts: seq<Act>)
    requires !s.crashed && sid in s.all && s.all[sid].up.NotStarted?
    ensures Run(s, acts) && Final(s, acts) ==
            State(s.all[sid := Session(true, Armed, s.all[sid].down)], s.sessions + {sid}, s.sessionCount + 1,
                  s.managed + {sid}, false)
  {
    hide Run, Final;
    var s1 := Next(s, Do(MarkConnected, sid));
    var s2 := Next(s1, Do(AddSession, sid));
    var s3 := Next(s2, Do(OnConnected, sid));
    acts := LastAct(s3, Do(ArmReceive, sid));
    RunCons(s2, Do(OnConnected, sid), acts);
    RunCons(s1, Do(AddSession, sid), [Do(OnConnected, sid)] + acts);
    RunCons(s, Do(MarkConnected, sid), [Do(AddSession, sid)] + ([Do(OnConnected, sid)] + acts));
    acts := [Do(MarkConnected, sid)] + ([Do(AddSession, sid)] + ([Do(OnConnected, sid)] + acts));
  }

  /** One `Disconnect` of a session in service and its completion, likewise. */
  lemma DisconnectIsARun(s: State, sid: Sid) returns (acts: seq<Act>)
    requires !s.crashed && sid in s.all && s.all[sid].connected && sid in s.sessions
    ensures Run(s, acts) && Final(s, acts) ==
            State(s.all[sid := Session(false, s.all[sid].up, Released)], s.sessions - {sid}, s.sessionCount - 1,
                  s.managed - {sid}, false)
  {
    hide Run, Final;
    var s1 := Next(s, Do(Disconnect, sid));
    var s2 := Next(s1, Do(PostDisconnect, sid));
    var s3 := Next(s2, Do(OnDisconnected, sid));
    acts := LastAct(s3, Do(ReleaseSession, sid));
    RunCons(s2, Do(OnDisconnected, sid), acts);
    RunCons(s1, Do(PostDisconnect, sid), [Do(OnDisconnected, sid)] + acts);
    RunCons(s, Do(Disconnect, sid), [Do(PostDisconnect, sid)] + ([Do(OnDisconnected, sid)] + acts));
    acts := [Do(Disconnect, sid)] + ([Do(PostDisconnect, sid)] + ([Do(OnDisconnected, sid)] + acts));
  }

  lemma LastAct(s: State, a: Act) returns (acts: seq<Act>)
    requires Enabled(s, a)
    ensures acts == [a] && Run(s, acts) && Final(s, acts) == Next(s, a)
  {
    acts := [a];
    assert acts[1..] == [];
  }

  // ------------------------------------------------------------------ the sets as objects

  class Service<S(==)> {
    var sessions: set<S>
    var sessionCount: int

    constructor ()
      ensures sessions == {} && sessionCount == 0
    {
      sessions, sessionCount := {}, 0;
    }

    method AddSession(session: S)
      modifies this
      ensures sessions == old(sessions) + {session} && sessionCount == old(sessionCount) + 1
    {
      sessionCount := sessionCount + 1;
      sessions := sessions + {session};
    }

    /** Returns whether the assertion held. */
    method ReleaseSession(session: S) returns (ok: bool)
      modifies this
      ensures ok == (session in old(sessions))
      ensures sessions == old(sessions) - {session}
      ensures sessionCount == old(sessionCount) - if ok then 1 else 0
      ensures old(sessionCount == |sessions|) ==> sessionCount == |sessions|
    {
      ok := session in sessions;
      sessions := sessions - {session};
      if !ok { return; }
      sessionCount := sessionCount - 1;
    }
  }
}
