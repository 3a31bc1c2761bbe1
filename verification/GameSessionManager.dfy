/** The game's set of live TCP sessions, sending to all of them, and how a session enters and leaves it. */
module GameSessionManager {
  import opened KernelAnswer
  import opened SendPipeline
  import opened SessionSend
  import Lifecycle

  class GameSessionManager {
    var sessions: set<Session>

    constructor ()
      ensures sessions == {}
    {
      sessions := {};
    }

    method Add(session: Session)
      modifies this
      ensures sessions == old(sessions) + {session}
    {
      sessions := sessions + {session};
    }

    method Remove(session: Session)
      modifies this
      ensures sessions == old(sessions) - {session}
    {
      sessions := sessions - {session};
    }

    /** Every session in the set is sent the buffer once, in an order of the set's own choosing, which
        makes no difference; `answers` is what the kernel tells each session that calls it. */
    method Broadcast(buf: Buffer, answers: map<Session, Kernel>)
      requires sessions <= answers.Keys
      modifies sessions
      ensures forall s :: s in sessions ==> s.View() == AfterSend(old(s.View()), buf, answers[s])
    {
      var todo := sessions;
      while todo != {}
        invariant todo <= sessions
        invariant forall s :: s in todo ==> s.View() == old(s.View())
        invariant forall s :: s in sessions - todo ==> s.View() == AfterSend(old(s.View()), buf, answers[s])
        decreases |todo|
      {
        var session :| session in todo;
        todo := todo - {session};
        session.Send(buf, answers[session]);
      }
    }
  }

  /** A `GameSession`: the TCP session with the service and the game manager it is known to. */
  class GameSession {
    const session: Session
    const service: Lifecycle.Service<Session>
    const manager: GameSessionManager
    var receiving: bool

    constructor (session: Session, service: Lifecycle.Service<Session>, manager: GameSessionManager)
      ensures this.session == session && this.service == service && this.manager == manager
    {
      this.session, this.service, this.manager, receiving := session, service, manager, false;
    }

    /** `OnConnected` tells the manager; `k` is the kernel's answer to the first `WSARecv`. */
    method ProcessConnect(k: Kernel)
      modifies this`receiving, session`connected, service, manager
      ensures session.connected == (k != RefusedNow(true)) && receiving == k.Taken?
      ensures service.sessions == old(service.sessions) + {session}
      ensures service.sessionCount == old(service.sessionCount) + 1
      ensures manager.sessions == old(manager.sessions) + {session}
      ensures old(service.sessionCount == |service.sessions| && session !in service.sessions) ==>
                service.sessionCount == |service.sessions|
      ensures old(manager.sessions <= service.sessions) ==> manager.sessions <= service.sessions
    {
      session.connected := true;
      service.AddSession(session);
      manager.Add(session);
      receiving := k.Taken?;
      if k == RefusedNow(true) { session.connected := false; }
    }

    /** `accepted` is the answer of `DisconnectEx`; only the first of many callers asks for it. */
    method Disconnect(accepted: bool) returns (posted: bool)
      modifies session`connected
      ensures !session.connected && posted == (old(session.connected) && accepted)
    {
      var was := session.connected;
      session.connected := false;
      if !was { return false; }
      return accepted;
    }

    /** `OnDisconnected` tells the manager; returns whether the assertion of `ReleaseSession` held. */
    method ProcessDisconnect() returns (ok: bool)
      modifies service, manager
      ensures ok == (session in old(service.sessions))
      ensures service.sessions == old(service.sessions) - {session}
      ensures manager.sessions == old(manager.sessions) - {session}
      ensures old(service.sessionCount == |service.sessions|) ==> service.sessionCount == |service.sessions|
      ensures old(manager.sessions <= service.sessions) ==> manager.sessions <= service.sessions
    {
      manager.Remove(session);
      ok := service.ReleaseSession(session);
    }
  }
}
