/** The single receive of the UDP socket, shared by any number of workers: exactly one party owns the
    receive buffer at any time. */
module RecvLoop {
  import opened UdpPacket

  type Tid = nat

  datatype Pc =
    | Waiting                 // in GetQueuedCompletionStatus
    | Dispatched(bytes: int)  // UdpSession::ProcessRecv entered
    | Handling                // inside OnRecvPacket, hence inside every packet handler
    | Arming                  // RegisterRecv entered
    | Posting                 // before WSARecvFrom
    | Failed                  // WSARecvFrom failed at once

  datatype State = State(
    pending: bool,            // a WSARecvFrom is outstanding
    owner: bool,              // _recvEvent.owner is set
    pcs: map<Tid, Pc>,
    failures: nat)            // history: immediate failures so far

  /** A completion with any byte count, errors included; a step; or a step whose WSARecvFrom fails. */
  datatype Choice = Complete(bytes: int) | Go | Fail

  datatype Act = Act(t: Tid, c: Choice)

  /** `UdpService::Start` arms the first receive on the main thread. */
  function Init(workers: set<Tid>, main: Tid): State {
    State(false, false, (map t | t in workers :: Waiting)[main := Arming], 0)
  }

  predicate Enabled(s: State, a: Act) {
    a.t in s.pcs &&
    match s.pcs[a.t]
    case Waiting => a.c.Complete? && s.pending
    case Posting => !a.c.Complete?
    case _ => a.c.Go?
  }

  function Next(s: State, a: Act): State
    requires Enabled(s, a)
  {
    var t := a.t;
    match s.pcs[t]
    case Waiting => s.(pending := false, pcs := s.pcs[t := Dispatched(a.c.bytes)])
    case Dispatched(n) => s.(owner := false, pcs := s.pcs[t := if n >= UDP_HEADER_SIZE then Handling else Arming])
    case Handling => s.(pcs := s.pcs[t := Arming])
    case Arming => s.(owner := true, pcs := s.pcs[t := Posting])
    case Posting =>
      if a.c.Fail? then s.(pcs := s.pcs[t := Failed], failures := s.failures + 1)
      else s.(pending := true, pcs := s.pcs[t := Waiting])
    case Failed => s.(owner := false, pcs := s.pcs[t := Arming])
  }

  predicate Run(s: State, acts: seq<Act>)
    decreases |acts|
  {
    acts == [] || (Enabled(s, acts[0]) && Run(Next(s, acts[0]), acts[1..]))
  }

  function Final(s: State, acts: seq<Act>): State
    requires Run(s, acts)
    decreases |acts|
  {
    if acts == [] then s else Final(Next(s, acts[0]), acts[1..])
  }

  /** Threads between taking a completion and posting the next receive. */
  function Inside(s: State): set<Tid> {
    set t | t in s.pcs && !s.pcs[t].Waiting?
  }

  ghost predicate Inv(s: State) {
    && |Inside(s)| + (if s.pending then 1 else 0) == 1
    && (s.pending ==> s.owner)
    && (forall t :: t in s.pcs && !s.pcs[t].Waiting? ==>
          (s.owner <==> s.pcs[t].Dispatched? || s.pcs[t].Posting? || s.pcs[t].Failed?))
  }

  lemma AloneInside(s: State, t: Tid)
    requires Inv(s) && t in Inside(s)
    ensures Inside(s) == {t} && !s.pending
  {
    var rest := Inside(s) - {t};
    assert |rest| == |Inside(s)| - 1;
    assert rest == {};
  }

  lemma StepKeepsInv(s: State, a: Act)
    requires Inv(s) && Enabled(s, a)
    ensures Inv(Next(s, a))
  {
    var s' := Next(s, a);
    if s.pcs[a.t].Waiting? {
      assert Inside(s) == {};
      assert Inside(s') == {a.t};
    } else {
      AloneInside(s, a.t);
      assert forall u :: u in s.pcs && u != a.t ==> s.pcs[u].Waiting? by {
        forall u | u in s.pcs && u != a.t
          ensures s.pcs[u].Waiting?
        {
          assert u !in Inside(s);
        }
      }
      if s'.pcs[a.t].Waiting? {
        assert Inside(s') == {};
      } else {
        assert Inside(s') == {a.t};
      }
    }
  }

  lemma {:induction false} RunKeepsInv(s: State, acts: seq<Act>)
    requires Inv(s) && Run(s, acts)
    ensures Inv(Final(s, acts))
    decreases |acts|
  {
    if acts != [] {
      StepKeepsInv(s, acts[0]);
      RunKeepsInv(Next(s, acts[0]), acts[1..]);
    }
  }

  /** In every reachable state either one receive is pending or exactly one thread is between its
      completion and the next; so no two threads are in a packet handler, and none is while the kernel
      may write the buffer. A completion always finds the event's owner set, and no handler does. */
  lemma OneReceiver(workers: set<Tid>, main: Tid, acts: seq<Act>)
    requires Run(Init(workers, main), acts)
    ensures var s := Final(Init(workers, main), acts);
            && (s.pending <==> Inside(s) == {})
            && (!s.pending ==> exists t :: Inside(s) == {t})
            && (forall t, u :: t in s.pcs && u in s.pcs && s.pcs[t].Handling? && s.pcs[u].Handling? ==> t == u)
            && (forall t :: t in s.pcs && s.pcs[t].Handling? ==> !s.pending && !s.owner)
            && (s.pending ==> s.owner)
            && (forall t :: t in s.pcs && s.pcs[t].Dispatched? ==> s.owner)
  {
    var s0 := Init(workers, main);
    assert Inside(s0) == {main};
    RunKeepsInv(s0, acts);
    var s := Final(s0, acts);
    if !s.pending {
      var t :| t in Inside(s);
      AloneInside(s, t);
    }
    forall t | t in s.pcs && s.pcs[t].Handling?
      ensures Inside(s) == {t} && !s.pending
    {
      assert t in Inside(s);
      AloneInside(s, t);
    }
  }

  // ------------------------------------------------------------------ the loop keeps going

  function Distance(pc: Pc): nat {
    match pc
    case Waiting => 0
    case Posting => 1
    case Arming => 2
    case Failed => 3
    case Handling => 3
    case Dispatched(_) => 4
  }

  /** Whatever a completion carried, the thread that took it is never blocked, and each of its steps is
      nearer to the next pending receive, except an immediate failure of WSARecvFrom. */
  lemma AlwaysRearms(workers: set<Tid>, main: Tid, acts: seq<Act>, t: Tid)
    requires Run(Init(workers, main), acts)
    requires t in Inside(Final(Init(workers, main), acts))
    ensures var s := Final(Init(workers, main), acts);
            && Enabled(s, Act(t, Go))
            && var s' := Next(s, Act(t, Go));
               Distance(s'.pcs[t]) < Distance(s.pcs[t]) && (s'.pending <==> Distance(s'.pcs[t]) == 0)
               && s'.failures == s.failures
  {
    var s0 := Init(workers, main);
    assert Inside(s0) == {main};
    RunKeepsInv(s0, acts);
    AloneInside(Final(s0, acts), t);
  }

  /** So as many steps of one kind are bounded by as many of another: over any run, at most four steps
      inside per completion, and three more per failure. */
  lemma {:induction false} StepsBounded(s: State, acts: seq<Act>, t: Tid)
    requires Inv(s) && Run(s, acts) && t in s.pcs
    requires forall i :: 0 <= i < |acts| ==> acts[i].t == t && !acts[i].c.Complete?
    ensures |acts| <= Distance(s.pcs[t]) + 3 * (Final(s, acts).failures - s.failures)
    decreases |acts|
  {
    if acts != [] {
      StepKeepsInv(s, acts[0]);
      StepsBounded(Next(s, acts[0]), acts[1..], t);
    }
  }

  // ------------------------------------------------------------------ the methods

  class UdpSession {
    var recvOwner: bool
    var pending: bool

    /** `failures` is how often WSARecvFrom fails at once before it is accepted. */
    method RegisterRecv(failures: nat)
      requires !pending
      modifies this
      ensures pending && recvOwner
      decreases failures
    {
      recvOwner := true;
      if failures == 0 {
        pending := true;
      } else {
        recvOwner := false;
        RegisterRecv(failures - 1);
      }
    }

    /** Called with a completed receive; returns whether the datagram went to `OnRecvPacket`. */
    method ProcessRecv(bytes: int, failures: nat) returns (handled: bool)
      requires !pending && recvOwner
      modifies this
      ensures handled <==> bytes >= 14
      ensures pending && recvOwner
    {
      recvOwner := false;
      handled := bytes >= UDP_HEADER_SIZE;
      RegisterRecv(failures);
    }
  }

  /** Arming alone: any number of immediate failures, then a pending receive. */
  lemma {:induction false} RegisterRecvIsARun(s: State, t: Tid, failures: nat) returns (acts: seq<Act>)
    requires t in s.pcs && s.pcs[t].Arming?
    ensures Run(s, acts) && Final(s, acts) == State(true, true, s.pcs[t := Waiting], s.failures + failures)
    decreases failures
  {
    hide Run, Final;
    var s1 := Next(s, Act(t, Go));
    if failures == 0 {
      acts := LastSteps(s, t);
    } else {
      var s2 := Next(s1, Act(t, Fail));
      var s3 := Next(s2, Act(t, Go));
      acts := RegisterRecvIsARun(s3, t, failures - 1);
      assert s3.pcs[t := Waiting] == s.pcs[t := Waiting];
      RunCons(s2, Act(t, Go), acts);
      RunCons(s1, Act(t, Fail), [Act(t, Go)] + acts);
      RunCons(s, Act(t, Go), [Act(t, Fail)] + ([Act(t, Go)] + acts));
      acts := [Act(t, Go)] + ([Act(t, Fail)] + ([Act(t, Go)] + acts));
    }
  }

  lemma LastSteps(s: State, t: Tid) returns (acts: seq<Act>)
    requires t in s.pcs && s.pcs[t].Arming?
    ensures Run(s, acts) && Final(s, acts) == State(true, true, s.pcs[t := Waiting], s.failures)
  {
    acts := [Act(t, Go)] + ([Act(t, Go)] + []);
    var s1 := Next(s, Act(t, Go));
    assert Next(s1, Act(t, Go)) == State(true, true, s.pcs[t := Waiting], s.failures);
    RunCons(s1, Act(t, Go), []);
    RunCons(s, Act(t, Go), [Act(t, Go)] + []);
  }

  /** A whole `ProcessRecv` of one worker is a run from a pending receive to the next one; it passes
      through the packet handler exactly when the datagram holds a header. */
  lemma ProcessRecvIsARun(s: State, t: Tid, bytes: int, failures: nat) returns (acts: seq<Act>, handled: bool)
    requires t in s.pcs && s.pcs[t].Waiting? && s.pending
    ensures Run(s, acts) && Final(s, acts) == State(true, true, s.pcs, s.failures + failures)
    ensures handled <==> bytes >= 14
    ensures |acts| > 2 && acts[0] == Act(t, Complete(bytes)) && acts[1] == Act(t, Go)
    ensures handled <==> Next(Next(s, acts[0]), acts[1]).pcs[t].Handling?
  {
    hide Run, Final;
    handled := bytes >= UDP_HEADER_SIZE;
    var s1 := Next(s, Act(t, Complete(bytes)));
    var s2 := Next(s1, Act(t, Go));
    var s3 := if handled then Next(s2, Act(t, Go)) else s2;
    var rest := RegisterRecvIsARun(s3, t, failures);
    if handled {
      RunCons(s2, Act(t, Go), rest);
      rest := [Act(t, Go)] + rest;
    }
    assert s3.pcs[t := Waiting] == s.pcs;
    RunCons(s1, Act(t, Go), rest);
    RunCons(s, Act(t, Complete(bytes)), [Act(t, Go)] + rest);
    RunNotEmpty(s2, rest, t);
    acts := [Act(t, Complete(bytes))] + ([Act(t, Go)] + rest);
  }

  lemma RunCons(s: State, a: Act, acts: seq<Act>)
    requires Enabled(s, a) && Run(Next(s, a), acts)
    ensures Run(s, [a] + acts) && Final(s, [a] + acts) == Final(Next(s, a), acts)
  {
    assert ([a] + acts)[1..] == acts;
  }

  lemma RunNotEmpty(s: State, acts: seq<Act>, t: Tid)
    requires Run(s, acts) && t in s.pcs && !s.pcs[t].Waiting?
    requires t in Final(s, acts).pcs && Final(s, acts).pcs[t].Waiting?
    ensures acts != []
  {
  }
}
