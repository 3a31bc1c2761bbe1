/** The UDP registry under concurrency: any number of workers register and touch clients while the one
    main thread runs `Tick` in its two phases and announces what `Tick` returned. */
module TimeoutMachine {
  import opened Bytes
  import opened Options
  import opened Registry

  type Ref = nat

  /** Where the main thread is: asleep, scanning under the read lock, removing under one write lock per
      client, announcing the departures. */
  datatype Main =
    | Asleep
    | Scan(now: int, todo: set<Id>, expired: seq<Id>)
    | Evict(expired: seq<Id>, next: nat)
    | Announce(expired: seq<Id>, next: nat)

  /** `announced` records each departure broadcast with the clients it went to. */
  datatype Departure = Departure(id: Id, audience: set<Id>)

  datatype State = State(reg: Reg<Ref>, main: Main, announced: seq<Departure>)

  datatype Act =
    | DoRegister(addr: Addr, now: int, ref: Ref)
    | DoTouch(ref: Ref, seqNo: nat, now: int)
    | DoSetUser(ref: Ref, userId: seq<Byte>)
    | StartTick(now: int)
    | ScanOne(id: Id)
    | ScanDone
    | EvictOne
    | EvictDone
    | AnnounceOne
    | AnnounceDone

  /** Whether the act can happen: a registration needs the write lock, which the scan excludes, and a
      fresh reference; a touch needs a reference that was once handed out. */
  predicate Enabled(s: State, a: Act) {
    match a
    case DoRegister(_, _, r) => !s.main.Scan? && r !in s.reg.ctx
    case DoTouch(r, _, _) => r in s.reg.ctx
    case DoSetUser(r, _) => r in s.reg.ctx
    case StartTick(_) => s.main.Asleep?
    case ScanOne(id) => s.main.Scan? && id in s.main.todo
    case ScanDone => s.main.Scan? && s.main.todo == {}
    case EvictOne => s.main.Evict? && s.main.next < |s.main.expired|
    case EvictDone => s.main.Evict? && s.main.next == |s.main.expired|
    case AnnounceOne => s.main.Announce? && s.main.next < |s.main.expired|
    case AnnounceDone => s.main.Announce? && s.main.next == |s.main.expired|
  }

  predicate TimedOut(g: Reg<Ref>, id: Id, now: int) {
    id in g.ids && g.ids[id] in g.ctx && now - g.ctx[g.ids[id]].lastAliveMs > SESSION_TIMEOUT_MS
  }

  function Next(s: State, a: Act): State
    requires Enabled(s, a)
  {
    match a
    case DoRegister(addr, now, r) => s.(reg := Register(s.reg, addr, now, r).0)
    case DoTouch(r, seqNo, now) => s.(reg := Touch(s.reg, r, seqNo, now))
    case DoSetUser(r, userId) => s.(reg := SetUser(s.reg, r, userId))
    case StartTick(now) => s.(main := Scan(now, s.reg.ids.Keys, []))
    case ScanOne(id) =>
      var m := s.main;
      s.(main := Scan(m.now, m.todo - {id}, if TimedOut(s.reg, id, m.now) then m.expired + [id] else m.expired))
    case ScanDone => s.(main := Evict(s.main.expired, 0))
    case EvictOne =>
      State(Remove(s.reg, s.main.expired[s.main.next]), Evict(s.main.expired, s.main.next + 1), s.announced)
    case EvictDone => s.(main := Announce(s.main.expired, 0))
    case AnnounceOne =>
      var d := Departure(s.main.expired[s.main.next], s.reg.ids.Keys);
      s.(announced := s.announced + [d], main := Announce(s.main.expired, s.main.next + 1))
    case AnnounceDone => s.(main := Asleep)
  }

  function Run(s: State, acts: seq<Act>): Option<State>
    decreases |acts|
  {
    if acts == [] then Some(s)
    else if Enabled(s, acts[0]) then Run(Next(s, acts[0]), acts[1..])
    else None
  }

  const Init: State := State(Empty<Ref>(), Asleep, [])

  // ------------------------------------------------------------------ the invariant

  ghost predicate Distinct(ids: seq<Id>) {
    forall i, j :: 0 <= i < j < |ids| ==> ids[i] != ids[j]
  }

  /** Removed from the maps, not yet announced. */
  ghost function Pending(m: Main): set<Id> {
    match m
    case Evict(e, n) => set i | 0 <= i < |e| && i < n :: e[i]
    case Announce(e, n) => set i | 0 <= i < |e| && n <= i :: e[i]
    case _ => {}
  }

  ghost function Announced(ds: seq<Departure>): set<Id> {
    set i | 0 <= i < |ds| :: ds[i].id
  }

  ghost predicate MainInv(s: State) {
    match s.main
    case Asleep => true
    case Scan(_, todo, e) =>
      Distinct(e) && todo <= s.reg.ids.Keys && (forall i :: 0 <= i < |e| ==> e[i] in s.reg.ids && e[i] !in todo)
    case Evict(e, n) => Distinct(e) && n <= |e| && forall i :: n <= i < |e| ==> e[i] in s.reg.ids
    case Announce(e, n) => Distinct(e) && n <= |e|
  }

  /** Every id ever issued is live, removed and due to be announced, or announced, and only one of
      these; nobody is told of its own departure. */
  ghost predicate Inv(s: State) {
    && Consistent(s.reg)
    && MainInv(s)
    && (forall id :: 0 < id < s.reg.counter <==>
          id in s.reg.ids || id in Pending(s.main) || id in Announced(s.announced))
    && s.reg.ids.Keys !! Pending(s.main)
    && s.reg.ids.Keys !! Announced(s.announced)
    && Pending(s.main) !! Announced(s.announced)
    && (forall i, j :: 0 <= i < j < |s.announced| ==> s.announced[i].id != s.announced[j].id)
    && (forall i :: 0 <= i < |s.announced| ==> s.announced[i].id !in s.announced[i].audience)
  }

  lemma RegisterIds(g: Reg<Ref>, addr: Addr, now: int, r: Ref)
    requires Consistent(g) && Register(g, addr, now, r).0.counter <= ID_SPACE
    ensures var g' := Register(g, addr, now, r).0;
            || (g'.counter == g.counter && g'.ids.Keys == g.ids.Keys)
            || (g'.counter == g.counter + 1 && g'.ids.Keys == g.ids.Keys + {g.counter})
    ensures 0 < g.counter && forall id :: id in g.ids ==> 0 < id < g.counter
  {
    hide SockAddrKey;
  }

  lemma RegisterStep(s: State, addr: Addr, now: int, r: Ref)
    requires Inv(s) && Enabled(s, DoRegister(addr, now, r))
    requires Next(s, DoRegister(addr, now, r)).reg.counter <= ID_SPACE
    ensures Inv(Next(s, DoRegister(addr, now, r)))
  {
    hide SockAddrKey, Register, Consistent;
    RegisterKeeps(s.reg, addr, now, r);
    RegisterIds(s.reg, addr, now, r);
  }

  lemma HandlerStep(s: State, a: Act)
    requires Inv(s) && Enabled(s, a) && (a.DoTouch? || a.DoSetUser?)
    ensures Inv(Next(s, a))
  {
    hide SockAddrKey;
    if a.DoTouch? { TouchKeeps(s.reg, a.ref, a.seqNo, a.now); } else { SetUserKeeps(s.reg, a.ref, a.userId); }
  }

  lemma ScanStep(s: State, a: Act)
    requires Inv(s) && Enabled(s, a) && (a.StartTick? || a.ScanOne? || a.ScanDone? || a.EvictDone? || a.AnnounceDone?)
    ensures Inv(Next(s, a))
  {
    hide SockAddrKey, Consistent, Register, Remove, Touch, SetUser, TimedOut;
    var s' := Next(s, a);
    assert Pending(s'.main) == Pending(s.main);
  }

  lemma EvictStep(s: State)
    requires Inv(s) && Enabled(s, EvictOne)
    ensures Inv(Next(s, EvictOne))
  {
    hide SockAddrKey;
    var id := s.main.expired[s.main.next];
    var s' := Next(s, EvictOne);
    RemoveKeeps(s.reg, id);
    assert Pending(s'.main) == Pending(s.main) + {id};
    assert s'.reg.ids.Keys == s.reg.ids.Keys - {id};
  }

  lemma AnnouncedSnoc(ds: seq<Departure>, d: Departure)
    ensures Announced(ds + [d]) == Announced(ds) + {d.id}
  {
    forall id | id in Announced(ds) + {d.id}
      ensures id in Announced(ds + [d])
    {
      if id == d.id {
        assert (ds + [d])[|ds|].id == id;
      } else {
        var i :| 0 <= i < |ds| && ds[i].id == id;
        assert (ds + [d])[i].id == id;
      }
    }
  }

  lemma AnnounceStep(s: State)
    requires Inv(s) && Enabled(s, AnnounceOne)
    ensures Inv(Next(s, AnnounceOne))
  {
    var id := s.main.expired[s.main.next];
    var s' := Next(s, AnnounceOne);
    assert id in Pending(s.main);
    assert Pending(s'.main) == Pending(s.main) - {id};
    AnnouncedSnoc(s.announced, Departure(id, s.reg.ids.Keys));
  }

  lemma StepKeepsInv(s: State, a: Act)
    requires Inv(s) && Enabled(s, a) && Next(s, a).reg.counter <= ID_SPACE
    ensures Inv(Next(s, a))
  {
    match a
    case DoRegister(addr, now, r) => RegisterStep(s, addr, now, r);
    case DoTouch(_, _, _) => HandlerStep(s, a);
    case DoSetUser(_, _) => HandlerStep(s, a);
    case EvictOne => EvictStep(s);
    case AnnounceOne => AnnounceStep(s);
    case _ => ScanStep(s, a);
  }

  // ------------------------------------------------------------------ every run

  lemma {:induction false} RunGrows(s: State, acts: seq<Act>)
    requires Run(s, acts).Some?
    ensures s.reg.counter <= Run(s, acts).value.reg.counter
    ensures s.announced <= Run(s, acts).value.announced
    decreases |acts|
  {
    if acts != [] {
      StepGrows(s, acts[0]);
      RunGrows(Next(s, acts[0]), acts[1..]);
    }
  }

  lemma StepGrows(s: State, a: Act)
    requires Enabled(s, a)
    ensures s.reg.counter <= Next(s, a).reg.counter && s.announced <= Next(s, a).announced
  {
    hide SockAddrKey;
  }

  lemma {:induction false} RunKeepsInv(s: State, acts: seq<Act>)
    requires Inv(s) && Run(s, acts).Some? && Run(s, acts).value.reg.counter <= ID_SPACE
    ensures Inv(Run(s, acts).value)
    decreases |acts|
  {
    if acts != [] {
      RunGrows(Next(s, acts[0]), acts[1..]);
      StepKeepsInv(s, acts[0]);
      RunKeepsInv(Next(s, acts[0]), acts[1..]);
    }
  }

  /** A state that some run reaches before the 64-bit counter wraps. */
  ghost predicate Reachable(s: State) {
    s.reg.counter <= ID_SPACE && exists acts: seq<Act> :: Run(Init, acts) == Some(s)
  }

  lemma ReachableInv(s: State)
    requires Reachable(s)
    ensures Inv(s)
  {
    var acts: seq<Act> :| Run(Init, acts) == Some(s);
    RunKeepsInv(Init, acts);
  }

  /** In every reachable state the two maps agree and a lookup by address is a scan by address. */
  lemma MapsAgree(s: State, a: Addr, r: Ref)
    requires Reachable(s)
    ensures Consistent(s.reg) && s.reg.ids.Values == s.reg.addrs.Values
    ensures FindByAddr(s.reg, a) == Some(r) <==>
              exists id :: id in s.reg.ids && s.reg.ids[id] == r && s.reg.ctx[s.reg.ids[id]].addr == a
  {
    ReachableInv(s);
    Bijection(s.reg);
    FindByAddrIsScan(s.reg, a, r);
  }

  /** The issued ids fall into three kinds; while the main thread sleeps, into two: live and announced. */
  lemma IssuedIdsPartition(s: State, id: Id)
    requires Reachable(s)
    ensures 0 < id < s.reg.counter <==>
              id in s.reg.ids || id in Pending(s.main) || id in Announced(s.announced)
    ensures !(id in s.reg.ids && id in Pending(s.main))
    ensures !(id in s.reg.ids && id in Announced(s.announced))
    ensures !(id in Pending(s.main) && id in Announced(s.announced))
    ensures s.main.Asleep? ==> Pending(s.main) == {}
  {
    ReachableInv(s);
  }

  /** A departure is final and announced once: after any further run the id is not registered, not due
      again, and stands in the announcements at the one place where it stood. */
  lemma LeaveIsFinal(s: State, k: nat, acts: seq<Act>)
    requires Reachable(s) && k < |s.announced|
    requires Run(s, acts).Some? && Run(s, acts).value.reg.counter <= ID_SPACE
    ensures var s', id := Run(s, acts).value, s.announced[k].id;
            && id !in s'.reg.ids && id !in Pending(s'.main)
            && forall i :: 0 <= i < |s'.announced| ==> (s'.announced[i].id == id <==> i == k)
    ensures s.announced[k].id !in s.announced[k].audience
  {
    ReachableInv(s);
    RunKeepsInv(s, acts);
    RunGrows(s, acts);
    var s' := Run(s, acts).value;
    assert s'.announced[k] == s.announced[k];
    assert s'.announced[k].id in Announced(s'.announced);
  }

  /** What one `Tick` returns has no duplicates. */
  lemma TickReturnsDistinctIds(s: State)
    requires Reachable(s) && s.main.Announce?
    ensures Distinct(s.main.expired)
    ensures s.main.next == 0 ==> forall i :: 0 <= i < |s.main.expired| ==>
              s.main.expired[i] !in s.reg.ids && s.main.expired[i] !in Announced(s.announced)
  {
    ReachableInv(s);
    if s.main.next == 0 {
      forall i | 0 <= i < |s.main.expired|
        ensures s.main.expired[i] in Pending(s.main)
      {
      }
    }
  }

  // ------------------------------------------------------------------ when a client was last heard from

  lemma {:induction false} RunSnoc(s: State, acts: seq<Act>, a: Act)
    ensures Run(s, acts + [a]) ==
            if Run(s, acts).None? || !Enabled(Run(s, acts).value, a) then None
            else Some(Next(Run(s, acts).value, a))
    decreases |acts|
  {
    hide Enabled, Next;
    if acts == [] {
      assert ([] + [a])[1..] == [] && ([] + [a])[0] == a;
    } else {
      assert (acts + [a])[1..] == acts[1..] + [a];
      if Enabled(s, acts[0]) { RunSnoc(Next(s, acts[0]), acts[1..], a); }
    }
  }

  /** A run that the counter survives, but for its last act. */
  lemma Front(acts: seq<Act>) returns (s: State, a: Act)
    requires acts != [] && Run(Init, acts).Some? && Run(Init, acts).value.reg.counter <= ID_SPACE
    ensures a == acts[|acts|-1] && Run(Init, acts[..|acts|-1]) == Some(s) && s.reg.counter <= ID_SPACE
    ensures Enabled(s, a) && Run(Init, acts).value == Next(s, a) && Reachable(s) && Inv(s)
  {
    hide Enabled, Next, Inv;
    var front := acts[..|acts|-1];
    a := acts[|acts|-1];
    assert acts == front + [a];
    RunSnoc(Init, front, a);
    s := Run(Init, front).value;
    StepGrows(s, a);
    assert Reachable(s);
    ReachableInv(s);
  }

  /** The act is a sign of life of this client: a datagram of its own, or a HELLO that finds or makes its
      context. */
  predicate Hears(s: State, a: Act, r: Ref) {
    match a
    case DoTouch(x, _, _) => x == r
    case DoRegister(addr, _, x) =>
      (if SockAddrKey(addr) in s.reg.addrs then s.reg.addrs[SockAddrKey(addr)] else x) == r
    case _ => false
  }

  function TimeOf(a: Act): int {
    if a.DoTouch? || a.DoRegister? then a.now else 0
  }

  /** The time of the last sign of life. */
  function LastHeard(acts: seq<Act>, r: Ref): Option<int> {
    if acts == [] then None
    else
      var front, a := acts[..|acts|-1], acts[|acts|-1];
      if Run(Init, front).Some? && Hears(Run(Init, front).value, a, r) then Some(TimeOf(a)) else LastHeard(front, r)
  }

  /** The act at `i` is a sign of life. */
  predicate HeardAt(acts: seq<Act>, i: nat, r: Ref) {
    i < |acts| && Run(Init, acts[..i]).Some? && Hears(Run(Init, acts[..i]).value, acts[i], r)
  }

  /** Some act has this time, and none after it is a sign of life. */
  lemma {:induction false} LastHeardIsLast(acts: seq<Act>, r: Ref) returns (i: nat)
    requires LastHeard(acts, r).Some?
    ensures HeardAt(acts, i, r) && LastHeard(acts, r) == Some(TimeOf(acts[i]))
    ensures forall j: nat :: i < j ==> !HeardAt(acts, j, r)
    decreases |acts|
  {
    hide Hears, Run;
    var n := |acts| - 1;
    var front := acts[..n];
    if Run(Init, front).Some? && Hears(Run(Init, front).value, acts[n], r) {
      i := n;
    } else {
      i := LastHeardIsLast(front, r);
      assert front[..i] == acts[..i];
      forall j: nat | i < j
        ensures !HeardAt(acts, j, r)
      {
        if j < n {
          assert front[..j] == acts[..j];
          assert HeardAt(acts, j, r) <==> HeardAt(front, j, r);
        }
      }
    }
  }

  lemma StepHears(s: State, a: Act, r: Ref)
    requires Enabled(s, a) && Consistent(s.reg) && r in Next(s, a).reg.ctx
    ensures Hears(s, a, r) ==> Next(s, a).reg.ctx[r].lastAliveMs == TimeOf(a)
    ensures !Hears(s, a, r) ==> r in s.reg.ctx && Next(s, a).reg.ctx[r].lastAliveMs == s.reg.ctx[r].lastAliveMs
  {
    hide SockAddrKey;
    if a.DoRegister? { KeyHasContext(s.reg, SockAddrKey(a.addr)); }
  }

  /** In every reachable state the time kept in a context is that of the last sign of life. */
  lemma {:induction false} AliveIsLastHeard(acts: seq<Act>, r: Ref)
    requires Run(Init, acts).Some? && Run(Init, acts).value.reg.counter <= ID_SPACE
    requires r in Run(Init, acts).value.reg.ctx
    ensures LastHeard(acts, r) == Some(Run(Init, acts).value.reg.ctx[r].lastAliveMs)
    decreases |acts|
  {
    hide Next, Enabled, Hears, MainInv;
    if acts != [] {
      var s, a := Front(acts);
      StepHears(s, a, r);
      if !Hears(s, a, r) { AliveIsLastHeard(acts[..|acts|-1], r); }
    }
  }

  /** The time read by the last tick. */
  function TickTime(acts: seq<Act>): Option<int> {
    if acts == [] then None
    else if acts[|acts|-1].StartTick? then Some(acts[|acts|-1].now)
    else TickTime(acts[..|acts|-1])
  }

  lemma StepNow(s: State, a: Act)
    requires Enabled(s, a) && Next(s, a).main.Scan?
    ensures if a.StartTick? then Next(s, a).main.now == a.now else s.main.Scan? && Next(s, a).main.now == s.main.now
  {
    hide SockAddrKey;
  }

  lemma {:induction false} NowIsTickTime(acts: seq<Act>)
    requires Run(Init, acts).Some? && Run(Init, acts).value.reg.counter <= ID_SPACE
    requires Run(Init, acts).value.main.Scan?
    ensures TickTime(acts) == Some(Run(Init, acts).value.main.now)
    decreases |acts|
  {
    hide Next, Enabled, Inv;
    if acts != [] {
      var s, a := Front(acts);
      StepNow(s, a);
      if !a.StartTick? { NowIsTickTime(acts[..|acts|-1]); }
    }
  }

  // ------------------------------------------------------------------ who is evicted

  function Expired(m: Main): seq<Id> {
    if m.Asleep? then [] else m.expired
  }

  /** The `k`th act scans this client, whose last sign of life is then more than ten seconds old. */
  ghost predicate SilentAt(acts: seq<Act>, k: nat, id: Id) {
    && k < |acts| && acts[k] == ScanOne(id) && Run(Init, acts[..k]).Some?
    && var s := Run(Init, acts[..k]).value;
       && s.main.Scan? && id in s.reg.ids
       && LastHeard(acts[..k], s.reg.ids[id]).Some? && TickTime(acts[..k]).Some?
       && TickTime(acts[..k]).value - LastHeard(acts[..k], s.reg.ids[id]).value > 10_000
  }

  /** A step adds to the expired ids or the announcements only what it scanned or had expired before. */
  lemma NewlyExpired(s: State, a: Act, id: Id)
    requires Enabled(s, a) && MainInv(s)
    requires id in Expired(Next(s, a).main) || id in Announced(Next(s, a).announced)
    ensures || id in Expired(s.main) || id in Announced(s.announced)
            || (a == ScanOne(id) && TimedOut(s.reg, id, s.main.now))
  {
    hide SockAddrKey, TimedOut;
    if a.AnnounceOne? { AnnouncedSnoc(s.announced, Departure(s.main.expired[s.main.next], s.reg.ids.Keys)); }
  }

  lemma {:induction false} ExpiredWasSilent(acts: seq<Act>, id: Id) returns (k: nat)
    requires Run(Init, acts).Some? && Run(Init, acts).value.reg.counter <= ID_SPACE
    requires var s := Run(Init, acts).value; id in Expired(s.main) || id in Announced(s.announced)
    ensures SilentAt(acts, k, id)
    decreases |acts|
  {
    hide Next, Enabled, LastHeard, TickTime, Consistent;
    if acts == [] {
      assert false;
    } else {
      var n := |acts| - 1;
      var front := acts[..n];
      var s, a := Front(acts);
      NewlyExpired(s, a, id);
      if id in Expired(s.main) || id in Announced(s.announced) {
        k := ExpiredWasSilent(front, id);
        assert front[..k] == acts[..k] && acts[k] == front[k];
      } else {
        ScanIsOn(s, id);
        AliveIsLastHeard(front, s.reg.ids[id]);
        NowIsTickTime(front);
        k := n;
      }
    }
  }

  lemma ScanIsOn(s: State, id: Id)
    requires Enabled(s, ScanOne(id))
    ensures s.main.Scan?
  {
  }

  /** Only silence evicts: whoever was registered and no longer is had its last sign of life more than ten
      seconds before the time of a scan that came by. */
  lemma EvictedWasSilent(acts: seq<Act>, id: Id) returns (k: nat)
    requires Run(Init, acts).Some? && Run(Init, acts).value.reg.counter <= ID_SPACE
    requires var g := Run(Init, acts).value.reg; 0 < id < g.counter && id !in g.ids
    ensures SilentAt(acts, k, id)
  {
    hide Run, SilentAt;
    var s := Run(Init, acts).value;
    assert Reachable(s);
    ReachableInv(s);
    assert id in Pending(s.main) || id in Announced(s.announced);
    k := ExpiredWasSilent(acts, id);
  }

  /** With a clock that does not run backwards: no sign of life at all in those ten seconds. */
  lemma SilentForTenSeconds(acts: seq<Act>, k: nat, id: Id)
    requires SilentAt(acts, k, id)
    requires forall i: nat, j: nat ::
               i < j < k && Clocked(acts[i]) && Clocked(acts[j]) ==> TimeOf(acts[i]) <= TimeOf(acts[j])
    ensures var s := Run(Init, acts[..k]).value;
            TickTime(acts[..k]).Some? &&
            forall i: nat :: i < k && HeardAt(acts, i, s.reg.ids[id]) ==>
              TickTime(acts[..k]).value - TimeOf(acts[i]) > 10_000
  {
    hide Run, LastHeard;
    var s := Run(Init, acts[..k]).value;
    var r := s.reg.ids[id];
    var last := LastHeardIsLast(acts[..k], r);
    assert acts[..k][last] == acts[last];
    forall i: nat | i < k && HeardAt(acts, i, r)
      ensures TickTime(acts[..k]).value - TimeOf(acts[i]) > 10_000
    {
      assert acts[..k][..i] == acts[..i];
      assert HeardAt(acts[..k], i, r);
    }
  }

  predicate Clocked(a: Act) {
    a.DoTouch? || a.DoRegister?
  }

  /** And silence at the scan decides: the id is then put on the list exactly when the last sign of life
      of its client is more than ten seconds old, whatever the client does afterwards. */
  lemma ScanDecides(acts: seq<Act>, id: Id)
    requires Run(Init, acts).Some? && Run(Init, acts).value.reg.counter <= ID_SPACE
    requires Enabled(Run(Init, acts).value, ScanOne(id))
    ensures var s := Run(Init, acts).value;
            && id in s.reg.ids && LastHeard(acts, s.reg.ids[id]).Some? && TickTime(acts).Some?
            && (id in Next(s, ScanOne(id)).main.expired <==>
                  TickTime(acts).value - LastHeard(acts, s.reg.ids[id]).value > 10_000)
  {
    hide Run, LastHeard, TickTime;
    NowIsTickTime(acts);
    var s := Run(Init, acts).value;
    assert Reachable(s);
    ReachableInv(s);
    AliveIsLastHeard(acts, s.reg.ids[id]);
  }

  /** The client has been scanned since the tick began. */
  ghost predicate ScannedSince(acts: seq<Act>, id: Id) {
    exists k: nat :: k < |acts| && acts[k] == ScanOne(id) && forall j :: k < j < |acts| ==> !acts[j].StartTick?
  }

  lemma ScannedOn(acts: seq<Act>, a: Act, id: Id)
    requires ScannedSince(acts, id) && !a.StartTick?
    ensures ScannedSince(acts + [a], id)
  {
    var k: nat :| k < |acts| && acts[k] == ScanOne(id) && forall j :: k < j < |acts| ==> !acts[j].StartTick?;
    assert (acts + [a])[k] == ScanOne(id);
  }

  lemma ScannedNow(acts: seq<Act>, id: Id)
    ensures ScannedSince(acts + [ScanOne(id)], id)
  {
    assert (acts + [ScanOne(id)])[|acts|] == ScanOne(id);
  }

  lemma ScanTodo(s: State, a: Act, id: Id)
    requires Enabled(s, a) && Next(s, a).main.Scan? && id in Next(s, a).reg.ids && id !in Next(s, a).main.todo
    ensures !a.StartTick? && s.main.Scan? && id in s.reg.ids && (a == ScanOne(id) || id !in s.main.todo)
  {
    hide SockAddrKey;
  }

  /** The scan misses nobody: while it is on, every registered client is still to be scanned or has been
      scanned since the tick began. So when it ends, with nothing left to do, all have been. */
  lemma {:induction false} ScanMissesNobody(acts: seq<Act>, id: Id)
    requires Run(Init, acts).Some? && Run(Init, acts).value.reg.counter <= ID_SPACE
    requires var s := Run(Init, acts).value; s.main.Scan? && id in s.reg.ids
    ensures id in Run(Init, acts).value.main.todo || ScannedSince(acts, id)
    decreases |acts|
  {
    hide Next, Enabled, Inv, ScannedSince;
    if acts != [] && id !in Run(Init, acts).value.main.todo {
      var front := acts[..|acts|-1];
      var s, a := Front(acts);
      assert acts == front + [a];
      ScanTodo(s, a, id);
      if a == ScanOne(id) {
        ScannedNow(front, id);
      } else {
        ScanMissesNobody(front, id);
        ScannedOn(front, a, id);
      }
    }
  }

  // ------------------------------------------------------------------ who is told

  /** The `k`th act makes the `i`th announcement, to exactly the clients registered then. */
  ghost predicate ToldAt(acts: seq<Act>, k: nat, i: nat, d: Departure) {
    && k < |acts| && acts[k] == AnnounceOne && Run(Init, acts[..k]).Some?
    && var s := Run(Init, acts[..k]).value;
       |s.announced| == i && forall id :: id in d.audience <==> id in s.reg.ids
  }

  lemma StepTells(s: State, a: Act, i: nat)
    requires Enabled(s, a) && i < |Next(s, a).announced|
    ensures if i < |s.announced| then Next(s, a).announced[i] == s.announced[i]
            else a == AnnounceOne && i == |s.announced| && s.main.Announce? && s.main.next < |s.main.expired|
                 && Next(s, a).announced[i].id == s.main.expired[s.main.next]
                 && forall id :: id in Next(s, a).announced[i].audience <==> id in s.reg.ids
  {
    hide SockAddrKey;
  }

  /** Every departure was announced to all clients registered at that moment, and to nobody else. */
  lemma {:induction false} AudienceIsLive(acts: seq<Act>, i: nat) returns (k: nat)
    requires Run(Init, acts).Some? && Run(Init, acts).value.reg.counter <= ID_SPACE
    requires i < |Run(Init, acts).value.announced|
    ensures ToldAt(acts, k, i, Run(Init, acts).value.announced[i])
    decreases |acts|
  {
    hide Next, Enabled, Inv;
    if acts == [] {
      assert false;
    } else {
      var n := |acts| - 1;
      var front := acts[..n];
      var s, a := Front(acts);
      StepTells(s, a, i);
      if i < |s.announced| {
        k := AudienceIsLive(front, i);
        assert front[..k] == acts[..k] && acts[k] == front[k];
      } else {
        k := n;
      }
    }
  }

  // ------------------------------------------------------------------ heard too late

  /** A client heard from between the scan and the removal is removed all the same. */
  lemma HeardAfterScanIsEvicted(addr: Addr) returns (acts: seq<Act>)
    ensures Run(Init, acts).Some?
    ensures var s := Run(Init, acts).value;
            && s.main == Evict([1], 1) && 1 !in s.reg.ids && 0 in s.reg.ctx
            && s.reg.ctx[0] == Context(1, addr, 7, 20_001, [])
  {
    hide Run, SockAddrKey;
    var s1 := Next(Init, DoRegister(addr, 0, 0));
    var s2 := Next(s1, StartTick(20_000));
    var s3 := Next(s2, ScanOne(1));
    assert s3.main.expired == [1];
    var s4 := Next(s3, DoTouch(0, 7, 20_001));
    var s5 := Next(s4, ScanDone);
    RunNil(Init);
    RunSnoc(Init, [], DoRegister(addr, 0, 0));
    acts := [] + [DoRegister(addr, 0, 0)];
    RunSnoc(Init, acts, StartTick(20_000));
    acts := acts + [StartTick(20_000)];
    RunSnoc(Init, acts, ScanOne(1));
    acts := acts + [ScanOne(1)];
    RunSnoc(Init, acts, DoTouch(0, 7, 20_001));
    acts := acts + [DoTouch(0, 7, 20_001)];
    RunSnoc(Init, acts, ScanDone);
    acts := acts + [ScanDone];
    RunSnoc(Init, acts, EvictOne);
    acts := acts + [EvictOne];
  }

  lemma RunNil(s: State)
    ensures Run(s, []) == Some(s)
  {
  }
}
