/** The sequence filter of the UDP session over whole traces. */
module SequenceFilter {
  import opened Options
  import opened Registry
  import opened UdpService

  const SEQ_SPACE: nat := 0x1_0000_0000

  /** The test on one sequence number, given the last one let through. */
  predicate Passes(last: nat, x: nat) {
    x == 0 || last < x
  }

  /** The numbers let through, in order. */
  function Filter(last: nat, xs: seq<nat>): seq<nat>
    decreases |xs|
  {
    if xs == [] then []
    else if Passes(last, xs[0]) then [xs[0]] + Filter(xs[0], xs[1..])
    else Filter(last, xs[1..])
  }

  /** The last number let through. */
  function LastOf(last: nat, xs: seq<nat>): nat
    decreases |xs|
  {
    if xs == [] then last else LastOf(if Passes(last, xs[0]) then xs[0] else last, xs[1..])
  }

  /** Whether the number at `i` is let through. */
  predicate PassesAt(last: nat, xs: seq<nat>, i: nat)
    requires i < |xs|
  {
    Passes(LastOf(last, xs[..i]), xs[i])
  }

  lemma {:induction false} LastSnoc(last: nat, xs: seq<nat>, x: nat)
    ensures LastOf(last, xs + [x]) == if Passes(LastOf(last, xs), x) then x else LastOf(last, xs)
    decreases |xs|
  {
    if xs == [] {
      assert (xs + [x])[1..] == [];
    } else {
      assert (xs + [x])[1..] == xs[1..] + [x];
      LastSnoc(if Passes(last, xs[0]) then xs[0] else last, xs[1..], x);
    }
  }

  ghost predicate NoZeroFrom(xs: seq<nat>, j: nat) {
    forall k :: j <= k < |xs| ==> xs[k] != 0
  }

  /** The remembered number is the largest seen since the last zero: it bounds them all, and it is one
      of them, or the starting value when no zero came. */
  lemma {:induction false} LastIsSegmentMaximum(last: nat, xs: seq<nat>)
    ensures forall j :: 0 <= j < |xs| && NoZeroFrom(xs, j + 1) ==> xs[j] <= LastOf(last, xs)
    ensures NoZeroFrom(xs, 0) ==> last <= LastOf(last, xs)
    ensures (NoZeroFrom(xs, 0) && LastOf(last, xs) == last)
            || exists j :: 0 <= j < |xs| && NoZeroFrom(xs, j + 1) && xs[j] == LastOf(last, xs)
    decreases |xs|
  {
    if xs != [] {
      var n := |xs| - 1;
      var front := xs[..n];
      assert xs == front + [xs[n]];
      LastSnoc(last, front, xs[n]);
      LastIsSegmentMaximum(last, front);
      assert NoZeroFrom(xs, n + 1);
      if xs[n] != 0 {
        forall j | 0 <= j < n && NoZeroFrom(xs, j + 1)
          ensures xs[j] <= LastOf(last, xs)
        {
          assert NoZeroFrom(front, j + 1);
        }
        if NoZeroFrom(xs, 0) { assert NoZeroFrom(front, 0); }
        if !Passes(LastOf(last, front), xs[n]) && !(NoZeroFrom(front, 0) && LastOf(last, front) == last) {
          var j :| 0 <= j < |front| && NoZeroFrom(front, j + 1) && front[j] == LastOf(last, front);
          assert NoZeroFrom(xs, j + 1) && xs[j] == LastOf(last, xs);
        }
      }
    }
  }

  /** A number is let through exactly when it is zero or larger than everything since the last zero. */
  lemma PassesIffRecord(last: nat, xs: seq<nat>, i: nat)
    requires i < |xs|
    ensures PassesAt(last, xs, i) <==>
              || xs[i] == 0
              || ((forall j :: 0 <= j < i && NoZeroFrom(xs[..i], j + 1) ==> xs[j] < xs[i])
                  && (NoZeroFrom(xs[..i], 0) ==> last < xs[i]))
  {
    var before := xs[..i];
    LastIsSegmentMaximum(last, before);
    if xs[i] != 0 && !PassesAt(last, xs, i) && !(NoZeroFrom(before, 0) && LastOf(last, before) == last) {
      var j :| 0 <= j < |before| && NoZeroFrom(before, j + 1) && before[j] == LastOf(last, before);
      assert xs[j] >= xs[i];
    }
  }

  /** The filter keeps exactly the numbers that pass, in order. */
  lemma {:induction false} FilterSnoc(last: nat, xs: seq<nat>, x: nat)
    ensures Filter(last, xs + [x]) == Filter(last, xs) + if PassesAt(last, xs + [x], |xs|) then [x] else []
    decreases |xs|
  {
    assert (xs + [x])[..|xs|] == xs;
    if xs == [] {
      assert (xs + [x])[1..] == [];
    } else {
      var last' := if Passes(last, xs[0]) then xs[0] else last;
      assert (xs + [x])[1..] == xs[1..] + [x];
      FilterSnoc(last', xs[1..], x);
      assert (xs[1..] + [x])[..|xs| - 1] == xs[1..];
      if Passes(last, xs[0]) {
        assert [xs[0]] + (Filter(last', xs[1..]) + [x]) == [xs[0]] + Filter(last', xs[1..]) + [x];
      }
    }
  }

  /** What passes is strictly increasing except where a zero restarts it. */
  lemma {:induction false} FilterIncreases(last: nat, xs: seq<nat>)
    ensures var ys := Filter(last, xs);
            && (ys != [] ==> Passes(last, ys[0]))
            && forall i :: 0 <= i && i + 1 < |ys| ==> Passes(ys[i], ys[i + 1])
    decreases |xs|
  {
    if xs != [] {
      if Passes(last, xs[0]) {
        FilterIncreases(xs[0], xs[1..]);
        var ys, rest := Filter(last, xs), Filter(xs[0], xs[1..]);
        forall i | 0 <= i && i + 1 < |ys|
          ensures Passes(ys[i], ys[i + 1])
        {
          if i > 0 { assert ys[i] == rest[i - 1] && ys[i + 1] == rest[i]; }
        }
      } else {
        FilterIncreases(last, xs[1..]);
      }
    }
  }

  /** Filtering again changes nothing. */
  lemma {:induction false} FilterIdempotent(last: nat, xs: seq<nat>)
    ensures Filter(last, Filter(last, xs)) == Filter(last, xs)
    decreases |xs|
  {
    if xs != [] {
      if Passes(last, xs[0]) {
        FilterIdempotent(xs[0], xs[1..]);
        assert ([xs[0]] + Filter(xs[0], xs[1..]))[1..] == Filter(xs[0], xs[1..]);
      } else {
        FilterIdempotent(last, xs[1..]);
      }
    }
  }

  /** Replaying non-zero numbers already covered lets nothing more through. */
  lemma {:induction false} ReplayPassesNothing(last: nat, xs: seq<nat>, replay: seq<nat>)
    requires forall i :: 0 <= i < |replay| ==> 0 < replay[i] <= LastOf(last, xs)
    ensures Filter(last, xs + replay) == Filter(last, xs) && LastOf(last, xs + replay) == LastOf(last, xs)
    decreases |xs|, |replay|
  {
    if xs == [] {
      assert xs + replay == replay;
      if replay != [] {
        ReplayPassesNothing(last, [], replay[1..]);
        assert [] + replay[1..] == replay[1..];
      }
    } else {
      assert (xs + replay)[1..] == xs[1..] + replay;
      ReplayPassesNothing(if Passes(last, xs[0]) then xs[0] else last, xs[1..], replay);
    }
  }

  /** `n` numbers counted from `start` in 32 bits, wrapping round. */
  function Counted(start: nat, n: nat): (xs: seq<nat>)
    ensures |xs| == n && forall i :: 0 <= i < n ==> xs[i] == (start + i) % SEQ_SPACE
  {
    seq(n, i requires 0 <= i < n => (start + i) % SEQ_SPACE)
  }

  lemma WrapShift(start: nat, i: nat)
    requires start < SEQ_SPACE
    ensures (start + 1 + i) % SEQ_SPACE == ((start + 1) % SEQ_SPACE + i) % SEQ_SPACE
  {
    if start + 1 == SEQ_SPACE { assert (SEQ_SPACE + i) % SEQ_SPACE == i % SEQ_SPACE; }
  }

  lemma CountedTail(start: nat, n: nat)
    requires start < SEQ_SPACE && n > 0
    ensures Counted(start, n) == [start] + Counted((start + 1) % SEQ_SPACE, n - 1)
  {
    var xs, rest := Counted(start, n), Counted((start + 1) % SEQ_SPACE, n - 1);
    forall i | 0 <= i < n - 1
      ensures xs[i + 1] == rest[i]
    {
      WrapShift(start, i);
    }
  }

  /** A client that numbers its datagrams by such a count and whose datagrams arrive in order is never
      filtered. */
  lemma {:induction false} CountingClientPasses(start: nat, n: nat, last: nat)
    requires start < SEQ_SPACE && Passes(last, start)
    ensures Filter(last, Counted(start, n)) == Counted(start, n)
    decreases n
  {
    hide Counted;
    if n > 0 {
      CountedTail(start, n);
      CountingClientPasses((start + 1) % SEQ_SPACE, n - 1, start);
      assert Counted(start, n)[1..] == Counted((start + 1) % SEQ_SPACE, n - 1);
    }
  }

  // ------------------------------------------------------------------ one client among many

  /** `OnRecvPacket` on values: the registry afterwards and the context handled, if any. */
  ghost function Receive(g: Reg<nat>, a: Addr, h: Header, now: int, r: nat): (Reg<nat>, Option<nat>) {
    if Drops(g, a, h) then (g, None)
    else
      var (g', c) := Accept(g, a, h, now, r);
      (g', Some(c))
  }

  /** What happens to the registry in time: a datagram arrives, or `Tick` removes a client. */
  datatype Event =
    | Datagram(sender: Addr, header: Header, now: int, ref: nat)
    | Departure(id: Id)

  ghost function After(g: Reg<nat>, e: Event): Reg<nat> {
    match e
    case Datagram(a, h, now, r) => Receive(g, a, h, now, r).0
    case Departure(id) => Remove(g, id)
  }

  /** The datagram is handled for `r` under a session. */
  ghost predicate HandledFor(g: Reg<nat>, e: Event, r: nat) {
    e.Datagram? && e.header.sessionId != 0 && Receive(g, e.sender, e.header, e.now, e.ref).1 == Some(r)
  }

  /** The sequence numbers of a trace that were handled for one client under its own session. */
  ghost function Handled(g: Reg<nat>, trace: seq<Event>, r: nat): seq<nat>
    decreases |trace|
  {
    if trace == [] then []
    else
      (if HandledFor(g, trace[0], r) then [trace[0].header.sequence] else [])
      + Handled(After(g, trace[0]), trace[1..], r)
  }

  /** The sequence numbers a client sent under a session before it was removed. */
  function Sent(trace: seq<Event>, a: Addr, id: Id): seq<nat> {
    if trace == [] || trace[0] == Departure(id) then []
    else
      (if trace[0].Datagram? && trace[0].sender == a && trace[0].header.sessionId != 0
       then [trace[0].header.sequence] else [])
      + Sent(trace[1..], a, id)
  }

  /** New contexts get references of their own. */
  ghost predicate FreshRefs(g: Reg<nat>, trace: seq<Event>)
    decreases |trace|
  {
    trace == [] ||
    ((trace[0].Datagram? ==> trace[0].ref !in g.ctx) && FreshRefs(After(g, trace[0]), trace[1..]))
  }

  /** One datagram: what it leaves of a registered client. */
  lemma ReceiveStep(g: Reg<nat>, d: Event, a: Addr, r: nat)
    requires d.Datagram? && Consistent(g) && g.counter < ID_SPACE && d.ref !in g.ctx
    requires Registry.FindByAddr(g, a) == Some(r)
    ensures var (g', c) := Receive(g, d.sender, d.header, d.now, d.ref);
            && Consistent(g') && g'.counter <= g.counter + 1
            && Registry.FindByAddr(g', a) == Some(r) && g'.ctx[r].sessionId == g.ctx[r].sessionId
            && if d.sender == a && d.header.sessionId != 0
               then && (c == Some(r) <==> Passes(g.ctx[r].lastSeq, d.header.sequence))
                    && g'.ctx[r].lastSeq == (if c == Some(r) then d.header.sequence else g.ctx[r].lastSeq)
               else && (d.header.sessionId != 0 ==> c != Some(r))
                    && g'.ctx[r].lastSeq == g.ctx[r].lastSeq
  {
    hide SockAddrKey;
    if d.header.sessionId == 0 {
      RegisterKeeps(g, d.sender, d.now, d.ref);
    } else if Registry.FindByAddr(g, d.sender).Some? {
      TouchKeeps(g, Registry.FindByAddr(g, d.sender).value, d.header.sequence, d.now);
    }
  }

  /** The departure of another client leaves a registered one findable and its context as it was. */
  lemma DepartureStep(g: Reg<nat>, id: Id, a: Addr, r: nat)
    requires Consistent(g) && Registry.FindByAddr(g, a) == Some(r) && id != g.ctx[r].sessionId
    ensures var g' := Remove(g, id);
            Consistent(g') && g'.counter == g.counter && Registry.FindByAddr(g', a) == Some(r) && g'.ctx == g.ctx
  {
    hide SockAddrKey;
    RemoveKeeps(g, id);
    if id in g.ids { SameKeySameId(g, id, g.ctx[r].sessionId); }
  }

  ghost predicate Unregistered(g: Reg<nat>, r: nat) {
    r in g.ctx && forall id :: id in g.ids ==> g.ids[id] != r
  }

  lemma GoneStep(g: Reg<nat>, e: Event, r: nat)
    requires Consistent(g) && g.counter < ID_SPACE && Unregistered(g, r) && (e.Datagram? ==> e.ref !in g.ctx)
    ensures Consistent(After(g, e)) && After(g, e).counter <= g.counter + 1
    ensures Unregistered(After(g, e), r) && !HandledFor(g, e, r)
  {
    hide SockAddrKey;
    if e.Departure? {
      RemoveKeeps(g, e.id);
    } else if e.header.sessionId == 0 {
      RegisterKeeps(g, e.sender, e.now, e.ref);
    } else if Registry.FindByAddr(g, e.sender).Some? {
      var found := Registry.FindByAddr(g, e.sender).value;
      assert g.ids[g.ctx[found].sessionId] == found;
      TouchKeeps(g, found, e.header.sequence, e.now);
    }
  }

  /** Once removed, a context is never handled again; a new HELLO makes a new one. */
  lemma {:induction false} GoneUnheard(g: Reg<nat>, trace: seq<Event>, r: nat)
    requires Consistent(g) && g.counter + |trace| <= ID_SPACE && FreshRefs(g, trace) && Unregistered(g, r)
    ensures Handled(g, trace, r) == []
    decreases |trace|
  {
    hide Consistent, Unregistered, After, HandledFor;
    if trace != [] {
      GoneStep(g, trace[0], r);
      GoneUnheard(After(g, trace[0]), trace[1..], r);
    }
  }

  lemma RemovedIsUnregistered(g: Reg<nat>, a: Addr, r: nat)
    requires Consistent(g) && Registry.FindByAddr(g, a) == Some(r)
    ensures var g' := Remove(g, g.ctx[r].sessionId);
            Consistent(g') && g'.counter == g.counter && Unregistered(g', r)
  {
    hide SockAddrKey;
    RemoveKeeps(g, g.ctx[r].sessionId);
  }

  /** However the datagrams and departures of all clients are interleaved, those handled for a registered
      client are the filter of what that client sent before it was removed. */
  lemma {:induction false} FilterPerClient(g: Reg<nat>, trace: seq<Event>, a: Addr, r: nat)
    requires Consistent(g) && g.counter + |trace| <= ID_SPACE && FreshRefs(g, trace)
    requires Registry.FindByAddr(g, a) == Some(r)
    ensures r in g.ctx && Handled(g, trace, r) == Filter(g.ctx[r].lastSeq, Sent(trace, a, g.ctx[r].sessionId))
    decreases |trace|
  {
    hide Consistent, Receive, Remove;
    if trace != [] {
      var e, g', id := trace[0], After(g, trace[0]), g.ctx[r].sessionId;
      var rest := Sent(trace[1..], a, id);
      if e == Departure(id) {
        RemovedIsUnregistered(g, a, r);
        GoneUnheard(g', trace[1..], r);
      } else {
        if e.Departure? { DepartureStep(g, e.id, a, r); } else { ReceiveStep(g, e, a, r); }
        FilterPerClient(g', trace[1..], a, r);
        if e.Datagram? && e.sender == a && e.header.sessionId != 0 {
          assert ([e.header.sequence] + rest)[1..] == rest;
        } else {
          assert [] + rest == rest;
        }
      }
    }
  }

  lemma HelloMakes(g: Reg<nat>, hello: Event)
    requires Consistent(g) && g.counter < ID_SPACE
    requires hello.Datagram? && hello.header.sessionId == 0 && SockAddrKey(hello.sender) !in g.addrs
    requires hello.ref !in g.ctx
    ensures var g' := After(g, hello);
            && Consistent(g') && g'.counter == g.counter + 1 && Registry.FindByAddr(g', hello.sender) == Some(hello.ref)
            && hello.ref in g'.ctx && g'.ctx[hello.ref].lastSeq == 0 && g'.ctx[hello.ref].sessionId == g.counter
  {
    hide SockAddrKey, Consistent;
    RegisterNew(g, hello.sender, hello.now, hello.ref);
    AddKeeps(g, hello.sender, hello.now, hello.ref);
  }

  /** A client that says hello to a server that knows neither it nor its key starts with a clean filter:
      of what it sends afterwards, whatever the others do, the records among it are handled. */
  lemma NewClientFilter(g: Reg<nat>, hello: Event, trace: seq<Event>)
    requires Consistent(g) && g.counter + 1 + |trace| <= ID_SPACE
    requires hello.Datagram? && hello.header.sessionId == 0 && SockAddrKey(hello.sender) !in g.addrs
    requires FreshRefs(g, [hello] + trace)
    ensures Handled(After(g, hello), trace, hello.ref) == Filter(0, Sent(trace, hello.sender, g.counter))
  {
    assert ([hello] + trace)[1..] == trace;
    HelloMakes(g, hello);
    hide SockAddrKey, Handled, Filter, Sent, Receive, Consistent, Registry.FindByAddr;
    FilterPerClient(After(g, hello), trace, hello.sender, hello.ref);
  }

  /** A datagram handled for one client changes no other client's context. */
  lemma OthersUntouched(g: Reg<nat>, d: Event, other: nat)
    requires d.Datagram? && other in g.ctx && d.ref !in g.ctx
    ensures var (g', c) := Receive(g, d.sender, d.header, d.now, d.ref);
            other in g'.ctx && (c != Some(other) ==> g'.ctx[other] == g.ctx[other])
  {
    hide SockAddrKey;
  }
}
