/** The UDP service and its client contexts as objects, each method proved against the registry on
    values, and the datagram entry point of the game session. */
module UdpService {
  import opened Bytes
  import opened Options
  import opened Registry
  import opened UdpPacket

  class UdpClientContext {
    const sessionId: Id
    const addr: Addr
    var lastSeq: nat
    var lastAliveMs: int
    var userId: seq<Byte>

    constructor (id: Id, a: Addr, now: int)
      ensures Value() == Context(id, a, 0, now, [])
    {
      sessionId, addr, lastSeq, lastAliveMs, userId := id, a, 0, now, [];
    }

    ghost function Value(): Context
      reads this
    {
      Context(sessionId, addr, lastSeq, lastAliveMs, userId)
    }
  }

  class UdpService {
    var idMap: map<Id, UdpClientContext>
    var addrMap: map<Key, UdpClientContext>
    var counter: nat
    ghost var known: set<UdpClientContext>  // every context ever handed out

    ghost function View(): Reg<UdpClientContext>
      reads this, known
    {
      Reg(idMap, addrMap, map c | c in known :: c.Value(), counter)
    }

    ghost predicate Valid()
      reads this, known
    {
      Consistent(View())
    }

    constructor ()
      ensures Valid() && View() == Empty<UdpClientContext>()
    {
      idMap, addrMap, counter, known := map[], map[], 1, {};
    }

    /** As long as the counter has not wrapped, the new id is larger than that of every client. */
    method GenerateSessionId() returns (id: Id)
      requires Valid()
      modifies this`counter
      ensures Valid() && id == NextId(old(View())) && counter == old(counter) + 1
      ensures old(counter) < 0x1_0000_0000_0000_0000 ==> id !in idMap && forall live :: live in idMap ==> live < id
    {
      id := counter % ID_SPACE;
      counter := counter + 1;
    }

    method RegisterClient(a: Addr, now: int) returns (c: UdpClientContext)
      requires Valid()
      modifies this, known
      ensures c in known && old(known) <= known && fresh(known - old(known))
      ensures old(counter) < ID_SPACE ==> Valid()
      ensures (View(), c) == Register(old(View()), a, now, c)
      ensures c.lastAliveMs == now
      ensures c in old(known) ==> c.lastSeq == old(c.lastSeq) && c.userId == old(c.userId)
      ensures c !in old(known) ==> fresh(c) && c.addr == a && c.lastSeq == 0 && c.userId == []
    {
      ghost var g := View();
      var key := SockAddrKey(a);
      hide SockAddrKey, Consistent, Register;
      KeyHasContext(g, key);
      if key in addrMap {
        c := addrMap[key];
        c.lastAliveMs := now;
        assert View().ctx == g.ctx[c := g.ctx[c].(lastAliveMs := now)];
        RegisterKnown(g, a, now, c);
        RefreshKeeps(g, c, now);
      } else {
        c := NewClient(a, now);
      }
    }

    /** `RegisterClient` for an unknown address. */
    method NewClient(a: Addr, now: int) returns (c: UdpClientContext)
      requires Valid() && SockAddrKey(a) !in addrMap
      modifies this
      ensures c in known && known == old(known) + {c} && fresh(c)
      ensures c.addr == a && c.lastSeq == 0 && c.lastAliveMs == now && c.userId == []
      ensures old(counter) < ID_SPACE ==> Valid()
      ensures (View(), c) == Register(old(View()), a, now, c)
    {
      hide SockAddrKey, Consistent, Register, NextId;
      ghost var g := View();
      var id := GenerateSessionId();
      c := new UdpClientContext(id, a, now);
      idMap := idMap[id := c];
      addrMap := addrMap[SockAddrKey(a) := c];
      known := known + {c};
      assert View().ctx == g.ctx[c := Context(id, a, 0, now, [])];
      RegisterNew(g, a, now, c);
      if g.counter < ID_SPACE { AddKeeps(g, a, now, c); }
    }

    method RemoveClient(id: Id)
      requires Valid()
      modifies this`idMap, this`addrMap
      ensures Valid() && View() == Remove(old(View()), id)
    {
      hide SockAddrKey;
      RemoveKeeps(View(), id);
      if id in idMap {
        var key := SockAddrKey(idMap[id].addr);
        addrMap := addrMap - {key};
        idMap := idMap - {id};
      }
    }

    method FindByAddr(a: Addr) returns (c: Option<UdpClientContext>)
      requires Valid()
      ensures c == Registry.FindByAddr(View(), a)
    {
      var key := SockAddrKey(a);
      if key !in addrMap { return None; }
      var ctx := addrMap[key];
      if ctx.addr.ip == a.ip && ctx.addr.port == a.port { return Some(ctx); }
      return None;
    }

    /** The context found carries this id, and is the one that a lookup by its address finds. */
    method FindById(id: Id) returns (c: Option<UdpClientContext>)
      requires Valid()
      ensures c.None? <==> forall ctx :: ctx in idMap.Values ==> ctx.sessionId != id
      ensures c.Some? ==> c.value.sessionId == id && Registry.FindByAddr(View(), c.value.addr) == c
      ensures c == Registry.FindById(View(), id)
    {
      hide SockAddrKey;
      if id in idMap { return Some(idMap[id]); }
      return None;
    }

    /** Sends to every client but one, and to each once; `Broadcast` excludes nobody. The order of the
        hash map is not specified. */
    method BroadcastExcept(exclude: Option<Id>) returns (ids: seq<Id>, dests: seq<Addr>)
      ensures forall i, j :: 0 <= i < j < |ids| ==> ids[i] != ids[j]
      ensures forall id :: id in ids <==> id in idMap && exclude != Some(id)
      ensures |dests| == |ids| && forall i :: 0 <= i < |ids| ==> ids[i] in idMap && dests[i] == idMap[ids[i]].addr
    {
      ids, dests := [], [];
      var todo := idMap.Keys;
      while todo != {}
        invariant todo <= idMap.Keys
        invariant forall i, j :: 0 <= i < j < |ids| ==> ids[i] != ids[j]
        invariant forall id :: id in ids <==> id in idMap && id !in todo && exclude != Some(id)
        invariant |dests| == |ids| && forall i :: 0 <= i < |ids| ==> ids[i] in idMap && dests[i] == idMap[ids[i]].addr
        decreases |todo|
      {
        var id :| id in todo;
        todo := todo - {id};
        if exclude != Some(id) { ids, dests := ids + [id], dests + [idMap[id].addr]; }
      }
    }

    /** The first phase of `Tick`, under the read lock. */
    method CollectExpired(now: int) returns (expired: seq<Id>)
      ensures forall i, j :: 0 <= i < j < |expired| ==> expired[i] != expired[j]
      ensures forall id :: id in expired <==> id in idMap && now - idMap[id].lastAliveMs > 10_000
    {
      expired := [];
      var todo := idMap.Keys;
      while todo != {}
        invariant todo <= idMap.Keys
        invariant forall i, j :: 0 <= i < j < |expired| ==> expired[i] != expired[j]
        invariant forall id :: id in expired <==>
                    id in idMap && id !in todo && now - idMap[id].lastAliveMs > SESSION_TIMEOUT_MS
        decreases |todo|
      {
        var id :| id in todo;
        todo := todo - {id};
        if now - idMap[id].lastAliveMs > SESSION_TIMEOUT_MS { expired := expired + [id]; }
      }
    }

    /** The ids that were silent too long, each once, and nobody else, are removed and returned. */
    method Tick(now: int) returns (expired: seq<Id>)
      requires Valid()
      modifies this`idMap, this`addrMap
      ensures Valid() && View() == RemoveAll(old(View()), expired)
      ensures forall i, j :: 0 <= i < j < |expired| ==> expired[i] != expired[j]
      ensures forall id :: id in expired <==>
                id in old(idMap) && now - old(idMap)[id].lastAliveMs > 10_000
    {
      hide Remove, Consistent, SockAddrKey;
      expired := CollectExpired(now);
      for i := 0 to |expired|
        invariant Valid() && View() == RemoveAll(old(View()), expired[..i])
      {
        RemoveClient(expired[i]);
        assert expired[..i + 1][..i] == expired[..i];
      }
      assert expired[..|expired|] == expired;
    }
  }

  // ------------------------------------------------------------------ datagrams

  datatype Header = Header(sessionId: nat, sequence: nat, id: nat)

  /** A datagram under a session is dropped when its sender is unknown, or when its sequence number is
      not zero and not larger than the last one handled. */
  ghost predicate Drops<R>(g: Reg<R>, a: Addr, h: Header) {
    h.sessionId != 0 &&
    (Registry.FindByAddr(g, a).None? ||
     (h.sequence != 0 && h.sequence <= g.ctx[Registry.FindByAddr(g, a).value].lastSeq))
  }

  /** What a datagram that is not dropped does, and the context it is handled for. */
  function Accept<R>(g: Reg<R>, a: Addr, h: Header, now: int, r: R): (Reg<R>, R) {
    var found := Registry.FindByAddr(g, a);
    if h.sessionId == 0 || found.None? then Register(g, a, now, r)
    else (Touch(g, found.value, h.sequence, now), found.value)
  }

  /** The sender is registered, and the sequence number is zero or larger than its last one. */
  predicate Known(service: UdpService, sender: Addr, h: Header)
    reads service, service.idMap.Values
  {
    exists id :: id in service.idMap && service.idMap[id].addr == sender
                 && (h.sequence == 0 || service.idMap[id].lastSeq < h.sequence)
  }

  class UdpGameSession {
    /** `service` is what locking the weak pointer gives. The result is the context handed to the packet
        handler. */
    method OnRecvPacket(service: UdpService?, sender: Addr, h: Header, len: nat, now: int)
      returns (ctx: UdpClientContext?)
      requires service != null ==> service.Valid()
      modifies service, if service == null then {} else service.known
      ensures ctx != null <==>
                && service != null && len >= 14
                && (h.sessionId == 0 || old(Known(service, sender, h)))
      ensures ctx != null ==> ctx.lastAliveMs == now
      ensures ctx != null && h.sessionId != 0 ==>
                && ctx.addr == sender && ctx.lastSeq == h.sequence && ctx in old(service.idMap).Values
                && ctx.userId == old(if ctx in service.known then ctx.userId else [])
      ensures service != null ==>
                && (old(service.counter) < ID_SPACE ==> service.Valid())
                && old(service.known) <= service.known && fresh(service.known - old(service.known))
                && (ctx == null ==> service.View() == old(service.View()))
                && (ctx != null ==> (service.View(), ctx) == Accept(old(service.View()), sender, h, now, ctx))
      ensures service != null && len >= 14 ==> (ctx == null <==> Drops(old(service.View()), sender, h))
    {
      if service == null { return null; }
      if len < UDP_HEADER_SIZE { return null; }
      hide SockAddrKey, Consistent, Register;
      if h.sessionId == 0 {
        ctx := service.RegisterClient(sender, now);
      } else {
        var found := service.FindByAddr(sender);
        if found.None? { return null; }
        if h.sequence != 0 && h.sequence <= found.value.lastSeq { return null; }
        ghost var g := service.View();
        ctx := found.value;
        ctx.lastSeq := h.sequence;
        ctx.lastAliveMs := now;
        assert service.View().ctx == g.ctx[ctx := g.ctx[ctx].(lastSeq := h.sequence, lastAliveMs := now)];
        TouchKeeps(g, ctx, h.sequence, now);
      }
    }
  }
}
