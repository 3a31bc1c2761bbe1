/** The lobby handlers of the UDP server on a client's context: what they store, and what they send to whom. */
module LobbyHandlers {
  import opened Buffers
  import opened Bytes
  import Codec
  import opened Options
  import opened Packets
  import Registry
  import opened UdpPacket
  import opened UdpService

  /** A call of `WSASendTo`. */
  datatype Sent = Sent(dest: Registry.Addr, packet: Built)

  /** `UdpService::SendTo`: to the address of the client with this id, if there is one. */
  method SendTo(service: UdpService, id: Registry.Id, packet: Built) returns (sent: seq<Sent>)
    requires service.Valid()
    ensures sent == if id in service.idMap then [Sent(service.idMap[id].addr, packet)] else []
  {
    var ctx := service.FindById(id);
    if ctx.None? { return []; }
    return [Sent(ctx.value.addr, packet)];
  }

  /** `Handle_C_UDP_HELLO`; `info` is what Redis answers for the user. A malformed payload does nothing.
      Otherwise the user id is stored and nothing else, and the client is sent its session id and, with an
      answer, its player info. */
  method HandleHello(service: UdpService, ctx: UdpClientContext, payload: seq<Byte>, beyond: nat -> Byte,
                     info: Option<PlayerInfo>)
    returns (sent: seq<Sent>)
    requires service.Valid() && ctx in service.known && |payload| < UINT32_SPACE
    modifies ctx`userId
    ensures service.Valid()
    ensures Hello(payload).None? ==> sent == [] && ctx.userId == old(ctx.userId)
    ensures Hello(payload).Some? ==> ctx.userId == Hello(payload).value
    ensures Hello(payload).Some? ==> service.View() == Registry.SetUser(old(service.View()), ctx, Hello(payload).value)
    ensures Hello(payload).Some? && ctx.sessionId in service.idMap ==>
              && |sent| == (if info.Some? then 2 else 1)
              && (forall s :: s in sent ==> s.dest == service.idMap[ctx.sessionId].addr)
              && sent[0].packet == Built(Layout(ctx.sessionId, S_UDP_HANDSHAKE_ACK, [Codec.U64(ctx.sessionId)]), [])
              && (info.Some? ==>
                    sent[1].packet ==
                    Cut(Layout(ctx.sessionId, S_PLAYER_INFO, InfoFields(ctx.sessionId, info.value))))
    ensures Hello(payload).Some? && ctx.sessionId !in service.idMap ==> sent == []
  {
    hide Hello, Registry.Consistent, Registry.SetUser, Layout, Cut, InfoFields, Codec.DecodeAll, InfoInRange;
    var userId := ParseHello(payload, beyond);
    if userId.None? { return []; }
    StoreUser(service, ctx, userId.value);
    sent := Answer(service, ctx, info);
  }

  method StoreUser(service: UdpService, ctx: UdpClientContext, userId: seq<Byte>)
    requires service.Valid() && ctx in service.known
    modifies ctx`userId
    ensures service.Valid() && ctx.userId == userId
    ensures service.View() == Registry.SetUser(old(service.View()), ctx, userId)
  {
    hide Registry.Consistent;
    ghost var g := service.View();
    ctx.userId := userId;
    assert service.View().ctx == g.ctx[ctx := g.ctx[ctx].(userId := userId)];
    Registry.SetUserKeeps(g, ctx, userId);
  }

  method Answer(service: UdpService, ctx: UdpClientContext, info: Option<PlayerInfo>) returns (sent: seq<Sent>)
    requires service.Valid()
    ensures ctx.sessionId in service.idMap ==>
              && |sent| == (if info.Some? then 2 else 1)
              && (forall s :: s in sent ==> s.dest == service.idMap[ctx.sessionId].addr)
              && sent[0].packet == Built(Layout(ctx.sessionId, S_UDP_HANDSHAKE_ACK, [Codec.U64(ctx.sessionId)]), [])
              && (info.Some? ==>
                    sent[1].packet ==
                    Cut(Layout(ctx.sessionId, S_PLAYER_INFO, InfoFields(ctx.sessionId, info.value))))
    ensures ctx.sessionId !in service.idMap ==> sent == []
  {
    hide Registry.Consistent, Layout, Cut, InfoFields, Codec.DecodeAll, InfoInRange;
    var ack := MakeHandshakeAck(ctx.sessionId);
    sent := SendTo(service, ctx.sessionId, ack);
    if info.Some? {
      var packet := MakePlayerInfo(ctx.sessionId, info.value);
      var more := SendTo(service, ctx.sessionId, packet);
      sent := sent + more;
    }
  }

  /** `Handle_C_LOBBY_MOVE`: the movement goes to every other client, once, and not back to the mover. */
  method HandleLobbyMove(service: UdpService, ctx: UdpClientContext, payload: seq<Byte>, beyond: nat -> Byte)
    returns (packet: Option<Built>, ids: seq<Registry.Id>, dests: seq<Registry.Addr>)
    requires |payload| < UINT32_SPACE
    ensures packet.None? <==> |payload| < 17
    ensures packet.None? ==> ids == [] && dests == []
    ensures packet.Some? ==> packet.value == Cut(Relayed(ctx.sessionId, payload[..17], ctx.userId))
    ensures packet.Some? ==> forall id :: id in ids <==> id in service.idMap && id != ctx.sessionId
    ensures forall i, j :: 0 <= i < j < |ids| ==> ids[i] != ids[j]
    ensures |dests| == |ids| && forall i :: 0 <= i < |ids| ==>
              ids[i] in service.idMap && dests[i] == service.idMap[ids[i]].addr
  {
    ids, dests := [], [];
    packet := RelayMove(ctx.sessionId, ctx.userId, payload, beyond);
    if packet.None? { return; }
    ids, dests := service.BroadcastExcept(Some(ctx.sessionId));
  }

  /** `OnClientLeave`: everybody still registered is told who left. */
  method OnClientLeave(service: UdpService, left: Registry.Id)
    returns (packet: Built, ids: seq<Registry.Id>, dests: seq<Registry.Addr>)
    ensures packet == Built(Layout(0, S_LOBBY_PLAYER_LEAVE, [Codec.U64(left)]), [])
    ensures forall id :: id in ids <==> id in service.idMap
    ensures forall i, j :: 0 <= i < j < |ids| ==> ids[i] != ids[j]
    ensures |dests| == |ids| && forall i :: 0 <= i < |ids| ==>
              ids[i] in service.idMap && dests[i] == service.idMap[ids[i]].addr
  {
    packet := MakeLobbyPlayerLeave(left);
    ids, dests := service.BroadcastExcept(None);
  }
}
