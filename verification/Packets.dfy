/** The packets of the lobby: the builders `Make_S_*` and the parsers of the client's payloads. */
module Packets {
  import opened Bytes
  import opened Codec
  import opened Buffers
  import opened Options
  import opened UdpPacket

  /** `UdpPacketHeader`: session id, sequence, packet type. */
  function Header(sessionId: nat, id: nat): seq<Field> {
    [U64(sessionId), U32(0), U16(id)]
  }

  /** A datagram as the header and the fields of its payload. */
  function Layout(sessionId: nat, id: nat, payload: seq<Field>): seq<Byte> {
    EncodeAll(Header(sessionId, id)) + EncodeAll(payload)
  }

  function SizeOf(f: Field): nat {
    Width(KindOf(f)) + if f.Text? then |f.text| else 0
  }

  lemma Encode1(a: Field)
    ensures EncodeAll([a]) == EncodeField(a)
  {
    hide EncodeField;
    EncodeAllSnoc([], a);
    assert [] + [a] == [a];
    assert EncodeAll([]) + EncodeField(a) == EncodeField(a);
  }

  lemma Encode2(a: Field, b: Field)
    ensures EncodeAll([a, b]) == EncodeField(a) + EncodeField(b)
  {
    hide EncodeField, EncodeAll;
    assert [a, b] == [a] + [b];
    EncodeAllAppend([a], [b]);
    Encode1(a);
    Encode1(b);
  }

  lemma Encode4(a: Field, b: Field, c: Field, d: Field)
    ensures EncodeAll([a, b, c, d]) == (EncodeField(a) + EncodeField(b)) + (EncodeField(c) + EncodeField(d))
  {
    hide EncodeField, EncodeAll;
    assert [a, b, c, d] == [a, b] + [c, d];
    EncodeAllAppend([a, b], [c, d]);
    Encode2(a, b);
    Encode2(c, d);
  }

  lemma Size1(a: Field)
    ensures |EncodeAll([a])| == SizeOf(a)
  {
    hide EncodeField, EncodeAll;
    Encode1(a);
    FieldSize(a);
  }

  lemma Size2(a: Field, b: Field)
    ensures |EncodeAll([a, b])| == SizeOf(a) + SizeOf(b)
  {
    hide EncodeField, EncodeAll;
    Encode2(a, b);
    FieldSize(a);
    FieldSize(b);
  }

  lemma Size4(a: Field, b: Field, c: Field, d: Field)
    ensures |EncodeAll([a, b, c, d])| == SizeOf(a) + SizeOf(b) + SizeOf(c) + SizeOf(d)
  {
    hide EncodeField, EncodeAll;
    Encode4(a, b, c, d);
    FieldSize(a);
    FieldSize(b);
    FieldSize(c);
    FieldSize(d);
  }

  lemma HeaderSize(sessionId: nat, id: nat)
    ensures |EncodeAll(Header(sessionId, id))| == UDP_HEADER_SIZE
  {
    hide EncodeField, EncodeAll;
    assert Header(sessionId, id) == [U64(sessionId), U32(0)] + [U16(id)];
    EncodeAllAppend([U64(sessionId), U32(0)], [U16(id)]);
    Size2(U64(sessionId), U32(0));
    Size1(U16(id));
  }

  lemma FieldSize(f: Field)
    ensures |EncodeField(f)| == SizeOf(f)
  {
  }

  lemma AppendAfter(a: seq<Byte>, b: seq<Byte>, n: nat)
    requires n <= |a|
    ensures (a + b)[n..] == a[n..] + b
  {
  }

  // ------------------------------------------------------------------ a packet under construction

  /** A finished packet: what stands in the buffer, and what streaming wrote behind the buffer's end. */
  datatype Built = Built(inside: seq<Byte>, overrun: seq<Byte>)

  /** A packet cut at the end of a buffer of `UDP_MAX_PACKET` bytes. */
  function Cut(packet: seq<Byte>): (b: Built)
    ensures b.inside + b.overrun == packet
    ensures |b.inside| <= UDP_MAX_PACKET && (b.overrun == [] <==> |packet| <= UDP_MAX_PACKET)
  {
    if |packet| <= UDP_MAX_PACKET then Built(packet, [])
    else
      assert packet == packet[..UDP_MAX_PACKET] + packet[UDP_MAX_PACKET..];
      Built(packet[..UDP_MAX_PACKET], packet[UDP_MAX_PACKET..])
  }

  /** A `BufferWriter` after `Reserve<UdpPacketHeader>`, with the fields streamed since. */
  class PacketWriter {
    const bw: BufferWriter
    ghost var payload: seq<Field>

    ghost predicate Valid()
      reads this, bw, bw.buffer
    {
      && bw.Valid() && bw.size == UDP_MAX_PACKET && UDP_HEADER_SIZE <= bw.pos
      && bw.Written()[UDP_HEADER_SIZE..] == EncodeAll(payload)
    }

    constructor ()
      ensures Valid() && payload == [] && fresh(bw) && fresh(bw.buffer) && bw.pos == UDP_HEADER_SIZE
    {
      var buffer := new Byte[UDP_MAX_PACKET](_ => 0);
      var w := new BufferWriter(buffer, UDP_MAX_PACKET);
      var at := w.Reserve(UDP_HEADER_SIZE);
      bw, payload := w, [];
    }

    method Put(f: Field)
      requires Valid() && !f.Text?
      modifies this`payload, bw, bw.buffer
      ensures Valid() && payload == old(payload) + [f]
    {
      hide EncodeField, EncodeAll;
      EncodeAllSnoc(payload, f);
      AppendAfter(bw.Written(), EncodeField(f), UDP_HEADER_SIZE);
      bw.Put(f);
      payload := payload + [f];
    }

    method PutText(t: seq<Byte>)
      requires Valid()
      modifies this`payload, bw, bw.buffer
      ensures Valid() && payload == old(payload) + [Text(Clip(t))]
    {
      hide EncodeField, EncodeAll, Clip;
      EncodeAllSnoc(payload, Text(Clip(t)));
      AppendAfter(bw.Written(), EncodeField(Text(Clip(t))), UDP_HEADER_SIZE);
      bw.PutText(t);
      payload := payload + [Text(Clip(t))];
    }

    /** Fills in the header last and takes the packet. */
    method Finish(sessionId: nat, id: nat) returns (packet: Built)
      requires Valid()
      modifies bw.buffer
      ensures packet == Cut(Layout(sessionId, id, payload))
    {
      hide EncodeField, EncodeAll;
      HeaderSize(sessionId, id);
      bw.Fill(0, EncodeAll(Header(sessionId, id)));
      packet := Built(bw.buffer[..bw.Used()], bw.overrun);
      assert bw.Written() == Layout(sessionId, id, payload);
      CutIs(packet);
    }
  }

  lemma CutIs(b: Built)
    requires |b.inside| <= UDP_MAX_PACKET && (b.overrun != [] ==> |b.inside| == UDP_MAX_PACKET)
    ensures Cut(b.inside + b.overrun) == b
  {
    assert b.overrun == [] ==> b.inside + b.overrun == b.inside;
  }

  // ------------------------------------------------------------------ the builders

  datatype Pose = Pose(x: nat, y: nat, z: nat, rot: nat)

  datatype PlayerInfo = PlayerInfo(
    hp: int, balance: int, charType: int, pose: Pose, weapon: int, ammoType: int, ammo: int,
    nickname: seq<Byte>, scene: seq<Byte>)

  function MoveFields(mover: nat, p: Pose, anim: nat, userId: seq<Byte>): seq<Field> {
    [U64(mover), F32(p.x), F32(p.y), F32(p.z)] + [F32(p.rot), U8(anim)] + [Text(Clip(userId))]
  }

  function InfoFields(sessionId: nat, i: PlayerInfo): seq<Field> {
    [U64(sessionId), I32(i.hp), I64(i.balance), I32(i.charType)]
    + [F32(i.pose.x), F32(i.pose.y), F32(i.pose.z), F32(i.pose.rot)]
    + [I32(i.weapon), I32(i.ammoType), I32(i.ammo), Text(Clip(i.nickname))] + [Text(Clip(i.scene))]
  }

  function ResultFields(sessionId: nat, success: bool, weaponType: int, balance: int): seq<Field> {
    [U64(sessionId), U8(if success then 1 else 0), I32(weaponType), I64(balance)]
  }

  method MakeHandshakeAck(sessionId: nat) returns (packet: Built)
    ensures packet == Built(Layout(sessionId, S_UDP_HANDSHAKE_ACK, [U64(sessionId)]), [])
    ensures sessionId < Span(8) ==>
              DecodeAll(HEADER_KINDS + [KU64], packet.inside) ==
              Decoded([U64(sessionId), U32(0), U16(350)] + [U64(sessionId)], [])
  {
    hide Layout, EncodeAll, EncodeField, DecodeAll, PacketWriter.Valid;
    if sessionId < Span(8) { AckReadsBack(sessionId); }
    var w := new PacketWriter();
    w.Put(U64(sessionId));
    assert w.payload == [U64(sessionId)];
    LayoutSize(sessionId, S_UDP_HANDSHAKE_ACK, [U64(sessionId)]);
    Size1(U64(sessionId));
    packet := w.Finish(sessionId, S_UDP_HANDSHAKE_ACK);
  }

  method MakeLobbyPlayerLeave(left: nat) returns (packet: Built)
    ensures packet == Built(Layout(0, S_LOBBY_PLAYER_LEAVE, [U64(left)]), [])
    ensures left < Span(8) ==>
              DecodeAll(HEADER_KINDS + [KU64], packet.inside) ==
              Decoded([U64(0), U32(0), U16(353)] + [U64(left)], [])
  {
    hide Layout, EncodeAll, EncodeField, DecodeAll, PacketWriter.Valid;
    if left < Span(8) { LeaveReadsBack(left); }
    var w := new PacketWriter();
    w.Put(U64(left));
    assert w.payload == [U64(left)];
    LayoutSize(0, S_LOBBY_PLAYER_LEAVE, [U64(left)]);
    Size1(U64(left));
    packet := w.Finish(0, S_LOBBY_PLAYER_LEAVE);
  }

  /** Nothing checks the length of the user id: the packet stays inside its buffer exactly when the id,
      cut to 16 bits of length, has at most 1173 bytes; each byte more goes behind the buffer. */
  method MakeLobbyPlayerMove(mover: nat, userId: seq<Byte>, p: Pose, anim: nat) returns (packet: Built)
    ensures packet == Cut(Layout(mover, S_LOBBY_PLAYER_MOVE, MoveFields(mover, p, anim, userId)))
    ensures |packet.overrun| == if |Clip(userId)| <= 1173 then 0 else |Clip(userId)| - 1173
    ensures mover < Span(8) && PoseInRange(p) && anim < Span(1) ==>
              DecodeAll(HEADER_KINDS + MOVE_KINDS, packet.inside + packet.overrun) ==
              Decoded([U64(mover), U32(0), U16(352)] + [U64(mover), F32(p.x), F32(p.y), F32(p.z), F32(p.rot), U8(anim),
                       Text(Clip(userId))], [])
  {
    hide Layout, EncodeAll, EncodeField, DecodeAll, PacketWriter.Valid, Clip;
    if mover < Span(8) && PoseInRange(p) && anim < Span(1) { MoveReadsBack(mover, p, anim, userId); }
    var w := new PacketWriter();
    w.Put(U64(mover));
    w.Put(F32(p.x));
    w.Put(F32(p.y));
    w.Put(F32(p.z));
    w.Put(F32(p.rot));
    w.Put(U8(anim));
    w.PutText(userId);
    assert w.payload == MoveFields(mover, p, anim, userId);
    MoveSize(mover, p, anim, userId);
    packet := w.Finish(mover, S_LOBBY_PLAYER_MOVE);
  }

  /** The same for nickname and scene, which have 1144 bytes together. */
  method MakePlayerInfo(sessionId: nat, i: PlayerInfo) returns (packet: Built)
    ensures packet == Cut(Layout(sessionId, S_PLAYER_INFO, InfoFields(sessionId, i)))
    ensures |packet.overrun| ==
            if |Clip(i.nickname)| + |Clip(i.scene)| <= 1144 then 0 else |Clip(i.nickname)| + |Clip(i.scene)| - 1144
    ensures sessionId < Span(8) && InfoInRange(i) ==>
              DecodeAll(HEADER_KINDS + INFO_KINDS, packet.inside + packet.overrun) ==
              Decoded([U64(sessionId), U32(0), U16(354)]
                      + [U64(sessionId), I32(i.hp), I64(i.balance), I32(i.charType),
                         F32(i.pose.x), F32(i.pose.y), F32(i.pose.z), F32(i.pose.rot),
                         I32(i.weapon), I32(i.ammoType), I32(i.ammo), Text(Clip(i.nickname)), Text(Clip(i.scene))], [])
  {
    hide Layout, EncodeAll, EncodeField, DecodeAll, PacketWriter.Valid, Clip;
    if sessionId < Span(8) && InfoInRange(i) { InfoReadsBack(sessionId, i); }
    var w := new PacketWriter();
    w.Put(U64(sessionId));
    w.Put(I32(i.hp));
    w.Put(I64(i.balance));
    w.Put(I32(i.charType));
    PutPose(w, i.pose);
    PutBelongings(w, i);
    assert w.payload == InfoFields(sessionId, i);
    InfoSize(sessionId, i);
    packet := w.Finish(sessionId, S_PLAYER_INFO);
  }

  method PutPose(w: PacketWriter, p: Pose)
    requires w.Valid()
    modifies w`payload, w.bw, w.bw.buffer
    ensures w.Valid() && w.payload == old(w.payload) + [F32(p.x), F32(p.y), F32(p.z), F32(p.rot)]
  {
    hide EncodeAll, EncodeField, PacketWriter.Valid;
    w.Put(F32(p.x));
    w.Put(F32(p.y));
    w.Put(F32(p.z));
    w.Put(F32(p.rot));
  }

  method PutBelongings(w: PacketWriter, i: PlayerInfo)
    requires w.Valid()
    modifies w`payload, w.bw, w.bw.buffer
    ensures w.Valid()
    ensures w.payload == old(w.payload)
            + [I32(i.weapon), I32(i.ammoType), I32(i.ammo), Text(Clip(i.nickname))] + [Text(Clip(i.scene))]
  {
    hide EncodeAll, EncodeField, PacketWriter.Valid, Clip;
    w.Put(I32(i.weapon));
    w.Put(I32(i.ammoType));
    w.Put(I32(i.ammo));
    w.PutText(i.nickname);
    w.PutText(i.scene);
  }

  method MakeBuyWeaponResult(sessionId: nat, success: bool, weaponType: int, balance: int) returns (packet: Built)
    ensures packet.inside ==
            Layout(sessionId, S_PURCHASE_WEAPON_RESULT, ResultFields(sessionId, success, weaponType, balance))
    ensures packet.overrun == []
    ensures sessionId < Span(8) && FitsSigned(weaponType, 4) && FitsSigned(balance, 8) ==>
              DecodeAll(HEADER_KINDS + RESULT_KINDS, packet.inside) ==
              Decoded([U64(sessionId), U32(0), U16(355)]
                      + [U64(sessionId), U8(if success then 1 else 0), I32(weaponType), I64(balance)], [])
  {
    hide Layout, EncodeAll, EncodeField, DecodeAll, PacketWriter.Valid;
    if sessionId < Span(8) && FitsSigned(weaponType, 4) && FitsSigned(balance, 8) {
      ResultReadsBack(sessionId, success, weaponType, balance);
    }
    var w := new PacketWriter();
    w.Put(U64(sessionId));
    w.Put(U8(if success then 1 else 0));
    w.Put(I32(weaponType));
    w.Put(I64(balance));
    assert w.payload == ResultFields(sessionId, success, weaponType, balance);
    LayoutSize(sessionId, S_PURCHASE_WEAPON_RESULT, w.payload);
    Size4(U64(sessionId), U8(if success then 1 else 0), I32(weaponType), I64(balance));
    packet := w.Finish(sessionId, S_PURCHASE_WEAPON_RESULT);
  }

  // ------------------------------------------------------------------ what fits

  lemma LayoutSize(sessionId: nat, id: nat, payload: seq<Field>)
    ensures |Layout(sessionId, id, payload)| == UDP_HEADER_SIZE + |EncodeAll(payload)|
  {
    hide EncodeField, EncodeAll;
    HeaderSize(sessionId, id);
  }

  lemma MoveSize(mover: nat, p: Pose, anim: nat, userId: seq<Byte>)
    ensures |Layout(mover, S_LOBBY_PLAYER_MOVE, MoveFields(mover, p, anim, userId))| == 41 + |Clip(userId)|
  {
    hide EncodeField, EncodeAll, Clip;
    HeaderSize(mover, S_LOBBY_PLAYER_MOVE);
    EncodeAllAppend([U64(mover), F32(p.x), F32(p.y), F32(p.z)] + [F32(p.rot), U8(anim)], [Text(Clip(userId))]);
    EncodeAllAppend([U64(mover), F32(p.x), F32(p.y), F32(p.z)], [F32(p.rot), U8(anim)]);
    Size4(U64(mover), F32(p.x), F32(p.y), F32(p.z));
    Size2(F32(p.rot), U8(anim));
    Size1(Text(Clip(userId)));
  }

  lemma InfoSize(sessionId: nat, i: PlayerInfo)
    ensures |Layout(sessionId, S_PLAYER_INFO, InfoFields(sessionId, i))| == 70 + |Clip(i.nickname)| + |Clip(i.scene)|
  {
    hide EncodeField, EncodeAll, Clip;
    HeaderSize(sessionId, S_PLAYER_INFO);
    var a := [U64(sessionId), I32(i.hp), I64(i.balance), I32(i.charType)];
    var b := [F32(i.pose.x), F32(i.pose.y), F32(i.pose.z), F32(i.pose.rot)];
    var c := [I32(i.weapon), I32(i.ammoType), I32(i.ammo), Text(Clip(i.nickname))];
    EncodeAllAppend(a + b + c, [Text(Clip(i.scene))]);
    EncodeAllAppend(a + b, c);
    EncodeAllAppend(a, b);
    Size4(U64(sessionId), I32(i.hp), I64(i.balance), I32(i.charType));
    Size4(F32(i.pose.x), F32(i.pose.y), F32(i.pose.z), F32(i.pose.rot));
    Size4(I32(i.weapon), I32(i.ammoType), I32(i.ammo), Text(Clip(i.nickname)));
    Size1(Text(Clip(i.scene)));
  }

  /** A move packet fits its buffer exactly when the user id, cut to 16 bits of length, has at most 1173
      bytes. */
  lemma MoveFitsIff(mover: nat, p: Pose, anim: nat, userId: seq<Byte>)
    ensures |Layout(mover, S_LOBBY_PLAYER_MOVE, MoveFields(mover, p, anim, userId))| <= UDP_MAX_PACKET
            <==> |userId| % 0x10000 <= 1173
  {
    MoveSize(mover, p, anim, userId);
  }

  /** A player-info packet fits exactly when nickname and scene, cut likewise, have at most 1144 bytes
      together. */
  lemma InfoFitsIff(sessionId: nat, i: PlayerInfo)
    ensures |Layout(sessionId, S_PLAYER_INFO, InfoFields(sessionId, i))| <= UDP_MAX_PACKET
            <==> |i.nickname| % 0x10000 + |i.scene| % 0x10000 <= 1144
  {
    InfoSize(sessionId, i);
  }

  /** For the user ids that a HELLO of one datagram can set, the move packet stays inside its buffer
      exactly up to 1173 bytes; at worst it leaves it by 25. */
  lemma HelloThenMove(payload: seq<Byte>, mover: nat, p: Pose, anim: nat)
    requires |payload| <= UDP_MAX_PAYLOAD && Hello(payload).Some?
    ensures var userId := Hello(payload).value;
            var packet := Cut(Layout(mover, S_LOBBY_PLAYER_MOVE, MoveFields(mover, p, anim, userId)));
            && |userId| <= 1198 && (packet.overrun == [] <==> |userId| <= 1173) && |packet.overrun| <= 25
  {
    hide Layout, EncodeAll, EncodeField;
    HelloUnfolds(payload);
    MoveSize(mover, p, anim, Hello(payload).value);
  }

  /** Every user id of 1198 bytes fills a HELLO, which accepts it; the move packet then overruns. */
  lemma LongUserIdOverruns(userId: seq<Byte>, mover: nat, p: Pose, anim: nat)
    requires |userId| == 1198
    ensures |EncodeField(Text(userId))| == UDP_MAX_PAYLOAD && Hello(EncodeField(Text(userId))) == Some(userId)
    ensures |Layout(mover, S_LOBBY_PLAYER_MOVE, MoveFields(mover, p, anim, userId))| == UDP_MAX_PACKET + 25
  {
    hide Layout, EncodeAll;
    assert Span(2) == 0x10000 by { assert Span(1) == 0x100 * Span(0); }
    FieldSize(Text(userId));
    HelloRoundTrip(userId, []);
    assert EncodeField(Text(userId)) + [] == EncodeField(Text(userId));
    MoveSize(mover, p, anim, userId);
  }

  /** Whatever a builder made, a reader that knows the kinds gets every field back. */
  lemma PacketReadsBack(sessionId: nat, id: nat, payload: seq<Field>)
    requires sessionId < Span(8) && id < Span(2)
    requires forall i :: 0 <= i < |payload| ==> InRange(payload[i])
    ensures DecodeAll(Kinds(Header(sessionId, id) + payload), Layout(sessionId, id, payload))
            == Decoded(Header(sessionId, id) + payload, [])
  {
    hide EncodeField, EncodeAll, DecodeAll;
    var fs := Header(sessionId, id) + payload;
    EncodeAllAppend(Header(sessionId, id), payload);
    forall i | 0 <= i < |fs|
      ensures InRange(fs[i])
    {
      if i >= 3 { assert fs[i] == payload[i - 3]; }
    }
    DecodeEncode(fs, []);
    assert EncodeAll(fs) + [] == EncodeAll(fs);
  }

  // ------------------------------------------------------------------ what a client reads

  const HEADER_KINDS: seq<Kind> := [KU64, KU32, KU16]

  /** The client reads the header first: session id, sequence zero, packet type. */
  lemma ReadsBack(sessionId: nat, id: nat, payload: seq<Field>, kinds: seq<Kind>, fields: seq<Field>)
    requires sessionId < Span(8) && id < Span(2)
    requires forall i :: 0 <= i < |payload| ==> InRange(payload[i])
    requires |kinds| == |payload| && forall i :: 0 <= i < |kinds| ==> kinds[i] == KindOf(payload[i])
    requires fields == [U64(sessionId), U32(0), U16(id)] + payload
    ensures DecodeAll(HEADER_KINDS + kinds, Layout(sessionId, id, payload)) == Decoded(fields, [])
  {
    hide EncodeField, EncodeAll, DecodeAll, DecodeField, Layout;
    PacketReadsBack(sessionId, id, payload);
    var all := Header(sessionId, id) + payload;
    assert fields == all;
    forall i | 0 <= i < |all|
      ensures Kinds(all)[i] == (HEADER_KINDS + kinds)[i]
    {
      if i >= 3 { assert all[i] == payload[i - 3]; }
    }
    assert Kinds(all) == HEADER_KINDS + kinds;
  }

  lemma AckReadsBack(sessionId: nat)
    requires sessionId < Span(8)
    ensures DecodeAll(HEADER_KINDS + [KU64], Layout(sessionId, S_UDP_HANDSHAKE_ACK, [U64(sessionId)])) ==
            Decoded([U64(sessionId), U32(0), U16(350)] + [U64(sessionId)], [])
  {
    hide EncodeField, EncodeAll, DecodeAll, DecodeField, Layout;
    Spans();
    ReadsBack(sessionId, 350, [U64(sessionId)], [KU64], [U64(sessionId), U32(0), U16(350)] + [U64(sessionId)]);
  }

  lemma LeaveReadsBack(left: nat)
    requires left < Span(8)
    ensures DecodeAll(HEADER_KINDS + [KU64], Layout(0, S_LOBBY_PLAYER_LEAVE, [U64(left)])) ==
            Decoded([U64(0), U32(0), U16(353)] + [U64(left)], [])
  {
    hide EncodeField, EncodeAll, DecodeAll, DecodeField, Layout;
    Spans();
    ReadsBack(0, 353, [U64(left)], [KU64], [U64(0), U32(0), U16(353)] + [U64(left)]);
  }

  const MOVE_KINDS: seq<Kind> := [KU64, KF32, KF32, KF32] + [KF32, KU8] + [KText]

  predicate PoseInRange(p: Pose) {
    p.x < Span(4) && p.y < Span(4) && p.z < Span(4) && p.rot < Span(4)
  }

  lemma MoveReadsBack(mover: nat, p: Pose, anim: nat, userId: seq<Byte>)
    requires mover < Span(8) && PoseInRange(p) && anim < Span(1)
    ensures DecodeAll(HEADER_KINDS + MOVE_KINDS,
                      Layout(mover, S_LOBBY_PLAYER_MOVE, MoveFields(mover, p, anim, userId)))
            == Decoded([U64(mover), U32(0), U16(352)] + [U64(mover), F32(p.x), F32(p.y), F32(p.z), F32(p.rot), U8(anim),
                        Text(Clip(userId))], [])
  {
    hide EncodeField, EncodeAll, DecodeAll, DecodeField, Layout, Clip;
    Spans();
    var fs := [U64(mover), F32(p.x), F32(p.y), F32(p.z), F32(p.rot), U8(anim), Text(Clip(userId))];
    assert MoveFields(mover, p, anim, userId) == fs;
    ReadsBack(mover, 352, fs, MOVE_KINDS, [U64(mover), U32(0), U16(352)] + fs);
  }

  const RESULT_KINDS: seq<Kind> := [KU64, KU8, KI32, KI64]

  lemma ResultReadsBack(sessionId: nat, success: bool, weaponType: int, balance: int)
    requires sessionId < Span(8) && FitsSigned(weaponType, 4) && FitsSigned(balance, 8)
    ensures DecodeAll(HEADER_KINDS + RESULT_KINDS,
                      Layout(sessionId, S_PURCHASE_WEAPON_RESULT,
                             ResultFields(sessionId, success, weaponType, balance)))
            == Decoded([U64(sessionId), U32(0), U16(355)]
                       + [U64(sessionId), U8(if success then 1 else 0), I32(weaponType), I64(balance)], [])
  {
    hide EncodeField, EncodeAll, DecodeAll, DecodeField, Layout;
    Spans();
    var fs := [U64(sessionId), U8(if success then 1 else 0), I32(weaponType), I64(balance)];
    ReadsBack(sessionId, 355, fs, RESULT_KINDS, [U64(sessionId), U32(0), U16(355)] + fs);
  }

  const INFO_KINDS: seq<Kind> :=
    [KU64, KI32, KI64, KI32, KF32, KF32, KF32, KF32, KI32, KI32, KI32, KText, KText]

  predicate InfoInRange(i: PlayerInfo) {
    && FitsSigned(i.hp, 4) && FitsSigned(i.balance, 8) && FitsSigned(i.charType, 4) && PoseInRange(i.pose)
    && FitsSigned(i.weapon, 4) && FitsSigned(i.ammoType, 4) && FitsSigned(i.ammo, 4)
  }

  lemma InfoReadsBack(sessionId: nat, i: PlayerInfo)
    requires sessionId < Span(8) && InfoInRange(i)
    ensures DecodeAll(HEADER_KINDS + INFO_KINDS, Layout(sessionId, S_PLAYER_INFO, InfoFields(sessionId, i)))
            == Decoded([U64(sessionId), U32(0), U16(354)]
                       + [U64(sessionId), I32(i.hp), I64(i.balance), I32(i.charType),
                          F32(i.pose.x), F32(i.pose.y), F32(i.pose.z), F32(i.pose.rot),
                          I32(i.weapon), I32(i.ammoType), I32(i.ammo), Text(Clip(i.nickname)), Text(Clip(i.scene))], [])
  {
    hide EncodeField, EncodeAll, DecodeAll, DecodeField, Layout, Clip;
    Spans();
    var fs := [U64(sessionId), I32(i.hp), I64(i.balance), I32(i.charType),
               F32(i.pose.x), F32(i.pose.y), F32(i.pose.z), F32(i.pose.rot),
               I32(i.weapon), I32(i.ammoType), I32(i.ammo), Text(Clip(i.nickname)), Text(Clip(i.scene))];
    assert InfoFields(sessionId, i) == fs;
    ReadsBack(sessionId, 354, fs, INFO_KINDS, [U64(sessionId), U32(0), U16(354)] + fs);
  }

  // ------------------------------------------------------------------ the parsers

  /** `C_UDP_HELLO`: a length and that many bytes of user id; more bytes may follow. Whatever lies in
      memory `beyond` the payload makes no difference. */
  method ParseHello(payload: seq<Byte>, beyond: nat -> Byte) returns (userId: Option<seq<Byte>>)
    requires |payload| < UINT32_SPACE
    ensures userId == Hello(payload)
  {
    hide DecodeField, FromLe;
    if |payload| < 2 {
      HelloTooShort(payload);
      return None;
    }
    var br := new BufferReader(payload, beyond);
    var f := br.Get(KU16);
    var userIdLen := f.u16;
    HelloUnfolds(payload);
    if br.FreeSize() < userIdLen { return None; }
    return Some(payload[2..2 + userIdLen]);
  }

  lemma HelloTooShort(payload: seq<Byte>)
    requires |payload| < 2
    ensures Hello(payload) == None
  {
  }

  lemma HelloUnfolds(payload: seq<Byte>)
    ensures Hello(payload) ==
            if |payload| < 2 || |payload| - 2 < FromLe(payload[..2]) then None
            else Some(payload[2..2 + FromLe(payload[..2])])
  {
    hide FromLe;
  }

  function Hello(payload: seq<Byte>): Option<seq<Byte>> {
    match DecodeField(KText, payload)
    case TooShort => None
    case Decoded(fs, _) => if |fs| == 1 && fs[0].Text? then Some(fs[0].text) else None
  }

  datatype BuyRequest = BuyRequest(userId: seq<Byte>, weaponType: int)

  /** `C_PURCHASE_WEAPON`: a text and a 32-bit weapon type. An empty user id is accepted. */
  method ParseBuy(payload: seq<Byte>, beyond: nat -> Byte) returns (r: Option<BuyRequest>)
    requires |payload| < UINT32_SPACE
    ensures r == BuyOf(payload)
  {
    hide DecodeField, FromLe, DecodeAll, BuyOf;
    if |payload| < 6 {
      BuyTooShort(payload);
      return None;
    }
    var br := new BufferReader(payload, beyond);
    var f := br.Get(KU16);
    var userIdLen := f.u16;
    BuyUnfolds(payload);
    if br.FreeSize() < userIdLen + 4 { return None; }
    var userId := payload[2..2 + userIdLen];
    var afterUserId := payload[2 + userIdLen..];
    var weaponType := Unwrap(FromLe(afterUserId[..4]), 4);
    return Some(BuyRequest(userId, weaponType));
  }

  function BuyOf(payload: seq<Byte>): Option<BuyRequest> {
    match DecodeAll([KText, KI32], payload)
    case TooShort => None
    case Decoded(fs, _) =>
      if |fs| == 2 && fs[0].Text? && fs[1].I32? then Some(BuyRequest(fs[0].text, fs[1].i32)) else None
  }

  lemma BuyUnfolds(payload: seq<Byte>)
    requires |payload| >= 2
    ensures var n := FromLe(payload[..2]);
            BuyOf(payload) ==
            if |payload| - 2 < n + 4 then None
            else Some(BuyRequest(payload[2..2 + n], Unwrap(FromLe(payload[2 + n..][..4]), 4)))
  {
    var d := DecodeField(KText, payload);
    if d.Decoded? {
      assert [KText, KI32][1..] == [KI32];
      var e := DecodeField(KI32, d.rest);
      assert DecodeAll([KI32], d.rest) ==
             if e.TooShort? then TooShort else Decoded(e.fields + [], e.rest) by { assert [KI32][1..] == []; }
    }
  }

  lemma BuyTooShort(payload: seq<Byte>)
    requires |payload| < 6
    ensures BuyOf(payload) == None
  {
    if |payload| >= 2 { BuyUnfolds(payload); }
  }

  /** A request comes back from its encoding, and every request was read from its encoding. */
  lemma BuyRoundTrip(r: BuyRequest, junk: seq<Byte>)
    requires |r.userId| < Span(2) && FitsSigned(r.weaponType, 4)
    ensures BuyOf(EncodeAll([Text(r.userId), I32(r.weaponType)]) + junk) == Some(r)
  {
    hide EncodeField, EncodeAll, DecodeField, DecodeAll;
    var fs := [Text(r.userId), I32(r.weaponType)];
    DecodeEncode(fs, junk);
    assert Kinds(fs) == [KText, KI32];
  }

  lemma BuyReadsEncoding(payload: seq<Byte>)
    requires BuyOf(payload).Some?
    ensures var r := BuyOf(payload).value;
            EncodeAll([Text(r.userId), I32(r.weaponType)]) <= payload
  {
    EncodeDecode([KText, KI32], payload);
    var d := DecodeAll([KText, KI32], payload);
    assert d.fields == [Text(d.fields[0].text), I32(d.fields[1].i32)];
  }

  lemma HelloRoundTrip(userId: seq<Byte>, junk: seq<Byte>)
    requires |userId| < Span(2)
    ensures Hello(EncodeField(Text(userId)) + junk) == Some(userId)
  {
    TextComesBack(userId, junk);
  }

  /** `Handle_C_LOBBY_MOVE` up to the relayed packet: whatever the mover sent is passed on byte for byte,
      between its session id and the user id of its context; it stays inside the buffer as far as the
      user id allows. */
  method RelayMove(mover: nat, userId: seq<Byte>, payload: seq<Byte>, beyond: nat -> Byte)
    returns (packet: Option<Built>)
    requires |payload| < UINT32_SPACE
    ensures packet.None? <==> |payload| < 17
    ensures packet.Some? ==>
              && packet.value == Cut(Relayed(mover, payload[..17], userId))
              && |packet.value.overrun| == if |Clip(userId)| <= 1173 then 0 else |Clip(userId)| - 1173
  {
    if |payload| < 17 { return None; }
    hide EncodeField, EncodeAll, Layout, MoveFields, Relayed, Cut, Clip, FromLe;
    var p, anim := ReadMove(payload, beyond);
    var built := MakeLobbyPlayerMove(mover, userId, p, anim);
    RelayCopies(mover, userId, payload);
    return Some(built);
  }

  method ReadMove(payload: seq<Byte>, beyond: nat -> Byte) returns (p: Pose, anim: nat)
    requires 17 <= |payload| < UINT32_SPACE
    ensures p == Pose(FromLe(payload[..4]), FromLe(payload[4..8]), FromLe(payload[8..12]), FromLe(payload[12..16]))
    ensures anim == FromLe(payload[16..17])
  {
    hide DecodeField, FromLe;
    var br := new BufferReader(payload, beyond);
    var x := br.Get(KF32);
    var y := br.Get(KF32);
    var z := br.Get(KF32);
    var rot := br.Get(KF32);
    var last := br.Get(KU8);
    return Pose(x.bits, y.bits, z.bits, rot.bits), last.u8;
  }

  function Relayed(mover: nat, moved: seq<Byte>, userId: seq<Byte>): seq<Byte> {
    EncodeAll(Header(mover, S_LOBBY_PLAYER_MOVE)) + (EncodeField(U64(mover)) + moved + EncodeField(Text(Clip(userId))))
  }

  lemma RelayCopies(mover: nat, userId: seq<Byte>, payload: seq<Byte>)
    requires |payload| >= 17
    ensures Layout(mover, S_LOBBY_PLAYER_MOVE,
                   MoveFields(mover, Pose(FromLe(payload[..4]), FromLe(payload[4..8]), FromLe(payload[8..12]),
                                          FromLe(payload[12..16])), FromLe(payload[16..17]), userId))
            == Relayed(mover, payload[..17], userId)
  {
    hide EncodeField, EncodeAll, Clip;
    var x, y, z := F32(FromLe(payload[..4])), F32(FromLe(payload[4..8])), F32(FromLe(payload[8..12]));
    var rot, anim := F32(FromLe(payload[12..16])), U8(FromLe(payload[16..17]));
    EncodeAllAppend([U64(mover), x, y, z] + [rot, anim], [Text(Clip(userId))]);
    EncodeAllAppend([U64(mover), x, y, z], [rot, anim]);
    Encode4(U64(mover), x, y, z);
    Encode2(rot, anim);
    Encode1(Text(Clip(userId)));
    ValueKeepsBytes(KF32, payload[..4]);
    ValueKeepsBytes(KF32, payload[4..8]);
    ValueKeepsBytes(KF32, payload[8..12]);
    ValueKeepsBytes(KF32, payload[12..16]);
    ValueKeepsBytes(KU8, payload[16..17]);
    Pieces(payload);
    var id, t := EncodeField(U64(mover)), EncodeField(Text(Clip(userId)));
    assert ((id + payload[..4]) + (payload[4..8] + payload[8..12])) + (payload[12..16] + payload[16..17]) + t
        == id + payload[..17] + t;
  }

  lemma Pieces(p: seq<Byte>)
    requires |p| >= 17
    ensures p[..17] == p[..4] + p[4..8] + p[8..12] + p[12..16] + p[16..17]
  {
  }
}
