/** The constants of the UDP protocol. */
module UdpPacket {

  const UDP_HEADER_SIZE: nat := 14  // session id, sequence, packet type, without padding
  const UDP_MAX_PAYLOAD: nat := 1200
  const UDP_MAX_PACKET: nat := UDP_HEADER_SIZE + UDP_MAX_PAYLOAD

  const S_UDP_HANDSHAKE_ACK: nat := 350
  const S_LOBBY_PLAYER_MOVE: nat := 352
  const S_LOBBY_PLAYER_LEAVE: nat := 353
  const S_PLAYER_INFO: nat := 354
  const S_PURCHASE_WEAPON_RESULT: nat := 355
}
