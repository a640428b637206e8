/** OpenPGP packets and decoded signature packets, as keystructs.h and decodekey.c see them. */
module Packets {

  type byte = b: int | 0 <= b < 256

  const PACKET_SIGNATURE := 2
  const PACKET_PUBLICKEY := 6
  const PACKET_UID := 13
  const PACKET_PUBLICSUBKEY := 14
  const PACKET_UAT := 17

  const SIGTYPE_KEY_REV := 0x20
  const SIGTYPE_SUBKEY_REV := 0x28
  const SIGTYPE_CERT_REV := 0x30

  datatype Packet = Packet(tag: nat, newformat: bool, data: seq<byte>)

  /** compare_packets(a, b) == 0: tag and bytes decide, the header format does not. */
  predicate SamePacket(a: Packet, b: Packet) {
    a.tag == b.tag && a.data == b.data
  }

  /** A well-formed signature packet with what sig_sigtype and sig_info read out of it. */
  datatype Signature = Signature(packet: Packet, version: nat, sigtype: nat, issuer: nat, created: nat)

  predicate IsRevocation(sigtype: nat) {
    sigtype == SIGTYPE_KEY_REV || sigtype == SIGTYPE_SUBKEY_REV || sigtype == SIGTYPE_CERT_REV
  }

  /** A UID, user attribute or subkey packet with the signatures over it. */
  datatype SignedPacket = SignedPacket(packet: Packet, sigs: seq<Signature>)

  function Max(a: nat, b: nat): nat { if a < b then b else a }
}
