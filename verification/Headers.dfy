/** Ethernet, IPv4, TCP and UDP headers as byte offsets: section 3.1 of RFC 791, section 3.1 of
    RFC 9293 and the "Format" section of RFC 768.  The programs run on a little-endian machine, so a
    multi-byte load has the bytes of the packet in reverse order. */
module Headers {
  import opened Words

  const ETH_HLEN := 14
  const IP_HLEN := 20
  const TCP_HLEN := 20
  const UDP_HLEN := 8
  const ETH_P_IP: u16 := 0x0800
  const IPPROTO_TCP: u8 := 6
  const IPPROTO_UDP: u8 := 17

  type Packet = seq<u8>

  /** A packet as the TC and socket programs get it: the linear data, the full length, and the kernel's answers. */
  datatype Skb = Skb(data: Packet, len: u32, mark: u32, now: u64, reserveOk: bool)

  // ---------------------------------------------------------------- byte order

  /** The number with the given bytes, least significant first. */
  function Join16(a: u8, b: u8): u16 {
    (a as int) + 0x100 * (b as int)
  }

  function Join32(a: u8, b: u8, c: u8, d: u8): u32 {
    (a as int) + 0x100 * ((b as int) + 0x100 * ((c as int) + 0x100 * (d as int)))
  }

  /** The bytes of a number, least significant first. */
  function Bytes16(x: u16): seq<u8> {
    [x % 0x100, x / 0x100]
  }

  function Bytes32(x: u32): seq<u8> {
    [x % 0x100, x / 0x100 % 0x100, x / 0x100 / 0x100 % 0x100, x / 0x100 / 0x100 / 0x100]
  }

  lemma {:induction false} BytesOfJoin(a: u8, b: u8, c: u8, d: u8)
    ensures Bytes16(Join16(a, b)) == [a, b]
    ensures Bytes32(Join32(a, b, c, d)) == [a, b, c, d]
  {
    LowByte(a, (b as int) + 0x100 * ((c as int) + 0x100 * (d as int)));
    LowByte(b, (c as int) + 0x100 * (d as int));
    LowByte(c, d);
  }

  lemma {:induction false} LowByte(a: u8, rest: nat)
    ensures (a + 0x100 * rest) % 0x100 == a
    ensures (a + 0x100 * rest) / 0x100 == rest
  {
  }

  lemma {:induction false} JoinOfBytes(x: u32)
    ensures Join32(Bytes32(x)[0], Bytes32(x)[1], Bytes32(x)[2], Bytes32(x)[3]) == x
  {
  }

  /** A load of two or four bytes on a little-endian machine. */
  function Load16(p: Packet, i: nat): u16
    requires i + 2 <= |p|
  {
    Join16(p[i], p[i + 1])
  }

  function Load32(p: Packet, i: nat): u32
    requires i + 4 <= |p|
  {
    Join32(p[i], p[i + 1], p[i + 2], p[i + 3])
  }

  /** A field in network byte order. */
  function Field16(p: Packet, i: nat): u16
    requires i + 2 <= |p|
  {
    Join16(p[i + 1], p[i])
  }

  function Field32(p: Packet, i: nat): u32
    requires i + 4 <= |p|
  {
    Join32(p[i + 3], p[i + 2], p[i + 1], p[i])
  }

  /** `__builtin_bswap16` and `__builtin_bswap32`; also `ntohs`, `htons`, `ntohl` and `htonl`. */
  function Swap16(x: u16): u16 {
    Join16(Bytes16(x)[1], Bytes16(x)[0])
  }

  function Swap32(x: u32): u32 {
    Join32(Bytes32(x)[3], Bytes32(x)[2], Bytes32(x)[1], Bytes32(x)[0])
  }

  /** Swapping a loaded value gives the field, and back. */
  lemma {:induction false} SwapLoad16(p: Packet, i: nat)
    requires i + 2 <= |p|
    ensures Swap16(Load16(p, i)) == Field16(p, i)
    ensures Swap16(Field16(p, i)) == Load16(p, i)
  {
    BytesOfJoin(p[i], p[i + 1], 0, 0);
    BytesOfJoin(p[i + 1], p[i], 0, 0);
  }

  lemma {:induction false} SwapLoad32(p: Packet, i: nat)
    requires i + 4 <= |p|
    ensures Swap32(Load32(p, i)) == Field32(p, i)
    ensures Swap32(Field32(p, i)) == Load32(p, i)
  {
    BytesOfJoin(p[i], p[i + 1], p[i + 2], p[i + 3]);
    BytesOfJoin(p[i + 3], p[i + 2], p[i + 1], p[i]);
  }

  /** Comparing the loaded type with the swapped constant is comparing the field. */
  lemma {:induction false} SwapProtocol()
    ensures forall x: u16 :: Swap16(x) == ETH_P_IP <==> x == Swap16(ETH_P_IP)
  {
    forall x: u16
      ensures Swap16(Swap16(x)) == x
    {
      BytesOfJoin(Bytes16(x)[1], Bytes16(x)[0], 0, 0);
    }
  }

  // ---------------------------------------------------------------- the header specification

  /** An IPv4 packet in an Ethernet frame, complete up to the fixed part of the IPv4 header. */
  predicate IsIpv4(p: Packet) {
    |p| >= ETH_HLEN + IP_HLEN && Field16(p, 12) == ETH_P_IP
  }

  /** Internet header length in 32-bit words. */
  function Ihl(p: Packet): nat
    requires |p| >= ETH_HLEN + IP_HLEN
  {
    p[14] % 16
  }

  function Protocol(p: Packet): u8
    requires |p| >= ETH_HLEN + IP_HLEN
  {
    p[23]
  }

  function TransportAt(p: Packet): nat
    requires |p| >= ETH_HLEN + IP_HLEN
  {
    ETH_HLEN + 4 * Ihl(p)
  }

  /** How much of the transport header the programs look at: none unless it is TCP or UDP. */
  function TransportLen(protocol: u8): nat {
    if protocol == IPPROTO_TCP then TCP_HLEN else if protocol == IPPROTO_UDP then UDP_HLEN else 0
  }

  /** The transport header is not cut off. */
  predicate TransportFits(p: Packet)
    requires |p| >= ETH_HLEN + IP_HLEN
  {
    TransportLen(Protocol(p)) > 0 ==> TransportAt(p) + TransportLen(Protocol(p)) <= |p|
  }

  /** A 5-tuple: addresses as loaded (network order in memory), ports as numbers. */
  datatype Flow = Flow(saddr: u32, daddr: u32, sport: u16, dport: u16, protocol: u8)

  function FlowOf(p: Packet): Flow
    requires IsIpv4(p) && TransportFits(p)
  {
    var ports := TransportLen(Protocol(p)) > 0;
    Flow(Load32(p, 26), Load32(p, 30),
         if ports then Field16(p, TransportAt(p)) else 0,
         if ports then Field16(p, TransportAt(p) + 2) else 0,
         Protocol(p))
  }

  /** The flow that a packet is accounted to, if it is accounted at all. */
  function Classified(p: Packet): Option<Flow> {
    if IsIpv4(p) && TransportFits(p) then Some(FlowOf(p)) else None
  }

  /** The number with the given bytes, most significant first. */
  function Number2(a: int, b: int): int {
    0x100 * a + b
  }

  function Number4(a: int, b: int, c: int, d: int): int {
    0x100_0000 * a + 0x1_0000 * b + 0x100 * c + d
  }

  /** The header specification in plain bytes: an accounted packet has 14 bytes of Ethernet with
      type 0x0800, 20 bytes of IPv4 and, 4 times the header length after the Ethernet header, 20
      bytes of TCP (protocol 6) or 8 of UDP (protocol 17); the ports are in network order, the
      addresses as they are loaded. */
  lemma {:induction false} ClassifiedBytes(p: Packet, l4: nat)
    requires |p| >= 15 ==> l4 == 14 + 4 * (p[14] % 16)
    ensures Classified(p).Some? <==>
              |p| >= 34 && p[12] == 8 && p[13] == 0
              && (p[23] == 6 ==> l4 + 20 <= |p|) && (p[23] == 17 ==> l4 + 8 <= |p|)
    ensures Classified(p).Some? ==>
              var flow := Classified(p).value;
              && flow.protocol == p[23]
              && flow.saddr == Number4(p[29], p[28], p[27], p[26])
              && flow.daddr == Number4(p[33], p[32], p[31], p[30])
              && (p[23] == 6 || p[23] == 17 ==>
                    flow.sport == Number2(p[l4], p[l4 + 1]) && flow.dport == Number2(p[l4 + 2], p[l4 + 3]))
              && (p[23] != 6 && p[23] != 17 ==> flow.sport == 0 && flow.dport == 0)
  {
  }
}
