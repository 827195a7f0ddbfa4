/** Well-formed frames and their bytes: every packet the parsers accept with a legal header
    length is the encoding of exactly one frame, and parsing an encoded frame gives its flow. */
module Frames {
  import opened Words
  import opened Headers

  /** The parts of a frame; `middle` is the IPv4 header from the type of service to the time to
      live, `rest` the transport header after the ports. */
  datatype Frame = Frame(
    link: seq<u8>, version: u8, ihl: nat, middle: seq<u8>, checksum: seq<u8>,
    flow: Flow, options: seq<u8>, rest: seq<u8>, payload: seq<u8>)

  predicate WellFormed(f: Frame) {
    && |f.link| == 12 && f.version < 16 && 5 <= f.ihl <= 15 && |f.middle| == 8 && |f.checksum| == 2
    && |f.options| == 4 * (f.ihl - 5)
    && (if TransportLen(f.flow.protocol) > 0 then |f.rest| == TransportLen(f.flow.protocol) - 4
        else f.rest == [] && f.flow.sport == 0 && f.flow.dport == 0)
  }

  /** A 16-bit field in network byte order. */
  function FieldBytes(x: u16): seq<u8> {
    [Bytes16(x)[1], Bytes16(x)[0]]
  }

  /** Ethernet header and fixed part of the IPv4 header. */
  function FixedBytes(f: Frame): seq<u8>
    requires WellFormed(f)
  {
    f.link + FieldBytes(ETH_P_IP) + [16 * f.version + f.ihl] + f.middle + [f.flow.protocol] + f.checksum
    + Bytes32(f.flow.saddr) + Bytes32(f.flow.daddr)
  }

  function TransportBytes(f: Frame): seq<u8> {
    if TransportLen(f.flow.protocol) > 0 then FieldBytes(f.flow.sport) + FieldBytes(f.flow.dport) + f.rest else []
  }

  function Encode(f: Frame): Packet
    requires WellFormed(f)
  {
    FixedBytes(f) + f.options + TransportBytes(f) + f.payload
  }

  /** A packet with a legal header length whose headers are complete. */
  predicate Complete(p: Packet) {
    IsIpv4(p) && 5 <= Ihl(p) && TransportAt(p) + TransportLen(Protocol(p)) <= |p|
  }

  function Decode(p: Packet): Frame
    requires Complete(p)
  {
    var at, len := TransportAt(p), TransportLen(Protocol(p));
    Frame(p[..12], p[14] / 16, Ihl(p), p[15..23], p[24..26],
          FlowOf(p), p[34..at], if len > 0 then p[at + 4..at + len] else [], p[at + len..])
  }

  lemma {:induction false} FixedFields(f: Frame)
    requires WellFormed(f)
    ensures var b := FixedBytes(f);
            && |b| == 34 && b[..12] == f.link && b[12] == 8 && b[13] == 0
            && b[14] == 16 * f.version + f.ihl && b[15..23] == f.middle && b[23] == f.flow.protocol
            && b[24..26] == f.checksum && b[26..30] == Bytes32(f.flow.saddr) && b[30..34] == Bytes32(f.flow.daddr)
  {
  }

  /** Loads and fields of encoded numbers. */
  lemma {:induction false} LoadOfBytes(p: Packet, i: nat, x: u32)
    requires i + 4 <= |p| && p[i..i + 4] == Bytes32(x)
    ensures Load32(p, i) == x
  {
    JoinOfBytes(x);
    var b := p[i..i + 4];
    assert p[i] == b[0] && p[i + 1] == b[1] && p[i + 2] == b[2] && p[i + 3] == b[3];
  }

  lemma {:induction false} FieldOfBytes(p: Packet, i: nat, x: u16)
    requires i + 2 <= |p| && p[i..i + 2] == FieldBytes(x)
    ensures Field16(p, i) == x
  {
    var b := p[i..i + 2];
    assert p[i] == b[0] && p[i + 1] == b[1];
  }

  /** Encoded loads and fields of a packet. */
  lemma {:induction false} BytesOfLoad(p: Packet, i: nat)
    requires i + 4 <= |p|
    ensures Bytes32(Load32(p, i)) == p[i..i + 4]
  {
    BytesOfJoin(p[i], p[i + 1], p[i + 2], p[i + 3]);
  }

  lemma {:induction false} BytesOfField(p: Packet, i: nat)
    requires i + 2 <= |p|
    ensures FieldBytes(Field16(p, i)) == p[i..i + 2]
  {
    BytesOfJoin(p[i + 1], p[i], 0, 0);
  }

  /** Where the parts of an encoded frame are. */
  lemma {:induction false} EncodedLayout(f: Frame)
    requires WellFormed(f)
    ensures var p, at, len := Encode(f), 14 + 4 * f.ihl, TransportLen(f.flow.protocol);
            && at + len <= |p| && p[..34] == FixedBytes(f) && p[34..at] == f.options
            && p[at..at + len] == TransportBytes(f) && p[at + len..] == f.payload
  {
    FixedFields(f);
  }

  lemma {:induction false} SliceOfPrefix<T>(p: seq<T>, q: seq<T>, n: nat, i: nat, j: nat)
    requires n <= |p| && p[..n] == q && i <= j <= n
    ensures p[i..j] == q[i..j]
    ensures forall k :: 0 <= k < n ==> p[k] == q[k]
  {
    assert forall k :: 0 <= k < n ==> p[k] == p[..n][k];
  }

  lemma {:induction false} EncodedFixedFields(f: Frame)
    requires WellFormed(f)
    ensures var p := Encode(f);
            && |p| >= 34 && IsIpv4(p) && Ihl(p) == f.ihl && p[14] / 16 == f.version && Protocol(p) == f.flow.protocol
            && p[..12] == f.link && p[15..23] == f.middle && p[24..26] == f.checksum
            && Load32(p, 26) == f.flow.saddr && Load32(p, 30) == f.flow.daddr
  {
    var p, b := Encode(f), FixedBytes(f);
    EncodedLayout(f);
    FixedFields(f);
    SliceOfPrefix(p, b, 34, 0, 12);
    SliceOfPrefix(p, b, 34, 15, 23);
    SliceOfPrefix(p, b, 34, 24, 26);
    SliceOfPrefix(p, b, 34, 26, 30);
    SliceOfPrefix(p, b, 34, 30, 34);
    assert p[0..12] == p[..12] && b[0..12] == b[..12];
    LoadOfBytes(p, 26, f.flow.saddr);
    LoadOfBytes(p, 30, f.flow.daddr);
  }

  /** Parsing an encoded frame, with any header length, options and payload, gives its flow. */
  lemma {:induction false} ParseOfEncode(f: Frame)
    requires WellFormed(f)
    ensures Complete(Encode(f)) && Classified(Encode(f)) == Some(f.flow)
    ensures Decode(Encode(f)) == f
  {
    var p := Encode(f);
    EncodedLayout(f);
    EncodedFixedFields(f);
    var at, len := TransportAt(p), TransportLen(Protocol(p));
    if len > 0 {
      var t := TransportBytes(f);
      assert p[at..at + 2] == p[at..at + len][..2] == FieldBytes(f.flow.sport);
      assert p[at + 2..at + 4] == p[at..at + len][2..4] == FieldBytes(f.flow.dport);
      assert p[at + 4..at + len] == p[at..at + len][4..] == f.rest;
      FieldOfBytes(p, at, f.flow.sport);
      FieldOfBytes(p, at + 2, f.flow.dport);
    }
  }

  lemma {:induction false} DecodeIsWellFormed(p: Packet)
    requires Complete(p)
    ensures WellFormed(Decode(p))
  {
  }

  /** The fixed part of a decoded frame, piece by piece. */
  lemma {:induction false} FixedPieces(p: Packet)
    requires Complete(p)
    ensures var f := Decode(p);
            && f.link == p[..12] && FieldBytes(ETH_P_IP) == p[12..14] && 16 * f.version + f.ihl == p[14]
            && f.middle == p[15..23] && f.flow.protocol == p[23] && f.checksum == p[24..26]
            && Bytes32(f.flow.saddr) == p[26..30] && Bytes32(f.flow.daddr) == p[30..34]
  {
    BytesOfField(p, 12);
    BytesOfLoad(p, 26);
    BytesOfLoad(p, 30);
  }

  lemma {:induction false} FixedOfDecode(p: Packet)
    requires Complete(p)
    ensures WellFormed(Decode(p)) && FixedBytes(Decode(p)) == p[..34]
  {
    DecodeIsWellFormed(p);
    FixedPieces(p);
    Tiles(p);
  }

  lemma {:induction false} Tiles(p: Packet)
    requires |p| >= 34
    ensures p[..34] == p[..12] + p[12..14] + [p[14]] + p[15..23] + [p[23]] + p[24..26] + p[26..30] + p[30..34]
  {
  }

  lemma {:induction false} TransportOfDecode(p: Packet)
    requires Complete(p)
    ensures TransportBytes(Decode(p)) == p[TransportAt(p)..TransportAt(p) + TransportLen(Protocol(p))]
  {
    var at, len := TransportAt(p), TransportLen(Protocol(p));
    if len > 0 {
      BytesOfField(p, at);
      BytesOfField(p, at + 2);
      assert p[at..at + len] == p[at..at + 2] + p[at + 2..at + 4] + p[at + 4..at + len];
    }
  }

  /** Every complete packet is the encoding of its decoded frame. */
  lemma {:induction false} EncodeOfDecode(p: Packet)
    requires Complete(p)
    ensures WellFormed(Decode(p)) && Encode(Decode(p)) == p
  {
    var at, len := TransportAt(p), TransportLen(Protocol(p));
    FixedOfDecode(p);
    TransportOfDecode(p);
    Cuts(p, 34, at, at + len);
    calc {
      Encode(Decode(p));
      FixedBytes(Decode(p)) + Decode(p).options + TransportBytes(Decode(p)) + Decode(p).payload;
      p[..34] + p[34..at] + p[at..at + len] + p[at + len..];
      p;
    }
  }

  lemma {:induction false} Cuts<T>(p: seq<T>, a: nat, b: nat, c: nat)
    requires a <= b <= c <= |p|
    ensures p == p[..a] + p[a..b] + p[b..c] + p[c..]
  {
  }
}
