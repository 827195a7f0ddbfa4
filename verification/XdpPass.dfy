/** The S2 XDP program: the third header parser, per-CPU statistics and an LRU map of packet
    counts by source address, from which the kernel may evict entries at any time. */
module XdpPass {
  import opened Words
  import opened Sums
  import opened Headers
  import opened Traces
  import Frames

  /** The `struct xdp_event` as a value; addresses and ports in host order. */
  datatype EventValue = EventValue(
    timestamp: u64, ifindex: u32, rxQueue: u32, pktLen: u32, ethProto: u16, ipProto: u8, action: u8,
    srcIp: u32, dstIp: u32, srcPort: u16, dstPort: u16, tcpFlags: u8)

  const XDP_PASS: u8 := 2

  /** The event before parsing: the four fields of the context and the action, all else zero. */
  function Blank(timestamp: u64, ifindex: u32, rxQueue: u32, pktLen: u32): EventValue {
    EventValue(timestamp, ifindex, rxQueue, pktLen, 0, 0, XDP_PASS, 0, 0, 0, 0, 0)
  }

  // ---------------------------------------------------------------- parse_packet

  /** The parser fails exactly on a truncated Ethernet header or a truncated IPv4 header. */
  function ReturnCode(p: Packet): int {
    if |p| < ETH_HLEN || (Field16(p, 12) == ETH_P_IP && |p| < ETH_HLEN + IP_HLEN) then -1 else 0
  }

  /** A TCP or UDP header that is not cut off. */
  predicate HasPorts(p: Packet) {
    IsIpv4(p) && TransportLen(Protocol(p)) > 0 && TransportFits(p)
  }

  /** What the parser leaves in the event: each field it finds in the packet, and the old value
      of every other field. */
  function Parsed(e: EventValue, p: Packet): EventValue {
    WithTransport(WithAddresses(e, p), p)
  }

  function WithAddresses(e: EventValue, p: Packet): EventValue {
    e.(ethProto := if |p| >= ETH_HLEN then Field16(p, 12) else e.ethProto,
       ipProto := if IsIpv4(p) then Protocol(p) else e.ipProto,
       srcIp := if IsIpv4(p) then Field32(p, 26) else e.srcIp,
       dstIp := if IsIpv4(p) then Field32(p, 30) else e.dstIp)
  }

  function WithTransport(e: EventValue, p: Packet): EventValue {
    e.(srcPort := if HasPorts(p) then Field16(p, TransportAt(p)) else e.srcPort,
       dstPort := if HasPorts(p) then Field16(p, TransportAt(p) + 2) else e.dstPort,
       tcpFlags := if HasPorts(p) && Protocol(p) == IPPROTO_TCP then p[TransportAt(p) + 13] else e.tcpFlags)
  }

  class Event {
    var timestamp: u64
    var ifindex: u32
    var rxQueue: u32
    var pktLen: u32
    var ethProto: u16
    var ipProto: u8
    var action: u8
    var srcIp: u32
    var dstIp: u32
    var srcPort: u16
    var dstPort: u16
    var tcpFlags: u8

    function Value(): EventValue
      reads this
    {
      EventValue(timestamp, ifindex, rxQueue, pktLen, ethProto, ipProto, action,
                 srcIp, dstIp, srcPort, dstPort, tcpFlags)
    }

    constructor (e: EventValue)
      ensures Value() == e
    {
      timestamp, ifindex, rxQueue, pktLen := e.timestamp, e.ifindex, e.rxQueue, e.pktLen;
      ethProto, ipProto, action := e.ethProto, e.ipProto, e.action;
      srcIp, dstIp, srcPort, dstPort, tcpFlags := e.srcIp, e.dstIp, e.srcPort, e.dstPort, e.tcpFlags;
    }
  }

  /** A header field in host order: a load and a byte swap. */
  method LoadSwapped16(data: array<u8>, i: nat) returns (x: u16)
    requires i + 2 <= data.Length
    ensures x == Field16(data[..], i)
  {
    SwapLoad16(data[..], i);
    x := Swap16(Load16(data[..], i));
  }

  method LoadSwapped32(data: array<u8>, i: nat) returns (x: u32)
    requires i + 4 <= data.Length
    ensures x == Field32(data[..], i)
  {
    SwapLoad32(data[..], i);
    x := Swap32(Load32(data[..], i));
  }

  /** The parser, writing into the event as it goes.  Every load is inside the data. */
  method ParsePacket(data: array<u8>, evt: Event) returns (rc: int)
    modifies evt
    ensures rc == ReturnCode(data[..])
    ensures evt.Value() == Parsed(old(evt.Value()), data[..])
  {
    var end := data.Length;
    ghost var e, p := evt.Value(), data[..];
    if 14 > end {
      return -1;
    }
    var hProto := LoadSwapped16(data, 12);
    evt.ethProto := hProto;
    if hProto == ETH_P_IP {
      var iph := 14;
      if iph + 20 > end {
        ParsedNoIpv4(e, p);
        return -1;
      }
      evt.ipProto := data[iph + 9];
      evt.srcIp := LoadSwapped32(data, iph + 12);
      evt.dstIp := LoadSwapped32(data, iph + 16);
      assert evt.Value() == WithAddresses(e, p);
      ParseTransport(data, evt);
    } else {
      ParsedNoIpv4(e, p);
    }
    return 0;
  }

  lemma {:induction false} ParsedNoIpv4(e: EventValue, p: Packet)
    requires |p| >= ETH_HLEN && !IsIpv4(p)
    ensures Parsed(e, p) == e.(ethProto := Field16(p, 12))
  {
  }

  /** The ports and TCP flags, unless the transport header is cut off. */
  method ParseTransport(data: array<u8>, evt: Event)
    requires IsIpv4(data[..])
    modifies evt
    ensures evt.Value() == WithTransport(old(evt.Value()), data[..])
  {
    var iph, end := 14, data.Length;
    var l4: nat := iph + data[iph] % 16 * 4;
    if data[iph + 9] == IPPROTO_TCP {
      if l4 + 20 > end {
        return;
      }
      evt.srcPort := LoadSwapped16(data, l4);
      evt.dstPort := LoadSwapped16(data, l4 + 2);
      evt.tcpFlags := data[l4 + 13];
    } else if data[iph + 9] == IPPROTO_UDP {
      if l4 + 8 > end {
        return;
      }
      evt.srcPort := LoadSwapped16(data, l4);
      evt.dstPort := LoadSwapped16(data, l4 + 2);
    }
  }

  /** The same in plain bytes: what the parser returns and what it leaves in the fields, up to the
      addresses ... */
  lemma {:induction false} ParsedBytes(e: EventValue, p: Packet)
    ensures ReturnCode(p) == if |p| < 14 || (p[12] == 8 && p[13] == 0 && |p| < 34) then -1 else 0
    ensures var r := Parsed(e, p);
            && r.timestamp == e.timestamp && r.ifindex == e.ifindex && r.rxQueue == e.rxQueue
            && r.pktLen == e.pktLen && r.action == e.action
            && r.ethProto == if |p| >= 14 then Number2(p[12], p[13]) else e.ethProto
    ensures |p| >= 34 && p[12] == 8 && p[13] == 0 ==>
              var r := Parsed(e, p);
              && r.ipProto == p[23]
              && r.srcIp == Number4(p[26], p[27], p[28], p[29]) && r.dstIp == Number4(p[30], p[31], p[32], p[33])
  {
  }

  /** ... and the ports and flags of a whole TCP or UDP header, 4 times the header length after the
      Ethernet header. */
  lemma {:induction false} ParsedTransport(e: EventValue, p: Packet, l4: nat)
    requires |p| >= 34 && p[12] == 8 && p[13] == 0 && l4 == 14 + 4 * (p[14] % 16)
    ensures var r, whole := Parsed(e, p), (p[23] == 6 && l4 + 20 <= |p|) || (p[23] == 17 && l4 + 8 <= |p|);
            && r.srcPort == (if whole then Number2(p[l4], p[l4 + 1]) else e.srcPort)
            && r.dstPort == (if whole then Number2(p[l4 + 2], p[l4 + 3]) else e.dstPort)
            && r.tcpFlags == if whole && p[23] == 6 then p[l4 + 13] else e.tcpFlags
  {
    assert IsIpv4(p) && TransportAt(p) == l4;
  }

  // ---------------------------------------------------------------- agreement with the other parsers

  /** Whenever the TC parser and the socket filter account a packet, this parser succeeds with
      the same protocol and ports and with the addresses byte-reversed. */
  lemma {:induction false} ParsersAgree(p: Packet, timestamp: u64, ifindex: u32, rxQueue: u32, pktLen: u32)
    requires Classified(p).Some?
    ensures ReturnCode(p) == 0
    ensures var e, flow := Parsed(Blank(timestamp, ifindex, rxQueue, pktLen), p), Classified(p).value;
            && e.ethProto == ETH_P_IP && e.ipProto == flow.protocol
            && e.srcPort == flow.sport && e.dstPort == flow.dport
            && e.srcIp == Swap32(flow.saddr) && e.dstIp == Swap32(flow.daddr)
            && Swap32(e.srcIp) == flow.saddr && Swap32(e.dstIp) == flow.daddr
  {
    SwapLoad32(p, 26);
    SwapLoad32(p, 30);
  }

  /** This parser succeeds on an IPv4 frame that the others decline exactly when the TCP or UDP
      header is cut off, and then it reports the addresses but no ports and no flags. */
  lemma {:induction false} DeclinedFrames(p: Packet, timestamp: u64, ifindex: u32, rxQueue: u32, pktLen: u32)
    requires |p| >= ETH_HLEN && Field16(p, 12) == ETH_P_IP
    ensures ReturnCode(p) == 0 && Classified(p).None?
       <==> |p| >= ETH_HLEN + IP_HLEN && TransportLen(Protocol(p)) > 0
            && TransportAt(p) + TransportLen(Protocol(p)) > |p|
    ensures ReturnCode(p) == 0 && Classified(p).None? ==>
              var e := Parsed(Blank(timestamp, ifindex, rxQueue, pktLen), p);
              e.srcPort == 0 && e.dstPort == 0 && e.tcpFlags == 0
              && e.srcIp == Field32(p, 26) && e.dstIp == Field32(p, 30) && e.ipProto == Protocol(p)
  {
  }

  /** Parsing any encoded frame gives back its addresses (in host order), ports and, for TCP,
      the flags in byte 13 of the transport header; `rest` starts after the four port bytes. */
  lemma {:induction false} ParseOfFrame(f: Frames.Frame, timestamp: u64, ifindex: u32, rxQueue: u32, pktLen: u32)
    requires Frames.WellFormed(f)
    ensures var e := Parsed(Blank(timestamp, ifindex, rxQueue, pktLen), Frames.Encode(f));
            && ReturnCode(Frames.Encode(f)) == 0
            && e.ipProto == f.flow.protocol && e.srcPort == f.flow.sport && e.dstPort == f.flow.dport
            && e.srcIp == Swap32(f.flow.saddr) && e.dstIp == Swap32(f.flow.daddr)
            && e.tcpFlags == if f.flow.protocol == IPPROTO_TCP then f.rest[9] else 0
  {
    Frames.ParseOfEncode(f);
    ParsersAgree(Frames.Encode(f), timestamp, ifindex, rxQueue, pktLen);
    if f.flow.protocol == IPPROTO_TCP {
      var p := Frames.Encode(f);
      assert Frames.Decode(p).rest == f.rest;
      assert p[TransportAt(p) + 4..TransportAt(p) + 20][9] == p[TransportAt(p) + 13];
    }
  }

  /** `handle_event` in user space: `htonl` of the host-order address, printed by `inet_ntoa`
      as the four bytes in memory. */
  function PrintedAddress(ip: u32): seq<u8> {
    Bytes32(Swap32(ip))
  }

  /** The user-space program prints the address bytes as they stood in the packet, and its
      `s_addr` is the key under which the other two programs account the packet. */
  lemma {:induction false} PrintsPacketAddresses(p: Packet, timestamp: u64, ifindex: u32, rxQueue: u32, pktLen: u32)
    requires IsIpv4(p)
    ensures var e := Parsed(Blank(timestamp, ifindex, rxQueue, pktLen), p);
            && PrintedAddress(e.srcIp) == p[26..30] && PrintedAddress(e.dstIp) == p[30..34]
            && (Classified(p).Some? ==> Swap32(e.dstIp) == Classified(p).value.daddr)
  {
    PrintedField(p, 26);
    PrintedField(p, 30);
  }

  lemma {:induction false} PrintedField(p: Packet, i: nat)
    requires i + 4 <= |p|
    ensures PrintedAddress(Field32(p, i)) == p[i..i + 4] && Swap32(Field32(p, i)) == Load32(p, i)
  {
    SwapLoad32(p, i);
    BytesOfJoin(p[i], p[i + 1], p[i + 2], p[i + 3]);
  }

  // ---------------------------------------------------------------- xdp_pass

  datatype CpuStats = CpuStats(packets: u64, bytes: u64, dropped: u64, passed: u64)

  datatype State = State(statistics: seq<CpuStats>, srcIpCounts: map<u32, u64>, events: seq<EventValue>)

  /** A packet on some CPU, or the eviction of any set of entries from the LRU map. */
  datatype Step =
    | Pass(data: Packet, cpu: nat, ifindex: u32, rxQueue: u32, now: u64, reserveOk: bool)
    | Evict(victims: set<u32>)

  function Loaded(cpus: nat): State {
    State(seq(cpus, _ => CpuStats(0, 0, 0, 0)), map[], [])
  }

  function PktLen(p: Packet): u32 {
    |p| % 0x1_0000_0000
  }

  function CountedOn(st: CpuStats, len: u32): CpuStats {
    CpuStats(Add64(st.packets, 1), Add64(st.bytes, len), st.dropped, Add64(st.passed, 1))
  }

  /** The source address under which a packet is counted, if it is counted. */
  function Source(p: Packet): Option<u32> {
    if ReturnCode(p) == 0 && IsIpv4(p) && Field32(p, 26) != 0 then Some(Field32(p, 26)) else None
  }

  function Hit(counts: map<u32, u64>, source: Option<u32>): map<u32, u64> {
    if source.None? then counts
    else counts[source.value := if source.value in counts then Add64(counts[source.value], 1) else 1]
  }

  function After(s: State, x: Step): State {
    match x
    case Evict(victims) => s.(srcIpCounts := s.srcIpCounts - victims)
    case Pass(data, cpu, ifindex, rxQueue, now, ok) =>
      State(if cpu < |s.statistics| then s.statistics[cpu := CountedOn(s.statistics[cpu], PktLen(data))]
            else s.statistics,
            Hit(s.srcIpCounts, Source(data)),
            if ReturnCode(data) == 0 && now % 100 == 0 && ok
            then s.events + [Parsed(Blank(now, ifindex, rxQueue, PktLen(data)), data)] else s.events)
  }

  class Program {
    var statistics: seq<CpuStats>
    var srcIpCounts: map<u32, u64>
    var events: seq<EventValue>

    ghost function Maps(): State
      reads this
    {
      State(statistics, srcIpCounts, events)
    }

    constructor (cpus: nat)
      ensures Maps() == Loaded(cpus)
    {
      statistics := seq(cpus, _ => CpuStats(0, 0, 0, 0));
      srcIpCounts, events := map[], [];
    }

    method OnPacket(data: array<u8>, cpu: nat, ifindex: u32, rxQueue: u32, now: u64, reserveOk: bool)
      returns (action: u8)
      modifies this
      ensures Maps() == After(old(Maps()), Pass(data[..], cpu, ifindex, rxQueue, now, reserveOk))
      ensures action == XDP_PASS
    {
      var pktLen: u32 := data.Length % 0x1_0000_0000;
      action := XDP_PASS;
      CountPacket(cpu, pktLen);
      var evt := new Event(Blank(now, ifindex, rxQueue, pktLen));
      var rc := ParsePacket(data, evt);
      if rc == 0 {
        if evt.srcIp != 0 {
          CountSource(evt.srcIp);
        }
        if evt.timestamp % 100 == 0 && reserveOk {
          events := events + [evt.Value()];
        }
      }
    }

    /** The three atomic adds to the statistics of the current CPU. */
    method CountPacket(cpu: nat, pktLen: u32)
      modifies this`statistics
      ensures statistics
           == if cpu < |old(statistics)| then old(statistics)[cpu := CountedOn(old(statistics)[cpu], pktLen)]
              else old(statistics)
    {
      if cpu < |statistics| {
        statistics := statistics[cpu := statistics[cpu].(packets := Add64(statistics[cpu].packets, 1))];
        statistics := statistics[cpu := statistics[cpu].(bytes := Add64(statistics[cpu].bytes, pktLen))];
        statistics := statistics[cpu := statistics[cpu].(passed := Add64(statistics[cpu].passed, 1))];
      }
    }

    method CountSource(srcIp: u32)
      modifies this`srcIpCounts
      ensures srcIpCounts == Hit(old(srcIpCounts), Some(srcIp))
      ensures srcIp in srcIpCounts && srcIpCounts - {srcIp} == old(srcIpCounts) - {srcIp}
      ensures srcIpCounts[srcIp] == Wrap64(1 + if srcIp in old(srcIpCounts) then old(srcIpCounts)[srcIp] as int else 0)
    {
      if srcIp in srcIpCounts {
        srcIpCounts := srcIpCounts[srcIp := Add64(srcIpCounts[srcIp], 1)];
      } else {
        srcIpCounts := srcIpCounts[srcIp := 1];
      }
    }

    /** The kernel may evict any entries of an LRU map between two packets. */
    method Evict(victims: set<u32>)
      modifies this`srcIpCounts
      ensures Maps() == After(old(Maps()), Step.Evict(victims))
    {
      srcIpCounts := srcIpCounts - victims;
    }
  }

  // ---------------------------------------------------------------- the lossy bound

  function Run(cpus: nat, xs: seq<Step>): State {
    if xs == [] then Loaded(cpus) else After(Run(cpus, xs[..|xs| - 1]), xs[|xs| - 1])
  }

  /** An IPv4 packet whose source address, in bytes 26 to 29, is a given number. */
  predicate IsFrom(x: Step, a: u32) {
    x.Pass? && |x.data| >= 34 && x.data[12] == 8 && x.data[13] == 0
    && a == Number4(x.data[26], x.data[27], x.data[28], x.data[29])
  }

  ghost function FromSource(a: u32): Step -> int {
    (x: Step) => if IsFrom(x, a) then 1 else 0
  }

  lemma {:induction false} SourceIs(x: Step, a: u32)
    requires x.Pass?
    ensures Source(x.data) == Some(a) <==> IsFrom(x, a) && a != 0
  {
  }

  ghost function OnCpus(cpus: nat): Step -> int {
    (x: Step) => if x.Pass? && x.cpu < cpus then 1 else 0
  }

  const PACKETS_ON: CpuStats -> int := (st: CpuStats) => st.packets

  function AsNat(counts: map<u32, u64>): map<u32, nat> {
    map a | a in counts :: counts[a]
  }

  /** However entries are evicted, a source count never exceeds the number of IPv4 packets from
      that source. */
  lemma {:induction false} SourceCountBound(cpus: nat, xs: seq<Step>, a: u32)
    ensures 0 <= Sum(xs, FromSource(a))
    ensures a in Run(cpus, xs).srcIpCounts ==> Run(cpus, xs).srcIpCounts[a] <= Sum(xs, FromSource(a))
  {
    if xs != [] {
      var n := |xs| - 1;
      SourceCountBound(cpus, xs[..n], a);
      if xs[n].Pass? {
        SourceIs(xs[n], a);
        HitBound(Run(cpus, xs[..n]).srcIpCounts, Source(xs[n].data), a);
      }
    }
  }

  /** The count of a source, 0 if it is not stored. */
  function CountOf(s: State, a: u32): u64 {
    if a in s.srcIpCounts then s.srcIpCounts[a] else 0
  }

  lemma {:induction false} RunSnoc(cpus: nat, xs: seq<Step>, x: Step)
    ensures Run(cpus, xs + [x]) == After(Run(cpus, xs), x)
  {
    assert (xs + [x])[..|xs|] == xs;
  }

  lemma {:induction false} HitCounts(s: State, x: Step, a: u32)
    requires x.Pass? && a != 0
    ensures CountOf(After(s, x), a) == if IsFrom(x, a) then Add64(CountOf(s, a), 1) else CountOf(s, a)
    ensures a in After(s, x).srcIpCounts <==> a in s.srcIpCounts || IsFrom(x, a)
  {
    SourceIs(x, a);
    NoWrap(1);
  }

  /** Between evictions the count of a source other than 0.0.0.0 grows by exactly the number of
      IPv4 packets from it (modulo 2^64) ... */
  lemma {:induction false} SourceCountGrows(cpus: nat, xs: seq<Step>, ys: seq<Step>, a: u32, total: int)
    requires a != 0 && forall y :: y in ys ==> y.Pass?
    requires total == CountOf(Run(cpus, xs), a) + Sum(ys, FromSource(a))
    ensures CountOf(Run(cpus, xs + ys), a) == Wrap64(total)
  {
    if ys == [] {
      assert xs + ys == xs;
      NoWrap(total);
    } else {
      var ys', y := ys[..|ys| - 1], ys[|ys| - 1];
      var more := FromSource(a)(y);
      SourceCountGrows(cpus, xs, ys', a, total - more);
      SourceCountSnoc(cpus, xs + ys', y, a, total - more);
      assert xs + ys == xs + ys' + [y];
    }
  }

  lemma {:induction false} SourceCountSnoc(cpus: nat, xs: seq<Step>, y: Step, a: u32, total: int)
    requires y.Pass? && a != 0 && CountOf(Run(cpus, xs), a) == Wrap64(total)
    ensures CountOf(Run(cpus, xs + [y]), a) == Wrap64(total + FromSource(a)(y))
  {
    RunSnoc(cpus, xs, y);
    CountStep(Run(cpus, xs), y, a, total);
  }

  lemma {:induction false} CountStep(s: State, y: Step, a: u32, total: int)
    requires y.Pass? && a != 0 && CountOf(s, a) == Wrap64(total)
    ensures CountOf(After(s, y), a) == Wrap64(total + FromSource(a)(y))
  {
    HitCounts(s, y, a);
    AddWrapped(total, 1);
  }

  /** ... and it is stored once there is one. */
  lemma {:induction false} SourceIsStored(cpus: nat, xs: seq<Step>, ys: seq<Step>, a: u32)
    requires a != 0 && forall y :: y in ys ==> y.Pass?
    ensures a in Run(cpus, xs + ys).srcIpCounts
       <==> a in Run(cpus, xs).srcIpCounts || exists y :: y in ys && IsFrom(y, a)
  {
    if ys == [] {
      assert xs + ys == xs;
    } else {
      var ys', y := ys[..|ys| - 1], ys[|ys| - 1];
      SourceIsStored(cpus, xs, ys', a);
      assert xs + ys == xs + ys' + [y] && ys == ys' + [y];
      RunSnoc(cpus, xs + ys', y);
      HitCounts(Run(cpus, xs + ys'), y, a);
    }
  }

  /** The address 0.0.0.0 is never counted. */
  lemma {:induction false} ZeroNeverCounted(cpus: nat, xs: seq<Step>)
    ensures 0 !in Run(cpus, xs).srcIpCounts
  {
    if xs != [] {
      ZeroNeverCounted(cpus, xs[..|xs| - 1]);
    }
  }

  lemma {:induction false} HitBound(counts: map<u32, u64>, source: Option<u32>, a: u32)
    ensures a in Hit(counts, source) ==>
              Hit(counts, source)[a]
              <= (if a in counts then counts[a] as int else 0) + (if source == Some(a) then 1 else 0)
  {
  }

  lemma {:induction false} HitSum(counts: map<u32, u64>, source: Option<u32>)
    ensures SumMap(AsNat(Hit(counts, source))) <= SumMap(AsNat(counts)) + 1
  {
    if source.Some? {
      var a := source.value;
      var v := Hit(counts, source)[a];
      assert AsNat(Hit(counts, source)) == AsNat(counts)[a := v];
      SumMapPut(AsNat(counts), a, v);
      assert v <= (if a in counts then counts[a] as int else 0) + 1;
    }
  }

  /** Every packet is counted once on its CPU, passed and never dropped. */
  lemma {:induction false} EveryPacketPasses(cpus: nat, xs: seq<Step>)
    ensures |Run(cpus, xs).statistics| == cpus
    ensures forall st :: st in Run(cpus, xs).statistics ==> st.packets == st.passed && st.dropped == 0
  {
    if xs != [] {
      EveryPacketPasses(cpus, xs[..|xs| - 1]);
    }
  }

  lemma {:induction false} PacketsBounded(cpus: nat, xs: seq<Step>)
    ensures forall st :: st in Run(cpus, xs).statistics ==> st.packets <= |xs|
  {
    if xs != [] {
      var n := |xs| - 1;
      PacketsBounded(cpus, xs[..n]);
      if xs[n].Pass? && xs[n].cpu < |Run(cpus, xs[..n]).statistics| {
        CountedAtMost(Run(cpus, xs[..n]).statistics, xs[n].cpu, PktLen(xs[n].data), n);
      }
    }
  }

  lemma {:induction false} CountedAtMost(stats: seq<CpuStats>, cpu: nat, len: u32, bound: nat)
    requires cpu < |stats| && forall st :: st in stats ==> st.packets <= bound
    ensures forall st :: st in stats[cpu := CountedOn(stats[cpu], len)] ==> st.packets <= bound + 1
  {
    var was, now := stats[cpu], CountedOn(stats[cpu], len);
    assert was in stats;
    WrapAtMost(was.packets + 1);
    forall st | st in stats[cpu := now]
      ensures st.packets <= bound + 1
    {
      assert st == now || st in stats;
    }
  }

  /** With fewer than 2^64 steps the all-CPU total is the number of packets on existing CPUs. */
  lemma {:induction false} AllCpuTotal(cpus: nat, xs: seq<Step>)
    requires |xs| < 0x1_0000_0000_0000_0000
    ensures Sum(Run(cpus, xs).statistics, PACKETS_ON) == Sum(xs, OnCpus(cpus))
  {
    if xs == [] {
      ZeroTotal(cpus);
    } else {
      var n := |xs| - 1;
      AllCpuTotal(cpus, xs[..n]);
      EveryPacketPasses(cpus, xs[..n]);
      PacketsBounded(cpus, xs[..n]);
      if xs[n].Pass? && xs[n].cpu < cpus {
        var stats, cpu := Run(cpus, xs[..n]).statistics, xs[n].cpu;
        assert stats[cpu] in stats;
        PacketAdds(stats, cpu, PktLen(xs[n].data));
      }
    }
  }

  lemma {:induction false} PacketAdds(stats: seq<CpuStats>, cpu: nat, len: u32)
    requires cpu < |stats| && stats[cpu].packets + 1 < 0x1_0000_0000_0000_0000
    ensures Sum(stats[cpu := CountedOn(stats[cpu], len)], PACKETS_ON) == Sum(stats, PACKETS_ON) + 1
  {
    NoWrap(stats[cpu].packets + 1);
    SumUpdate(stats, cpu, CountedOn(stats[cpu], len), PACKETS_ON);
  }

  lemma {:induction false} ZeroTotal(cpus: nat)
    ensures Sum(seq(cpus, _ => CpuStats(0, 0, 0, 0)), PACKETS_ON) == 0
  {
    if cpus > 0 {
      ZeroTotal(cpus - 1);
      assert seq(cpus, _ => CpuStats(0, 0, 0, 0))[..cpus - 1] == seq(cpus - 1, _ => CpuStats(0, 0, 0, 0));
    }
  }

  /** The packets on one CPU, and their lengths. */
  function PassedOn(cpu: nat): Step -> int {
    (x: Step) => if x.Pass? && x.cpu == cpu then 1 else 0
  }

  function LengthOn(cpu: nat): Step -> int {
    (x: Step) => if x.Pass? && x.cpu == cpu then |x.data| % 0x1_0000_0000 else 0
  }

  /** The statistics of each CPU: the number of its packets and the sum of their lengths, all passed
      and none dropped (modulo 2^64). */
  lemma {:induction false} StatisticsOf(cpus: nat, xs: seq<Step>, cpu: nat)
    requires cpu < cpus
    ensures |Run(cpus, xs).statistics| == cpus
    ensures var n := Wrap64(Sum(xs, PassedOn(cpu)));
            Run(cpus, xs).statistics[cpu] == CpuStats(n, Wrap64(Sum(xs, LengthOn(cpu))), 0, n)
  {
    if xs != [] {
      var n := |xs| - 1;
      StatisticsOf(cpus, xs[..n], cpu);
      CountedAfter(Run(cpus, xs[..n]), xs[n], cpu, Sum(xs[..n], PassedOn(cpu)), Sum(xs[..n], LengthOn(cpu)));
    }
  }

  lemma {:induction false} CountedAfter(s: State, x: Step, cpu: nat, packets: int, bytes: int)
    requires cpu < |s.statistics|
    requires s.statistics[cpu] == CpuStats(Wrap64(packets), Wrap64(bytes), 0, Wrap64(packets))
    ensures |After(s, x).statistics| == |s.statistics|
    ensures var n := Wrap64(packets + PassedOn(cpu)(x));
            After(s, x).statistics[cpu] == CpuStats(n, Wrap64(bytes + LengthOn(cpu)(x)), 0, n)
  {
    if x.Pass? && x.cpu == cpu {
      AddWrapped(packets, 1);
      AddWrapped(bytes, |x.data| % 0x1_0000_0000);
    }
  }

  /** A packet that parses, at a time that is a multiple of 100, with a granted reservation. */
  ghost function Samples(xs: seq<Step>): nat -> bool {
    (i: nat) =>
      i < |xs| && xs[i].Pass? && xs[i].now % 100 == 0 && xs[i].reserveOk
      && |xs[i].data| >= 14 && (xs[i].data[12] == 8 && xs[i].data[13] == 0 ==> |xs[i].data| >= 34)
  }

  /** An event carries the time, the interface, the queue and the length of its packet, the action
      XDP_PASS (2), and what the parser leaves of its bytes (see ParsedBytes) in an event of zeros. */
  ghost function TellsOf(xs: seq<Step>): (EventValue, nat) -> bool {
    (e: EventValue, i: nat) =>
      i < |xs| && xs[i].Pass?
      && e == Parsed(EventValue(xs[i].now, xs[i].ifindex, xs[i].rxQueue, |xs[i].data| % 0x1_0000_0000,
                                0, 0, 2, 0, 0, 0, 0, 0), xs[i].data)
  }

  /** The sampled events of every run, exactly and in order, each saying what its own packet was. */
  lemma {:induction false} EventsTell(cpus: nat, xs: seq<Step>, n: nat)
    requires n <= |xs|
    ensures Faithful(Run(cpus, xs[..n]).events, n, Samples(xs), TellsOf(xs))
  {
    if n > 0 {
      EventsTell(cpus, xs, n - 1);
      assert xs[..n][..n - 1] == xs[..n - 1];
      var s, x := Run(cpus, xs[..n - 1]), xs[n - 1];
      assert Run(cpus, xs[..n]) == After(s, x);
      var more := if Samples(xs)(n - 1)
                  then [Parsed(Blank(x.now, x.ifindex, x.rxQueue, PktLen(x.data)), x.data)] else [];
      assert Run(cpus, xs[..n]).events == s.events + more;
      FaithfulNext(s.events, more, n - 1, Samples(xs), TellsOf(xs));
    }
  }

  /** However entries are evicted, the source counts never add up to more than the all-CPU
      packet total. */
  lemma {:induction false} SourceSumBound(cpus: nat, xs: seq<Step>)
    requires |xs| < 0x1_0000_0000_0000_0000
    requires forall x :: x in xs && x.Pass? ==> x.cpu < cpus
    ensures SumMap(AsNat(Run(cpus, xs).srcIpCounts)) <= Sum(Run(cpus, xs).statistics, PACKETS_ON)
  {
    AllCpuTotal(cpus, xs);
    SourceSumSteps(cpus, xs);
  }

  lemma {:induction false} SourceSumSteps(cpus: nat, xs: seq<Step>)
    requires forall x :: x in xs && x.Pass? ==> x.cpu < cpus
    ensures SumMap(AsNat(Run(cpus, xs).srcIpCounts)) <= Sum(xs, OnCpus(cpus))
  {
    if xs == [] {
      assert AsNat(map[]) == map[];
    } else {
      var n := |xs| - 1;
      SourceSumSteps(cpus, xs[..n]);
      var counts := Run(cpus, xs[..n]).srcIpCounts;
      assert xs[n] in xs;
      match xs[n] {
        case Evict(victims) =>
          assert AsNat(counts - victims) == AsNat(counts) - victims;
          SumMapLose(AsNat(counts), victims);
        case Pass(data, _, _, _, _, _) =>
          HitSum(counts, Source(data));
      }
    }
  }
}
