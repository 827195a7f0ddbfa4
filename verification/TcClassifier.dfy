/** The S2 TC classifier: a header parser and a flow table keyed by 5-tuple, with a sampled
    event for the first packet of a flow and for every hundredth one. */
module TcClassifier {
  import opened Words
  import opened BoundedTable
  import opened Sums
  import opened Headers
  import opened Tickets
  import opened Traces

  /** `max_entries` of `tc_flow_stats`. */
  const FLOWS_CAP: nat := 10240

  datatype FlowStats = FlowStats(packets: u64, bytes: u64)

  datatype Event = Event(timestamp: u64, flow: Flow, len: u32, mark: u32, count: u64)

  datatype State = State(flowStats: map<Flow, FlowStats>, ring: seq<Attempt<Event>>)

  const LOADED := State(map[], [])

  function FirstPacket(len: u32): FlowStats {
    FlowStats(1, len)
  }

  function NextPacket(st: FlowStats, len: u32): FlowStats {
    FlowStats(Add64(st.packets, 1), Add64(st.bytes, len))
  }

  /** The count a packet reports, if it is to be reported: 1 when its flow was not in the table
      before, otherwise every hundredth packet count. */
  function Report(flowStats: map<Flow, FlowStats>, flow: Flow): Option<u64> {
    if flow !in flowStats then Some(1)
    else if Add64(flowStats[flow].packets, 1) % SAMPLING == 0 then Some(Add64(flowStats[flow].packets, 1))
    else None
  }

  function After(s: State, x: Skb): State {
    match Classified(x.data)
    case None => s
    case Some(flow) =>
      State(Offer(s.flowStats, FLOWS_CAP, flow, x.len, FirstPacket, NextPacket),
            match Report(s.flowStats, flow)
            case None => s.ring
            case Some(count) => s.ring + [Attempt(Event(x.now, flow, x.len, x.mark, count), x.reserveOk)])
  }

  class Program {
    var flowStats: map<Flow, FlowStats>
    var ring: seq<Attempt<Event>>

    ghost function Maps(): State
      reads this
    {
      State(flowStats, ring)
    }

    constructor ()
      ensures Maps() == LOADED
    {
      flowStats, ring := map[], [];
    }

    method Classify(data: array<u8>, len: u32, mark: u32, now: u64, reserveOk: bool)
      modifies this
      ensures Maps() == After(old(Maps()), Skb(data[..], len, mark, now, reserveOk))
    {
      var parsed := ParseKey(data);
      if parsed.None? {
        return;
      }
      var key := parsed.value;
      var stats := key in flowStats;
      if !stats {
        flowStats := Put(flowStats, FLOWS_CAP, key, FlowStats(1, len));
      } else {
        flowStats := flowStats[key := flowStats[key].(packets := Add64(flowStats[key].packets, 1))];
        flowStats := flowStats[key := flowStats[key].(bytes := Add64(flowStats[key].bytes, len))];
      }
      if stats && flowStats[key].packets % SAMPLING != 0 {
        return;
      }
      var count := if stats then flowStats[key].packets else 1;
      ring := ring + [Attempt(Event(now, key, len, mark, count), reserveOk)];
    }
  }

  /** The pointer-stepped parse that fills the key field by field.  Every load is inside the data. */
  method ParseKey(data: array<u8>) returns (r: Option<Flow>)
    ensures r == Classified(data[..])
  {
    var dataEnd := data.Length;
    var key := Flow(0, 0, 0, 0, 0);
    if 14 > dataEnd {
      return None;
    }
    SwapLoad16(data[..], 12);
    SwapProtocol();
    if Load16(data[..], 12) != Swap16(ETH_P_IP) {
      return None;
    }
    var ip := 14;
    if ip + 20 > dataEnd {
      return None;
    }
    key := key.(saddr := Load32(data[..], ip + 12));
    key := key.(daddr := Load32(data[..], ip + 16));
    key := key.(protocol := data[ip + 9]);
    var l4: nat := ip + data[ip] % 16 * 4;
    if key.protocol == IPPROTO_TCP {
      if l4 + 20 > dataEnd {
        return None;
      }
      SwapLoad16(data[..], l4);
      SwapLoad16(data[..], l4 + 2);
      key := key.(sport := Swap16(Load16(data[..], l4)), dport := Swap16(Load16(data[..], l4 + 2)));
    } else if key.protocol == IPPROTO_UDP {
      if l4 + 8 > dataEnd {
        return None;
      }
      SwapLoad16(data[..], l4);
      SwapLoad16(data[..], l4 + 2);
      key := key.(sport := Swap16(Load16(data[..], l4)), dport := Swap16(Load16(data[..], l4 + 2)));
    }
    return Some(key);
  }

  // ---------------------------------------------------------------- whole runs

  function Run(xs: seq<Skb>): State {
    if xs == [] then LOADED else After(Run(xs[..|xs| - 1]), xs[|xs| - 1])
  }

  /** The classified packets as flow and length. */
  function Items(xs: seq<Skb>): seq<(Flow, u32)> {
    if xs == [] then []
    else
      var x := xs[|xs| - 1];
      Items(xs[..|xs| - 1]) + if Classified(x.data).Some? then [(Classified(x.data).value, x.len)] else []
  }

  function Flows(items: seq<(Flow, u32)>): map<Flow, FlowStats> {
    Build(items, FLOWS_CAP, FirstPacket, NextPacket)
  }

  lemma {:induction false} FlowsSnoc(items: seq<(Flow, u32)>, flow: Flow, len: u32, k: Flow)
    ensures Flows(items + [(flow, len)]) == Offer(Flows(items), FLOWS_CAP, flow, len, FirstPacket, NextPacket)
    ensures ValuesOf(items + [(flow, len)], k) == if flow == k then ValuesOf(items, k) + [len] else ValuesOf(items, k)
  {
    assert (items + [(flow, len)])[..|items|] == items;
  }

  const LEN_OF: u32 -> int := (len: u32) => len

  lemma {:induction false} FoldCountsPackets(lens: seq<u32>)
    requires lens != []
    ensures Fold(lens, FirstPacket, NextPacket) == FlowStats(Wrap64(|lens|), Wrap64(Sum(lens, LEN_OF)))
  {
    var n := |lens| - 1;
    if n == 0 {
      assert lens[..n] == [];
    } else {
      FoldCountsPackets(lens[..n]);
      AddWrapped(n, 1);
      AddWrapped(Sum(lens[..n], LEN_OF), lens[n]);
    }
  }

  lemma {:induction false} RunBuildsFlows(xs: seq<Skb>)
    ensures |Items(xs)| <= |xs|
    ensures Run(xs).flowStats == Flows(Items(xs))
  {
    if xs != [] {
      var n := |xs| - 1;
      RunBuildsFlows(xs[..n]);
      if Classified(xs[n].data).Some? {
        FlowsSnoc(Items(xs[..n]), Classified(xs[n].data).value, xs[n].len, Classified(xs[n].data).value);
      } else {
        assert Items(xs) == Items(xs[..n]);
      }
    }
  }

  /** The flow table, in every serial run: exactly the first 10240 distinct flows are stored,
      each with its number of packets and the sum of their lengths (modulo 2^64). */
  lemma {:induction false} FlowAccounting(xs: seq<Skb>, flow: Flow)
    ensures var lens := ValuesOf(Items(xs), flow);
            && (flow in Run(xs).flowStats <==> Admitted(Items(xs), 10240, flow))
            && (flow in Run(xs).flowStats ==>
                  Run(xs).flowStats[flow] == FlowStats(Wrap64(|lens|), Wrap64(Sum(lens, LEN_OF))))
  {
    RunBuildsFlows(xs);
    BuildAdmits(Items(xs), FLOWS_CAP, FirstPacket, NextPacket, flow);
    if flow in Run(xs).flowStats {
      BuildIsFold(Items(xs), FLOWS_CAP, FirstPacket, NextPacket, flow);
      FoldCountsPackets(ValuesOf(Items(xs), flow));
    }
  }

  // ---------------------------------------------------------------- sampled events

  function OfFlow(flow: Flow): Event -> bool {
    (e: Event) => e.flow == flow
  }

  const COUNT: Event -> u64 := (e: Event) => e.count

  /** The counts in the reservation attempts of one flow. */
  ghost function AttemptedCounts(ring: seq<Attempt<Event>>, flow: Flow): seq<u64> {
    CountsWhere(ring, OfFlow(flow), COUNT)
  }

  ghost function PacketsOf(xs: seq<Skb>, flow: Flow): nat {
    |ValuesOf(Items(xs), flow)|
  }

  lemma {:induction false} PacketsBounded(xs: seq<Skb>, flow: Flow)
    ensures PacketsOf(xs, flow) <= |xs|
  {
    if xs != [] {
      PacketsBounded(xs[..|xs| - 1], flow);
      var x := xs[|xs| - 1];
      if Classified(x.data).Some? {
        FlowsSnoc(Items(xs[..|xs| - 1]), Classified(x.data).value, x.len, flow);
      } else {
        assert Items(xs) == Items(xs[..|xs| - 1]);
      }
    }
  }

  /** What the events of a flow with n packets report: 1, 100, 200, ... if the flow is stored,
      1 for every packet if it is not. */
  function Reported(stored: bool, n: nat): seq<u64>
    requires n < 0x1_0000_0000_0000_0000
  {
    if !stored then Ones(n) else if n == 0 then [] else [1] + Hundreds(n / 100)
  }

  /** In every serial run a stored flow with n >= 1 packets has attempted exactly 1 + n / 100
      events, with counts 1, 100, 200, ...; a flow first seen when the table was full is never
      stored and attempts an event with count 1 for every packet. */
  lemma {:induction false} SampledFlow(xs: seq<Skb>, flow: Flow)
    requires |xs| < 0x1_0000_0000_0000_0000
    ensures PacketsOf(xs, flow) <= |xs|
    ensures AttemptedCounts(Run(xs).ring, flow) == Reported(flow in Run(xs).flowStats, PacketsOf(xs, flow))
  {
    PacketsBounded(xs, flow);
    if xs != [] {
      var n := |xs| - 1;
      SampledFlow(xs[..n], flow);
      PacketsBounded(xs[..n], flow);
      match Classified(xs[n].data) {
        case None =>
          assert Items(xs) == Items(xs[..n]);
        case Some(f) =>
          PacketsSnoc(xs, f, flow);
          if f == flow {
            OwnPacket(xs, flow, PacketsOf(xs[..n], flow));
          } else {
            OtherPacket(xs, f, flow);
          }
      }
    }
  }

  lemma {:induction false} PacketsSnoc(xs: seq<Skb>, f: Flow, flow: Flow)
    requires xs != [] && Classified(xs[|xs| - 1].data) == Some(f)
    ensures PacketsOf(xs, flow) == PacketsOf(xs[..|xs| - 1], flow) + if f == flow then 1 else 0
  {
    FlowsSnoc(Items(xs[..|xs| - 1]), f, xs[|xs| - 1].len, flow);
  }

  lemma {:induction false} OtherPacket(xs: seq<Skb>, f: Flow, flow: Flow)
    requires xs != [] && Classified(xs[|xs| - 1].data) == Some(f) && f != flow
    ensures AttemptedCounts(Run(xs).ring, flow) == AttemptedCounts(Run(xs[..|xs| - 1]).ring, flow)
    ensures flow in Run(xs).flowStats <==> flow in Run(xs[..|xs| - 1]).flowStats
  {
    var s, x := Run(xs[..|xs| - 1]), xs[|xs| - 1];
    var report := Report(s.flowStats, f);
    if report.Some? {
      var e := Event(x.now, f, x.len, x.mark, report.value);
      CountsWhereSnoc(s.ring, Attempt(e, x.reserveOk), OfFlow(flow), COUNT);
    }
  }

  function Listed(report: Option<u64>): seq<u64> {
    if report.Some? then [report.value] else []
  }

  /** What the last packet of a run adds to the attempts of its flow. */
  lemma {:induction false} OwnAttempt(xs: seq<Skb>, flow: Flow)
    requires xs != [] && Classified(xs[|xs| - 1].data) == Some(flow)
    ensures var s := Run(xs[..|xs| - 1]);
            AttemptedCounts(Run(xs).ring, flow) == AttemptedCounts(s.ring, flow) + Listed(Report(s.flowStats, flow))
  {
    var s, x := Run(xs[..|xs| - 1]), xs[|xs| - 1];
    var report := Report(s.flowStats, flow);
    if report.Some? {
      var e := Event(x.now, flow, x.len, x.mark, report.value);
      CountsWhereSnoc(s.ring, Attempt(e, x.reserveOk), OfFlow(flow), COUNT);
    }
  }

  lemma {:induction false} OwnPacket(xs: seq<Skb>, flow: Flow, n: nat)
    requires xs != [] && Classified(xs[|xs| - 1].data) == Some(flow)
    requires n == PacketsOf(xs[..|xs| - 1], flow) && n + 1 < 0x1_0000_0000_0000_0000
    requires AttemptedCounts(Run(xs[..|xs| - 1]).ring, flow) == Reported(flow in Run(xs[..|xs| - 1]).flowStats, n)
    ensures AttemptedCounts(Run(xs).ring, flow) == Reported(flow in Run(xs).flowStats, n + 1)
  {
    var s := Run(xs[..|xs| - 1]);
    OwnAttempt(xs, flow);
    if flow in s.flowStats {
      StoredCount(xs[..|xs| - 1], flow, n);
      assert flow in Run(xs).flowStats;
    } else if flow in Run(xs).flowStats {
      NewFlow(xs, flow);
    }
    ReportedStep(flow in s.flowStats, flow in Run(xs).flowStats, n, Report(s.flowStats, flow));
  }

  lemma {:induction false} StoredCount(xs: seq<Skb>, flow: Flow, n: nat)
    requires flow in Run(xs).flowStats && n == PacketsOf(xs, flow) && n + 1 < 0x1_0000_0000_0000_0000
    ensures n >= 1 && Add64(Run(xs).flowStats[flow].packets, 1) == n + 1
  {
    assert n >= 1 by {
      RunBuildsFlows(xs);
      BuildIsFold(Items(xs), FLOWS_CAP, FirstPacket, NextPacket, flow);
    }
    assert Run(xs).flowStats[flow].packets == Wrap64(n) by {
      FlowAccounting(xs, flow);
    }
    AddWrapped(n, 1);
    NoWrap(n + 1);
  }

  lemma {:induction false} ReportedStep(stored: bool, stored': bool, n: nat, report: Option<u64>)
    requires n + 1 < 0x1_0000_0000_0000_0000
    requires if stored then stored' && n >= 1 && report == (if (n + 1) % SAMPLING == 0 then Some(n + 1) else None)
             else report == Some(1) && (stored' ==> n == 0)
    ensures Reported(stored', n + 1) == Reported(stored, n) + Listed(report)
  {
    assert (n + 1) / 100 == n / 100 + if (n + 1) % 100 == 0 then 1 else 0;
  }

  /** A flow that finds a slot has not been seen before. */
  lemma {:induction false} NewFlow(xs: seq<Skb>, flow: Flow)
    requires xs != [] && flow !in Run(xs[..|xs| - 1]).flowStats && flow in Run(xs).flowStats
    ensures PacketsOf(xs[..|xs| - 1], flow) == 0
  {
    var items := Items(xs[..|xs| - 1]);
    RunBuildsFlows(xs[..|xs| - 1]);
    BuildSize(items, FLOWS_CAP, FirstPacket, NextPacket);
    SubsetOfSameSize(Flows(items).Keys, KeysOf(items));
    assert |Flows(items)| == |Flows(items).Keys|;
    ValuesOfSeen(items, flow);
  }

  // ---------------------------------------------------------------- what the attempts say

  /** The number of packets of a flow. */
  function FlowPackets(xs: seq<Skb>, flow: Flow): nat {
    if xs == [] then 0
    else FlowPackets(xs[..|xs| - 1], flow) + if Classified(xs[|xs| - 1].data) == Some(flow) then 1 else 0
  }

  lemma {:induction false} PacketsAre(xs: seq<Skb>, flow: Flow)
    ensures PacketsOf(xs, flow) == FlowPackets(xs, flow)
  {
    if xs != [] {
      PacketsAre(xs[..|xs| - 1], flow);
      match Classified(xs[|xs| - 1].data) {
        case None => assert Items(xs) == Items(xs[..|xs| - 1]);
        case Some(f) => PacketsSnoc(xs, f, flow);
      }
    }
  }

  /** What the packet with number `k` of a flow reports. */
  function Due(stored: bool, k: nat): Option<nat> {
    if !stored then Some(1) else if k == 1 || k % 100 == 0 then Some(k) else None
  }

  /** The first and every hundredth packet of a stored flow, and every packet of a flow without a
      slot. */
  ghost function Samples(xs: seq<Skb>): nat -> bool {
    (i: nat) =>
      i < |xs| && Classified(xs[i].data).Some?
      && var flow := Classified(xs[i].data).value;
         Due(flow in Run(xs[..i + 1]).flowStats, FlowPackets(xs[..i + 1], flow)).Some?
  }

  /** An attempt carries the flow, the time, the length and the mark of its packet, and the packet's
      number within a stored flow or 1; it is granted iff its reservation is. */
  ghost function TellsOf(xs: seq<Skb>): (Attempt<Event>, nat) -> bool {
    (a: Attempt<Event>, i: nat) =>
      i < |xs| && a.granted == xs[i].reserveOk
      && Classified(xs[i].data) == Some(a.event.flow)
      && a.event.timestamp == xs[i].now && a.event.len == xs[i].len && a.event.mark == xs[i].mark
      && Due(a.event.flow in Run(xs[..i + 1]).flowStats, FlowPackets(xs[..i + 1], a.event.flow)) == Some(a.event.count)
  }

  /** What one packet appends. */
  function Appended(s: State, x: Skb): seq<Attempt<Event>> {
    match Classified(x.data)
    case None => []
    case Some(flow) =>
      match Report(s.flowStats, flow)
      case None => []
      case Some(count) => [Attempt(Event(x.now, flow, x.len, x.mark, count), x.reserveOk)]
  }

  lemma {:induction false} ReportIsDue(xs: seq<Skb>, flow: Flow)
    requires xs != [] && |xs| < 0x1_0000_0000_0000_0000 && Classified(xs[|xs| - 1].data) == Some(flow)
    ensures var report, due := Report(Run(xs[..|xs| - 1]).flowStats, flow),
                               Due(flow in Run(xs).flowStats, FlowPackets(xs, flow));
            report.Some? == due.Some? && (report.Some? ==> report.value == due.value)
  {
    var before := xs[..|xs| - 1];
    PacketsAre(before, flow);
    PacketsBounded(before, flow);
    if flow in Run(before).flowStats {
      StoredCount(before, flow, PacketsOf(before, flow));
      assert flow in Run(xs).flowStats;
    } else if flow in Run(xs).flowStats {
      NewFlow(xs, flow);
    }
  }

  /** The attempts of every run of fewer than 2^64 packets, exactly: one for the first and for every
      hundredth packet of a stored flow, the attempt with count k for its k-th packet, and one
      for every packet of a flow without a slot, in order, each saying what its own packet was. */
  lemma {:induction false} AttemptsTell(xs: seq<Skb>, n: nat)
    requires n <= |xs| < 0x1_0000_0000_0000_0000
    ensures Faithful(Run(xs[..n]).ring, n, Samples(xs), TellsOf(xs))
  {
    if n > 0 {
      AttemptsTell(xs, n - 1);
      assert xs[..n][..n - 1] == xs[..n - 1];
      var s, x := Run(xs[..n - 1]), xs[n - 1];
      assert Run(xs[..n]) == After(s, x);
      if Classified(x.data).Some? {
        ReportIsDue(xs[..n], Classified(x.data).value);
      }
      assert Run(xs[..n]).ring == s.ring + Appended(s, x);
      FaithfulNext(s.ring, Appended(s, x), n - 1, Samples(xs), TellsOf(xs));
    }
  }
}
