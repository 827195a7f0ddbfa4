/** The S2 socket filter: a second copy of the header parser, and a ticket counter keyed by
    destination address. */
module SocketFilter {
  import opened Words
  import opened BoundedTable
  import opened Headers
  import opened Tickets
  import opened Traces

  datatype Event = Event(timestamp: u64, flow: Flow, len: u32, count: u64)

  datatype State = State(counts: map<u32, u64>, ring: seq<Attempt<Event>>)

  const LOADED := State(map[], [])

  function After(s: State, x: Skb): State {
    match Classified(x.data)
    case None => s
    case Some(flow) =>
      var count := Draw(s.counts, flow.daddr);
      State(Put(s.counts, COUNTS_CAP, flow.daddr, count),
            if count % SAMPLING == 0 then s.ring + [Attempt(Event(x.now, flow, x.len, count), x.reserveOk)] else s.ring)
  }

  class Program {
    var counts: map<u32, u64>
    var ring: seq<Attempt<Event>>

    ghost function Maps(): State
      reads this
    {
      State(counts, ring)
    }

    constructor ()
      ensures Maps() == LOADED
    {
      counts, ring := map[], [];
    }

    method Filter(data: array<u8>, len: u32, mark: u32, now: u64, reserveOk: bool)
      modifies this
      ensures Maps() == After(old(Maps()), Skb(data[..], len, mark, now, reserveOk))
    {
      var parsed := Parse(data);
      if parsed.None? {
        return;
      }
      var flow := parsed.value;
      var newCount: u64;
      if flow.daddr !in counts {
        counts := Put(counts, COUNTS_CAP, flow.daddr, 1);
        newCount := 1;
      } else {
        newCount := Add64(counts[flow.daddr], 1);
        counts := counts[flow.daddr := newCount];
      }
      if newCount % SAMPLING != 0 {
        return;
      }
      ring := ring + [Attempt(Event(now, flow, len, newCount), reserveOk)];
    }
  }

  /** The stepwise parse into locals.  Every load is inside the data. */
  method Parse(data: array<u8>) returns (r: Option<Flow>)
    ensures r == Classified(data[..])
  {
    var end := data.Length;
    if 14 > end {
      return None;
    }
    SwapLoad16(data[..], 12);
    SwapProtocol();
    if Load16(data[..], 12) != Swap16(ETH_P_IP) {
      return None;
    }
    var ip := 14;
    if ip + 20 > end {
      return None;
    }
    var saddr := Load32(data[..], ip + 12);
    var daddr := Load32(data[..], ip + 16);
    var protocol := data[ip + 9];
    var sport: u16, dport: u16 := 0, 0;
    if protocol == IPPROTO_TCP {
      var tcp: nat := ip + data[ip] % 16 * 4;
      if tcp + 20 > end {
        return None;
      }
      SwapLoad16(data[..], tcp);
      SwapLoad16(data[..], tcp + 2);
      sport := Swap16(Load16(data[..], tcp));
      dport := Swap16(Load16(data[..], tcp + 2));
    } else if protocol == IPPROTO_UDP {
      var udp: nat := ip + data[ip] % 16 * 4;
      if udp + 8 > end {
        return None;
      }
      SwapLoad16(data[..], udp);
      SwapLoad16(data[..], udp + 2);
      sport := Swap16(Load16(data[..], udp));
      dport := Swap16(Load16(data[..], udp + 2));
    }
    return Some(Flow(saddr, daddr, sport, dport, protocol));
  }

  // ---------------------------------------------------------------- whole runs

  function Run(xs: seq<Skb>): State {
    if xs == [] then LOADED else After(Run(xs[..|xs| - 1]), xs[|xs| - 1])
  }

  /** The destinations of the classified packets. */
  function Hits(xs: seq<Skb>): seq<(u32, ())> {
    if xs == [] then []
    else
      var c := Classified(xs[|xs| - 1].data);
      Hits(xs[..|xs| - 1]) + if c.Some? then [(c.value.daddr, ())] else []
  }

  function ToDestination(daddr: u32): Event -> bool {
    (e: Event) => e.flow.daddr == daddr
  }

  const COUNT: Event -> u64 := (e: Event) => e.count

  /** The counts in the reservation attempts for one destination. */
  ghost function AttemptedCounts(ring: seq<Attempt<Event>>, daddr: u32): seq<u64> {
    CountsWhere(ring, ToDestination(daddr), COUNT)
  }

  lemma {:induction false} RunDrawsTickets(xs: seq<Skb>, daddr: u32)
    ensures |Hits(xs)| <= |xs|
    ensures Run(xs).counts == Counts(Hits(xs))
    ensures AttemptedCounts(Run(xs).ring, daddr) == Sampled(TicketsOf(Hits(xs), daddr))
  {
    if xs != [] {
      var n := |xs| - 1;
      RunDrawsTickets(xs[..n], daddr);
      var s, x, hits := Run(xs[..n]), xs[n], Hits(xs[..n]);
      match Classified(x.data) {
        case None =>
          assert Hits(xs) == hits;
        case Some(flow) =>
          HitSnoc(hits, flow.daddr, daddr);
          var count := Draw(s.counts, flow.daddr);
          var e := Event(x.now, flow, x.len, count);
          CountsWhereSnoc(s.ring, Attempt(e, x.reserveOk), ToDestination(daddr), COUNT);
          SampledSnoc(TicketsOf(hits, daddr), count);
      }
    }
  }

  predicate IsTo(x: Skb, daddr: u32) {
    Classified(x.data).Some? && Classified(x.data).value.daddr == daddr
  }

  /** The number of classified packets to a destination. */
  function PacketsTo(xs: seq<Skb>, daddr: u32): nat {
    if xs == [] then 0 else PacketsTo(xs[..|xs| - 1], daddr) + if IsTo(xs[|xs| - 1], daddr) then 1 else 0
  }

  lemma {:induction false} HitsArePackets(xs: seq<Skb>, daddr: u32)
    ensures HitsOf(Hits(xs), daddr) == PacketsTo(xs, daddr)
  {
    if xs != [] {
      var n := |xs| - 1;
      HitsArePackets(xs[..n], daddr);
      if Classified(xs[n].data).Some? {
        var hit := (Classified(xs[n].data).value.daddr, ());
        assert (Hits(xs[..n]) + [hit])[..|Hits(xs[..n])|] == Hits(xs[..n]);
      } else {
        assert Hits(xs) == Hits(xs[..n]);
      }
    }
  }

  /** In every serial run a stored destination with n classified packets has count n and has
      attempted exactly the samples 100, 200, ..., n / 100 of them; a destination without a
      slot attempts none. */
  lemma {:induction false} SampledPackets(xs: seq<Skb>, daddr: u32)
    requires |xs| < 0x1_0000_0000_0000_0000
    ensures daddr in Run(xs).counts <==> Admitted(Hits(xs), 10240, daddr)
    ensures Sampling(Run(xs).counts, AttemptedCounts(Run(xs).ring, daddr), daddr, PacketsTo(xs, daddr))
  {
    RunDrawsTickets(xs, daddr);
    HitsAreSampled(Hits(xs), daddr);
    HitsArePackets(xs, daddr);
  }

  /** A classified packet whose destination has a slot and has got a multiple of 100 packets with it. */
  ghost function Samples(xs: seq<Skb>): nat -> bool {
    (i: nat) =>
      i < |xs| && Classified(xs[i].data).Some?
      && var daddr := Classified(xs[i].data).value.daddr;
         daddr in Run(xs[..i + 1]).counts && PacketsTo(xs[..i + 1], daddr) % 100 == 0
  }

  /** An attempt carries the flow, the length and the time of its packet and the number of packets
      to the destination up to it; it is granted iff its reservation is. */
  ghost function TellsOf(xs: seq<Skb>): (Attempt<Event>, nat) -> bool {
    (a: Attempt<Event>, i: nat) =>
      i < |xs| && a.granted == xs[i].reserveOk
      && Classified(xs[i].data) == Some(a.event.flow)
      && a.event.timestamp == xs[i].now && a.event.len == xs[i].len
      && a.event.count == PacketsTo(xs[..i + 1], a.event.flow.daddr)
  }

  /** What one packet appends. */
  function Appended(s: State, x: Skb): seq<Attempt<Event>> {
    match Classified(x.data)
    case None => []
    case Some(flow) =>
      var count := Draw(s.counts, flow.daddr);
      if count % SAMPLING != 0 then [] else [Attempt(Event(x.now, flow, x.len, count), x.reserveOk)]
  }

  /** The number a packet draws: the packets to its destination if it has a slot, and 1 if not. */
  lemma {:induction false} DrawnCount(xs: seq<Skb>, daddr: u32)
    requires xs != [] && |xs| < 0x1_0000_0000_0000_0000 && IsTo(xs[|xs| - 1], daddr)
    ensures var draw := Draw(Run(xs[..|xs| - 1]).counts, daddr);
            if daddr in Run(xs).counts then draw == PacketsTo(xs, daddr) else draw == 1
  {
    SampledPackets(xs, daddr);
    SampledPackets(xs[..|xs| - 1], daddr);
  }

  /** The attempts of every run of fewer than 2^64 packets, exactly: one for each hundredth packet to
      a destination with a slot, in order, each saying what its own packet was. */
  lemma {:induction false} AttemptsTell(xs: seq<Skb>, n: nat)
    requires n <= |xs| < 0x1_0000_0000_0000_0000
    ensures Faithful(Run(xs[..n]).ring, n, Samples(xs), TellsOf(xs))
  {
    if n > 0 {
      AttemptsTell(xs, n - 1);
      assert xs[..n][..n - 1] == xs[..n - 1];
      var s, x := Run(xs[..n - 1]), xs[n - 1];
      assert Run(xs[..n]) == After(s, x);
      if Classified(x.data).Some? {
        DrawnCount(xs[..n], Classified(x.data).value.daddr);
      }
      assert Run(xs[..n]).ring == s.ring + Appended(s, x);
      FaithfulNext(s.ring, Appended(s, x), n - 1, Samples(xs), TellsOf(xs));
    }
  }
}
