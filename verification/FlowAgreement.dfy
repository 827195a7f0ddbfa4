/** The TC classifier and the socket filter see the same packets differently: one table by
    5-tuple, one by destination address.  As long as the flows fit, the tables agree. */
module FlowAgreement {
  import opened Words
  import opened BoundedTable
  import opened Sums
  import opened Headers
  import Tickets
  import TcClassifier
  import SocketFilter

  /** The packet counts of the stored flows to one destination. */
  function PacketsTo(flows: map<Flow, TcClassifier.FlowStats>, daddr: u32): map<Flow, nat> {
    map f | f in flows && f.daddr == daddr :: flows[f].packets
  }

  /** One step of both tables, with room in each. */
  function FlowsWith(flows: map<Flow, TcClassifier.FlowStats>, flow: Flow, len: u32)
    : map<Flow, TcClassifier.FlowStats>
  {
    flows[flow := if flow in flows then TcClassifier.NextPacket(flows[flow], len) else TcClassifier.FirstPacket(len)]
  }

  function CountsWith(counts: map<u32, u64>, daddr: u32): map<u32, u64> {
    counts[daddr := Tickets.Draw(counts, daddr)]
  }

  /** The agreement for one destination; `n` bounds the packets seen so far. */
  ghost predicate Agree(flows: map<Flow, TcClassifier.FlowStats>, counts: map<u32, u64>, daddr: u32, n: nat) {
    && (daddr in counts <==> exists f :: f in flows && f.daddr == daddr)
    && SumMap(PacketsTo(flows, daddr)) <= n
    && (daddr in counts ==> counts[daddr] == Wrap64(SumMap(PacketsTo(flows, daddr))))
  }

  lemma {:induction false} StepAgrees(
    flows: map<Flow, TcClassifier.FlowStats>, counts: map<u32, u64>, daddr: u32, n: nat, flow: Flow, len: u32)
    requires Agree(flows, counts, daddr, n)
    ensures Agree(FlowsWith(flows, flow, len), CountsWith(counts, flow.daddr), daddr, n + 1)
  {
    var flows' := FlowsWith(flows, flow, len);
    if flow.daddr == daddr {
      OwnStep(flows, counts, flow, len);
      assert flow in flows';
    } else {
      assert PacketsTo(flows', daddr) == PacketsTo(flows, daddr);
      assert forall f: Flow :: f.daddr == daddr ==> (f in flows' <==> f in flows);
    }
  }

  lemma {:induction false} OwnStep(
    flows: map<Flow, TcClassifier.FlowStats>, counts: map<u32, u64>, flow: Flow, len: u32)
    requires flow.daddr in counts <==> exists f :: f in flows && f.daddr == flow.daddr
    requires flow.daddr in counts ==> counts[flow.daddr] == Wrap64(SumMap(PacketsTo(flows, flow.daddr)))
    ensures SumMap(PacketsTo(FlowsWith(flows, flow, len), flow.daddr)) <= SumMap(PacketsTo(flows, flow.daddr)) + 1
    ensures CountsWith(counts, flow.daddr)[flow.daddr]
         == Wrap64(SumMap(PacketsTo(FlowsWith(flows, flow, len), flow.daddr)))
  {
    var d := flow.daddr;
    var before, after := PacketsTo(flows, d), PacketsTo(FlowsWith(flows, flow, len), d);
    var packetsBefore := if flow in flows then flows[flow].packets as int else 0;
    var packetsAfter := FlowsWith(flows, flow, len)[flow].packets;
    PacketsToWith(flows, flow, len);
    SumMapPut(before, flow, packetsAfter);
    if d in counts {
      if flow in flows {
        WrapReplace(SumMap(before), packetsBefore);
      } else {
        AddWrapped(SumMap(before), 1);
      }
    } else {
      assert before == map[];
    }
  }

  lemma {:induction false} PacketsToWith(flows: map<Flow, TcClassifier.FlowStats>, flow: Flow, len: u32)
    ensures PacketsTo(FlowsWith(flows, flow, len), flow.daddr)
         == PacketsTo(flows, flow.daddr)[flow := FlowsWith(flows, flow, len)[flow].packets]
  {
  }

  /** Replacing a summand by its wrapped successor adds one, modulo 2^64. */
  lemma {:induction false} WrapReplace(sum: int, summand: u64)
    ensures Add64(Wrap64(sum), 1) == Wrap64(sum + Add64(summand, 1) - summand)
    ensures Add64(summand, 1) <= summand + 1
  {
    var rest := sum - summand;
    assert Wrap64(rest + Wrap64(summand + 1)) == Wrap64(rest + (summand + 1)) by {
      WrapAdd(summand + 1, rest);
    }
    AddWrapped(sum, 1);
  }

  // ---------------------------------------------------------------- both programs on one packet sequence

  lemma {:induction false} SameHits(xs: seq<Skb>)
    ensures |SocketFilter.Hits(xs)| == |TcClassifier.Items(xs)| <= |xs|
    ensures |KeysOf(SocketFilter.Hits(xs))| <= |KeysOf(TcClassifier.Items(xs))|
    ensures forall f :: f in KeysOf(TcClassifier.Items(xs)) ==> f.daddr in KeysOf(SocketFilter.Hits(xs))
  {
    if xs != [] {
      var n := |xs| - 1;
      SameHits(xs[..n]);
      var items, hits := TcClassifier.Items(xs[..n]), SocketFilter.Hits(xs[..n]);
      match Classified(xs[n].data) {
        case None =>
          assert TcClassifier.Items(xs) == items && SocketFilter.Hits(xs) == hits;
        case Some(f) =>
          KeysOfAppend(items, f, xs[n].len);
          KeysOfAppend(hits, f.daddr, ());
          if f in KeysOf(items) {
            assert KeysOf(hits) + {f.daddr} == KeysOf(hits);
            assert KeysOf(items) + {f} == KeysOf(items);
          }
      }
    }
  }

  lemma {:induction false} KeysOfAppend<K, V>(items: seq<(K, V)>, k: K, v: V)
    ensures KeysOf(items + [(k, v)]) == KeysOf(items) + {k}
  {
    KeysOfSnoc(items + [(k, v)]);
    assert (items + [(k, v)])[..|items|] == items;
  }

  /** With room for all keys, offering always stores. */
  lemma {:induction false} RoomToOffer<K, V, S>(
    items: seq<(K, V)>, cap: nat, first: V -> S, next: (S, V) -> S, k: K, v: S)
    requires |KeysOf(items) + {k}| <= cap
    ensures Put(Build(items, cap, first, next), cap, k, v) == Build(items, cap, first, next)[k := v]
  {
    BuildSize(items, cap, first, next);
    var m := Build(items, cap, first, next);
    if k !in m {
      SubsetOfSameSize(m.Keys + {k}, KeysOf(items) + {k});
      assert |m.Keys + {k}| == |m| + 1;
    }
  }

  /** Over any packet sequence with at most 10240 distinct flows, run serially through both
      programs, the count of every destination is the sum of the packet counts of the flows to
      it (modulo 2^64), and a destination has a count iff some flow to it is stored. */
  lemma {:induction false} TablesAgree(xs: seq<Skb>, daddr: u32)
    requires |KeysOf(TcClassifier.Items(xs))| <= TcClassifier.FLOWS_CAP
    ensures Agree(TcClassifier.Run(xs).flowStats, SocketFilter.Run(xs).counts, daddr, |xs|)
  {
    if xs == [] {
      assert PacketsTo(map[], daddr) == map[];
    } else {
      var n := |xs| - 1;
      match Classified(xs[n].data) {
        case None =>
          assert TcClassifier.Items(xs) == TcClassifier.Items(xs[..n]);
          TablesAgree(xs[..n], daddr);
        case Some(f) =>
          KeysOfAppend(TcClassifier.Items(xs[..n]), f, xs[n].len);
          SubsetOfSameSize(KeysOf(TcClassifier.Items(xs[..n])), KeysOf(TcClassifier.Items(xs)));
          TablesAgree(xs[..n], daddr);
          TablesAfter(xs, f);
          StepAgrees(TcClassifier.Run(xs[..n]).flowStats, SocketFilter.Run(xs[..n]).counts, daddr, n, f, xs[n].len);
      }
    }
  }

  /** What an accounted packet does to the two tables when there is room in both. */
  lemma {:induction false} TablesAfter(xs: seq<Skb>, f: Flow)
    requires xs != [] && Classified(xs[|xs| - 1].data) == Some(f)
    requires |KeysOf(TcClassifier.Items(xs))| <= TcClassifier.FLOWS_CAP
    ensures TcClassifier.Run(xs).flowStats == FlowsWith(TcClassifier.Run(xs[..|xs| - 1]).flowStats, f, xs[|xs| - 1].len)
    ensures SocketFilter.Run(xs).counts == CountsWith(SocketFilter.Run(xs[..|xs| - 1]).counts, f.daddr)
  {
    var n := |xs| - 1;
    var items, hits := TcClassifier.Items(xs[..n]), SocketFilter.Hits(xs[..n]);
    var flows, counts := TcClassifier.Run(xs[..n]).flowStats, SocketFilter.Run(xs[..n]).counts;
    SameHits(xs);
    KeysOfAppend(items, f, xs[n].len);
    KeysOfAppend(hits, f.daddr, ());
    TcClassifier.RunBuildsFlows(xs[..n]);
    SocketFilter.RunDrawsTickets(xs[..n], f.daddr);
    RoomToOffer(items, TcClassifier.FLOWS_CAP, TcClassifier.FirstPacket, TcClassifier.NextPacket, f,
                FlowsWith(flows, f, xs[n].len)[f]);
    RoomToOffer(hits, Tickets.COUNTS_CAP, Tickets.One, Tickets.PlusOne, f.daddr, Tickets.Draw(counts, f.daddr));
  }

  /** In runs of fewer than 2^64 packets the two are equal as numbers. */
  lemma {:induction false} CountsAreSums(xs: seq<Skb>, daddr: u32)
    requires |KeysOf(TcClassifier.Items(xs))| <= TcClassifier.FLOWS_CAP
    requires |xs| < 0x1_0000_0000_0000_0000
    ensures SumMap(PacketsTo(TcClassifier.Run(xs).flowStats, daddr))
         == if daddr in SocketFilter.Run(xs).counts then SocketFilter.Run(xs).counts[daddr] as nat else 0
  {
    TablesAgree(xs, daddr);
    var sum := SumMap(PacketsTo(TcClassifier.Run(xs).flowStats, daddr));
    NoWrap(sum);
    if daddr !in SocketFilter.Run(xs).counts {
      assert PacketsTo(TcClassifier.Run(xs).flowStats, daddr) == map[];
    }
  }
}
