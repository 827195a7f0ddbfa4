/** The statistics and the sampling of one stored flow in the TC classifier, under every
    interleaving of any number of packets.  Its counters are added to atomically, but the
    sampling test and the event read the packet count again, each with a plain load. */
module FlowRace {
  import opened Words
  import opened Sums
  import opened Tickets
  import opened TcClassifier
  import Headers

  datatype Pc =
    | AddPackets // __sync_fetch_and_add(&stats->packets, 1)
    | AddBytes   // __sync_fetch_and_add(&stats->bytes, skb->len)
    | Test       // stats->packets % 100
    | Report     // evt->count = stats->packets
    | Done

  /** A packet of the flow.  `own` is the packet count its add produced, `seen` the one its
      test loaded, `count` the one its event reports, if it attempts one.

      Two numbers that the program does not have record the schedule: `early` is the number of
      adds of other packets between its own add and its test, `late` that between its test and
      its report. */
  datatype Handler = Handler(len: u32, pc: Pc, own: u64, seen: u64, count: Option<u64>, early: nat, late: nat)

  datatype Machine = Machine(flow: FlowStats, handlers: seq<Handler>)

  datatype Act = Arrive(len: u32) | Step(i: nat)

  function Order(pc: Pc): nat {
    match pc case AddPackets => 0 case AddBytes => 1 case Test => 2 case Report => 3 case Done => 4
  }

  function Arrived(len: u32): Handler {
    Handler(len, AddPackets, 0, 0, None, 0, 0)
  }

  function NextFlow(st: FlowStats, h: Handler): FlowStats {
    match h.pc
    case AddPackets => st.(packets := Add64(st.packets, 1))
    case AddBytes => st.(bytes := Add64(st.bytes, h.len))
    case _ => st
  }

  function NextHandler(st: FlowStats, h: Handler): Handler {
    match h.pc
    case AddPackets => h.(pc := AddBytes, own := Add64(st.packets, 1))
    case AddBytes => h.(pc := Test)
    case Test => h.(pc := if st.packets % SAMPLING == 0 then Report else Done, seen := st.packets)
    case Report => h.(pc := Done, count := Some(st.packets))
    case Done => h
  }

  /** A handler that sees another packet added. */
  function Overtaken(h: Handler): Handler {
    match h.pc
    case AddBytes => h.(early := h.early + 1)
    case Test => h.(early := h.early + 1)
    case Report => h.(late := h.late + 1)
    case _ => h
  }

  function AllOvertaken(handlers: seq<Handler>): seq<Handler> {
    seq(|handlers|, j requires 0 <= j < |handlers| => Overtaken(handlers[j]))
  }

  /** The other handlers after a step of `h`. */
  function Others(handlers: seq<Handler>, h: Handler): (r: seq<Handler>)
    ensures |r| == |handlers|
  {
    if h.pc == AddPackets then AllOvertaken(handlers) else handlers
  }

  function Do(s: Machine, a: Act): Machine {
    match a
    case Arrive(len) => s.(handlers := s.handlers + [Arrived(len)])
    case Step(i) =>
      if i < |s.handlers| then
        var h := s.handlers[i];
        Machine(NextFlow(s.flow, h), Others(s.handlers, h)[i := NextHandler(s.flow, h)])
      else s
  }

  /** A schedule: arrivals and steps in any order. */
  function Exec(s: Machine, acts: seq<Act>): Machine {
    if acts == [] then s else Do(Exec(s, acts[..|acts| - 1]), acts[|acts| - 1])
  }

  // ---------------------------------------------------------------- sums over the handlers

  /** A weight that does not look at the recorded schedule. */
  ghost predicate Plain(f: Handler -> int) {
    forall h: Handler :: f(Overtaken(h)) == f(h)
  }

  lemma {:induction false} SumOvertaken(handlers: seq<Handler>, f: Handler -> int)
    requires Plain(f)
    ensures Sum(AllOvertaken(handlers), f) == Sum(handlers, f)
  {
    if handlers != [] {
      var n := |handlers| - 1;
      SumOvertaken(handlers[..n], f);
      assert AllOvertaken(handlers)[..n] == AllOvertaken(handlers[..n]);
      assert f(Overtaken(handlers[n])) == f(handlers[n]);
    }
  }

  lemma {:induction false} SumAfterStep(handlers: seq<Handler>, i: nat, h': Handler, f: Handler -> int)
    requires i < |handlers| && Plain(f)
    ensures Sum(Others(handlers, handlers[i])[i := h'], f) == Sum(handlers, f) - f(handlers[i]) + f(h')
  {
    SumOvertaken(handlers, f);
    SumUpdate(Others(handlers, handlers[i]), i, h', f);
    assert f(Overtaken(handlers[i])) == f(handlers[i]);
  }

  // ---------------------------------------------------------------- the counters

  function PacketAdded(): Handler -> int {
    (h: Handler) => if Order(h.pc) > 0 then 1 else 0
  }

  function BytesAdded(): Handler -> int {
    (h: Handler) => if Order(h.pc) > 1 then h.len else 0
  }

  /** The counters are their initial values plus what the handlers have added. */
  ghost predicate Exact(s: Machine, st: FlowStats) {
    && s.flow.packets == Wrap64(st.packets + Sum(s.handlers, PacketAdded()))
    && s.flow.bytes == Wrap64(st.bytes + Sum(s.handlers, BytesAdded()))
  }

  lemma {:induction false} StepIsExact(s: Machine, i: nat, st: FlowStats)
    requires Exact(s, st) && i < |s.handlers|
    ensures Exact(Do(s, Step(i)), st)
  {
    var h, h' := s.handlers[i], NextHandler(s.flow, s.handlers[i]);
    SumAfterStep(s.handlers, i, h', PacketAdded());
    SumAfterStep(s.handlers, i, h', BytesAdded());
    StepAdds(s.flow, h, st, Sum(s.handlers, PacketAdded()), Sum(s.handlers, BytesAdded()));
  }

  lemma {:induction false} StepAdds(now: FlowStats, h: Handler, st: FlowStats, packets: int, bytes: int)
    requires now.packets == Wrap64(st.packets + packets) && now.bytes == Wrap64(st.bytes + bytes)
    ensures var h' := NextHandler(now, h);
            && NextFlow(now, h).packets == Wrap64(st.packets + (packets - PacketAdded()(h) + PacketAdded()(h')))
            && NextFlow(now, h).bytes == Wrap64(st.bytes + (bytes - BytesAdded()(h) + BytesAdded()(h')))
  {
    AddWrapped(st.packets + packets, 1);
    AddWrapped(st.bytes + bytes, h.len);
  }

  /** Flow accounting under every schedule: packets and bytes grow by exactly what the packets
      past the two adds account for (modulo 2^64). */
  lemma {:induction false} ExactCounters(s: Machine, acts: seq<Act>)
    requires s.handlers == []
    ensures Exact(Exec(s, acts), s.flow)
  {
    if acts == [] {
      NoWrap(s.flow.packets);
      NoWrap(s.flow.bytes);
    } else {
      var m, a := Exec(s, acts[..|acts| - 1]), acts[|acts| - 1];
      ExactCounters(s, acts[..|acts| - 1]);
      if a.Step? && a.i < |m.handlers| {
        StepIsExact(m, a.i, s.flow);
      } else if a.Arrive? {
        SumSnoc(m.handlers, Arrived(a.len), PacketAdded());
        SumSnoc(m.handlers, Arrived(a.len), BytesAdded());
      }
    }
  }

  // ---------------------------------------------------------------- the loads

  /** What a handler has loaded, from its own number and the adds that overtook it; `now` is
      the current count. */
  ghost predicate Accounted(h: Handler, now: u64) {
    match h.pc
    case AddPackets => h == Arrived(h.len)
    case AddBytes => Unread(h) && now == Wrap64(h.own + h.early)
    case Test => Unread(h) && now == Wrap64(h.own + h.early)
    case Report =>
      && h.count == None && h.seen == Wrap64(h.own + h.early) && h.seen % SAMPLING == 0
      && now == Wrap64(h.seen + h.late)
    case Done =>
      && h.seen == Wrap64(h.own + h.early)
      && h.count == if h.seen % SAMPLING == 0 then Some(Wrap64(h.seen + h.late)) else None
  }

  ghost predicate Unread(h: Handler) {
    h.count == None && h.seen == 0 && h.late == 0
  }

  lemma {:induction false} OvertakenIsAccounted(h: Handler, now: u64)
    requires Accounted(h, now) && h.pc != AddPackets
    ensures Accounted(Overtaken(h), Add64(now, 1))
  {
    AddWrapped(h.own + h.early, 1);
    AddWrapped(h.seen + h.late, 1);
  }

  lemma {:induction false} StepIsAccounted(st: FlowStats, h: Handler)
    requires Accounted(h, st.packets)
    ensures Accounted(NextHandler(st, h), NextFlow(st, h).packets)
  {
    match h.pc
    case AddPackets => NoWrap(Add64(st.packets, 1));
    case AddBytes =>
    case Test => NoWrap(st.packets);
    case Report =>
    case Done =>
  }

  lemma {:induction false} ActIsAccounted(s: Machine, a: Act)
    requires forall h :: h in s.handlers ==> Accounted(h, s.flow.packets)
    ensures forall h :: h in Do(s, a).handlers ==> Accounted(h, Do(s, a).flow.packets)
  {
    var r := Do(s, a);
    if a.Step? && a.i < |s.handlers| {
      assert s.handlers[a.i] in s.handlers;
      StepIsAccounted(s.flow, s.handlers[a.i]);
      forall h | h in r.handlers
        ensures Accounted(h, r.flow.packets)
      {
        var j :| 0 <= j < |r.handlers| && r.handlers[j] == h;
        assert s.handlers[j] in s.handlers;
        if j != a.i && s.handlers[a.i].pc == AddPackets && s.handlers[j].pc != AddPackets {
          OvertakenIsAccounted(s.handlers[j], s.flow.packets);
        }
      }
    }
  }

  /** Under every schedule, in every reachable state: the count a packet tests is its own number
      plus the adds that fell between its add and its test, it attempts an event exactly if
      that count is a multiple of 100, and the count it reports is the tested one plus the adds
      that fell between its test and its report (modulo 2^64). */
  lemma {:induction false} LoadsAreAccounted(s: Machine, acts: seq<Act>)
    requires s.handlers == []
    ensures forall h :: h in Exec(s, acts).handlers ==> Accounted(h, Exec(s, acts).flow.packets)
  {
    if acts != [] {
      LoadsAreAccounted(s, acts[..|acts| - 1]);
      ActIsAccounted(Exec(s, acts[..|acts| - 1]), acts[|acts| - 1]);
    }
  }

  lemma {:induction false} AddedIsNatural(handlers: seq<Handler>)
    ensures 0 <= Sum(handlers, PacketAdded())
  {
    if handlers != [] {
      AddedIsNatural(handlers[..|handlers| - 1]);
    }
  }

  lemma {:induction false} AddedGrows(s: Machine, a: Act)
    ensures 0 <= Sum(s.handlers, PacketAdded()) <= Sum(Do(s, a).handlers, PacketAdded())
  {
    AddedIsNatural(s.handlers);
    if a.Step? && a.i < |s.handlers| {
      SumAfterStep(s.handlers, a.i, NextHandler(s.flow, s.handlers[a.i]), PacketAdded());
    } else if a.Arrive? {
      SumSnoc(s.handlers, Arrived(a.len), PacketAdded());
    }
  }

  ghost predicate WindowsWithin(handlers: seq<Handler>, total: nat) {
    forall h :: h in handlers ==> h.own + h.early + h.late <= total
  }

  /** All packets added so far, those before the schedule included. */
  ghost function AllAdds(st: FlowStats, handlers: seq<Handler>): (r: nat) {
    AddedIsNatural(handlers);
    st.packets + Sum(handlers, PacketAdded())
  }

  /** A packet's own number and the adds that overtook it do not exceed all adds together. */
  lemma {:induction false} WindowsFit(s: Machine, acts: seq<Act>)
    requires s.handlers == []
    ensures WindowsWithin(Exec(s, acts).handlers, AllAdds(s.flow, Exec(s, acts).handlers))
  {
    if acts != [] {
      var m := Exec(s, acts[..|acts| - 1]);
      WindowsFit(s, acts[..|acts| - 1]);
      ExactCounters(s, acts[..|acts| - 1]);
      LoadsAreAccounted(s, acts[..|acts| - 1]);
      ActKeepsWindows(m, acts[|acts| - 1], s.flow);
    }
  }

  lemma {:induction false} ActKeepsWindows(s: Machine, a: Act, st: FlowStats)
    requires s.flow.packets == Wrap64(AllAdds(st, s.handlers)) && WindowsWithin(s.handlers, AllAdds(st, s.handlers))
    requires forall h :: h in s.handlers ==> Accounted(h, s.flow.packets)
    ensures WindowsWithin(Do(s, a).handlers, AllAdds(st, Do(s, a).handlers))
  {
    var r, total := Do(s, a), AllAdds(st, s.handlers);
    ActDraws(s, a, 0);
    if a.Step? && a.i < |s.handlers| && s.handlers[a.i].pc == AddPackets {
      AddWrapped(total, 1);
      AddKeepsWindows(s, a.i, total);
    } else {
      forall h | h in r.handlers
        ensures h.own + h.early + h.late <= total
      {
        var j :| 0 <= j < |r.handlers| && r.handlers[j] == h;
        assert j < |s.handlers| ==> s.handlers[j] in s.handlers;
      }
    }
  }

  lemma {:induction false} AddKeepsWindows(s: Machine, i: nat, total: nat)
    requires i < |s.handlers| && s.handlers[i].pc == AddPackets && Accounted(s.handlers[i], s.flow.packets)
    requires Add64(s.flow.packets, 1) == Wrap64(total + 1) && WindowsWithin(s.handlers, total)
    ensures WindowsWithin(Do(s, Step(i)).handlers, total + 1)
  {
    var r := Do(s, Step(i));
    WrapAtMost(total + 1);
    forall h | h in r.handlers
      ensures h.own + h.early + h.late <= total + 1
    {
      var j :| 0 <= j < |r.handlers| && r.handlers[j] == h;
      assert s.handlers[j] in s.handlers;
    }
  }

  /** What the serial program reports for the packet with number `own` of a stored flow. */
  function SerialCount(own: u64): Option<u64> {
    if own % SAMPLING == 0 then Some(own) else None
  }

  /** When a finished packet reports what the serial program would: a packet whose number is a
      multiple of 100 iff no add overtook it, any other packet iff the adds before its test did
      not take the count to a multiple of 100. */
  lemma {:induction false} ReportIsSerialIff(s: Machine, acts: seq<Act>, h: Handler)
    requires s.handlers == [] && h in Exec(s, acts).handlers && h.pc == Done
    requires s.flow.packets + Sum(Exec(s, acts).handlers, PacketAdded()) < 0x1_0000_0000_0000_0000
    ensures h.count == SerialCount(h.own)
       <==> if h.own % SAMPLING == 0 then h.early + h.late == 0 else (h.own + h.early) % SAMPLING != 0
  {
    WindowsFit(s, acts);
    LoadsAreAccounted(s, acts);
    assert Accounted(h, Exec(s, acts).flow.packets);
    FinishedIsSerialIff(h, Exec(s, acts).flow.packets);
  }

  lemma {:induction false} FinishedIsSerialIff(h: Handler, now: u64)
    requires h.pc == Done && Accounted(h, now) && h.own + h.early + h.late < 0x1_0000_0000_0000_0000
    ensures h.count == SerialCount(h.own)
       <==> if h.own % SAMPLING == 0 then h.early + h.late == 0 else (h.own + h.early) % SAMPLING != 0
  {
    NoWrap(h.own + h.early);
    NoWrap(h.own + h.early + h.late);
  }

  // ---------------------------------------------------------------- undisturbed samples

  /** How many handlers drew, and how many reported, the number `t`. */
  function Drew(t: u64): Handler -> int {
    (h: Handler) => if Order(h.pc) > 0 && h.own == t then 1 else 0
  }

  function Reported(t: u64): Handler -> int {
    (h: Handler) => if h.count == Some(t) then 1 else 0
  }

  /** Below 2^64 the atomic add gives every number from n0 + 1 to n0 + n to exactly one packet. */
  lemma {:induction false} NumbersAreDistinct(s: Machine, acts: seq<Act>, t: u64)
    requires s.handlers == []
    requires s.flow.packets + Sum(Exec(s, acts).handlers, PacketAdded()) < 0x1_0000_0000_0000_0000
    ensures var r := Exec(s, acts);
            && r.flow.packets == s.flow.packets + Sum(r.handlers, PacketAdded())
            && Sum(r.handlers, Drew(t)) == if s.flow.packets < t <= r.flow.packets then 1 else 0
  {
    var r := Exec(s, acts);
    ExactCounters(s, acts);
    AddedIsNatural(r.handlers);
    NoWrap(s.flow.packets + Sum(r.handlers, PacketAdded()));
    if acts != [] {
      var m, a := Exec(s, acts[..|acts| - 1]), acts[|acts| - 1];
      AddedGrows(m, a);
      NumbersAreDistinct(s, acts[..|acts| - 1], t);
      ActDraws(m, a, t);
    }
  }

  /** An add draws the number after the current count, and nothing else draws. */
  lemma {:induction false} ActDraws(s: Machine, a: Act, t: u64)
    ensures var adds := a.Step? && a.i < |s.handlers| && s.handlers[a.i].pc == AddPackets;
            && Sum(Do(s, a).handlers, PacketAdded())
               == (if adds then Sum(s.handlers, PacketAdded()) + 1 else Sum(s.handlers, PacketAdded()))
            && Sum(Do(s, a).handlers, Drew(t))
               == (if adds && t == Add64(s.flow.packets, 1) then Sum(s.handlers, Drew(t)) + 1
                   else Sum(s.handlers, Drew(t)))
  {
    if a.Arrive? {
      SumSnoc(s.handlers, Arrived(a.len), PacketAdded());
      SumSnoc(s.handlers, Arrived(a.len), Drew(t));
    } else if a.i < |s.handlers| {
      SumAfterStep(s.handlers, a.i, NextHandler(s.flow, s.handlers[a.i]), PacketAdded());
      SumAfterStep(s.handlers, a.i, NextHandler(s.flow, s.handlers[a.i]), Drew(t));
    }
  }

  /** No add fell between a packet's own add and its report. */
  ghost predicate Undisturbed(handlers: seq<Handler>) {
    forall h :: h in handlers ==> h.pc == Done && h.early + h.late == 0
  }

  lemma {:induction false} UndisturbedReports(handlers: seq<Handler>, t: u64, now: u64)
    requires Undisturbed(handlers) && forall h :: h in handlers ==> Accounted(h, now)
    ensures Sum(handlers, Reported(t)) == if t % SAMPLING == 0 then Sum(handlers, Drew(t)) else 0
  {
    if handlers != [] {
      var n := |handlers| - 1;
      UndisturbedReports(handlers[..n], t, now);
      assert handlers[n] in handlers;
      NoWrap(handlers[n].own);
    }
  }

  /** If no add falls inside another packet's window, then once all packets are done the counts
      reported are exactly the multiples of 100 above n0 up to n0 + n, each once. */
  lemma {:induction false} UndisturbedSamples(s: Machine, acts: seq<Act>, t: u64)
    requires s.handlers == [] && Undisturbed(Exec(s, acts).handlers)
    requires s.flow.packets + Sum(Exec(s, acts).handlers, PacketAdded()) < 0x1_0000_0000_0000_0000
    ensures var r := Exec(s, acts);
            Sum(r.handlers, Reported(t)) == if t % SAMPLING == 0 && s.flow.packets < t <= r.flow.packets then 1 else 0
  {
    LoadsAreAccounted(s, acts);
    NumbersAreDistinct(s, acts, t);
    UndisturbedReports(Exec(s, acts).handlers, t, Exec(s, acts).flow.packets);
  }

  // ---------------------------------------------------------------- what the loads do lose

  ghost predicate Reaches(s: Machine, r: Machine) {
    exists acts :: Exec(s, acts) == r
  }

  lemma {:induction false} Leads(s: Machine, m: Machine, a: Act, r: Machine)
    requires Reaches(s, m) && Do(m, a) == r
    ensures Reaches(s, r)
  {
    var acts :| Exec(s, acts) == m;
    assert (acts + [a])[..|acts|] == acts;
    assert Exec(s, acts + [a]) == r;
  }

  /** A flow of `n` packets, and two more packets without payload. */
  function Two(n: u64, a: Handler, b: Handler): Machine {
    Machine(FlowStats(n, 0), [a, b])
  }

  function Quiet(n: u64): Machine {
    Machine(FlowStats(n, 0), [])
  }

  function At(pc: Pc, own: u64, early: nat): Handler {
    Handler(0, pc, own, 0, None, early, 0)
  }

  lemma {:induction false} BothArrive(n: u64)
    ensures Reaches(Quiet(n), Two(n, Arrived(0), Arrived(0)))
  {
    assert Exec(Quiet(n), []) == Quiet(n);
    Leads(Quiet(n), Quiet(n), Arrive(0), Quiet(n).(handlers := [Arrived(0)]));
    Leads(Quiet(n), Quiet(n).(handlers := [Arrived(0)]), Arrive(0), Two(n, Arrived(0), Arrived(0)));
  }

  /** A step of the first of the two packets that adds no packet. */
  lemma {:induction false} FirstReads(s: Machine, n: u64, a: Handler, b: Handler)
    requires a.pc != AddPackets && a.len == 0 && Reaches(s, Two(n, a, b))
    ensures Reaches(s, Two(n, NextHandler(FlowStats(n, 0), a), b))
  {
    Leads(s, Two(n, a, b), Step(0), Two(n, NextHandler(FlowStats(n, 0), a), b));
  }

  lemma {:induction false} SecondReads(s: Machine, n: u64, a: Handler, b: Handler)
    requires b.pc != AddPackets && b.len == 0 && Reaches(s, Two(n, a, b))
    ensures Reaches(s, Two(n, a, NextHandler(FlowStats(n, 0), b)))
  {
    Leads(s, Two(n, a, b), Step(1), Two(n, a, NextHandler(FlowStats(n, 0), b)));
  }

  lemma {:induction false} FirstAdds(s: Machine, n: u64, b: Handler)
    requires n + 1 < 0x1_0000_0000_0000_0000 && Reaches(s, Two(n, Arrived(0), b))
    ensures Reaches(s, Two(n + 1, At(AddBytes, n + 1, 0), Overtaken(b)))
  {
    Leads(s, Two(n, Arrived(0), b), Step(0), Two(n + 1, At(AddBytes, n + 1, 0), Overtaken(b)));
  }

  lemma {:induction false} SecondAdds(s: Machine, n: u64, a: Handler)
    requires n + 1 < 0x1_0000_0000_0000_0000 && Reaches(s, Two(n, a, Arrived(0)))
    ensures Reaches(s, Two(n + 1, Overtaken(a), At(AddBytes, n + 1, 0)))
  {
    Leads(s, Two(n, a, Arrived(0)), Step(1), Two(n + 1, Overtaken(a), At(AddBytes, n + 1, 0)));
  }

  /** Both packets add before either of them tests. */
  lemma {:induction false} BothAdd(n: u64)
    requires n + 2 < 0x1_0000_0000_0000_0000
    ensures Reaches(Quiet(n), Two(n + 2, At(Test, n + 1, 1), At(Test, n + 2, 0)))
  {
    BothArrive(n);
    FirstAdds(Quiet(n), n, Arrived(0));
    SecondAdds(Quiet(n), n + 1, At(AddBytes, n + 1, 0));
    FirstReads(Quiet(n), n + 2, At(AddBytes, n + 1, 1), At(AddBytes, n + 2, 0));
    SecondReads(Quiet(n), n + 2, At(Test, n + 1, 1), At(AddBytes, n + 2, 0));
  }

  /** Every sample can be missed: when the next packet would be a hundredth one, that packet and
      the one after it can both be done without an event. */
  lemma {:induction false} SampleMissed(n: u64)
    requires n % 100 == 99 && n + 2 < 0x1_0000_0000_0000_0000
    ensures Reaches(Quiet(n), Two(n + 2, At(Done, n + 1, 1).(seen := n + 2), At(Done, n + 2, 0).(seen := n + 2)))
  {
    BothAdd(n);
    BothSkip(Quiet(n), n + 2, At(Test, n + 1, 1), At(Test, n + 2, 0));
  }

  /** Two packets that test another count. */
  lemma {:induction false} BothSkip(s: Machine, n: u64, a: Handler, b: Handler)
    requires n % 100 != 0 && a.pc == b.pc == Test && a.len == b.len == 0 && Reaches(s, Two(n, a, b))
    ensures Reaches(s, Two(n, a.(pc := Done, seen := n), b.(pc := Done, seen := n)))
  {
    FirstReads(s, n, a, b);
    SecondReads(s, n, a.(pc := Done, seen := n), b);
  }

  /** Every sample can be taken twice: a hundredth packet and the one before it can both report
      the same count. */
  lemma {:induction false} SampleDoubled(n: u64)
    requires n % 100 == 98 && n + 2 < 0x1_0000_0000_0000_0000
    ensures Reaches(Quiet(n), Two(n + 2, At(Done, n + 1, 1).(seen := n + 2, count := Some(n + 2)),
                                         At(Done, n + 2, 0).(seen := n + 2, count := Some(n + 2))))
  {
    BothAdd(n);
    BothSample(Quiet(n), n + 2, At(Test, n + 1, 1), At(Test, n + 2, 0));
  }

  /** Two packets that test a hundredth count, and then both report it. */
  lemma {:induction false} BothSample(s: Machine, n: u64, a: Handler, b: Handler)
    requires n % 100 == 0 && a.pc == b.pc == Test && a.len == b.len == 0 && Reaches(s, Two(n, a, b))
    ensures Reaches(s, Two(n, a.(pc := Done, seen := n, count := Some(n)), b.(pc := Done, seen := n, count := Some(n))))
  {
    var a', b' := a.(pc := Report, seen := n), b.(pc := Report, seen := n);
    FirstReads(s, n, a, b);
    SecondReads(s, n, a', b);
    FirstReads(s, n, a', b');
    SecondReads(s, n, a'.(pc := Done, count := Some(n)), b');
  }

  lemma {:induction false} FirstSamples(n: u64)
    requires n % 100 == 99 && n + 2 < 0x1_0000_0000_0000_0000
    ensures Reaches(Quiet(n), Two(n + 1, At(Report, n + 1, 0).(seen := n + 1), Arrived(0)))
  {
    BothArrive(n);
    FirstAdds(Quiet(n), n, Arrived(0));
    FirstReads(Quiet(n), n + 1, At(AddBytes, n + 1, 0), Arrived(0));
    FirstReads(Quiet(n), n + 1, At(Test, n + 1, 0), Arrived(0));
  }

  /** Every sample can be mislabelled: a hundredth packet can report the count after its own. */
  lemma {:induction false} SampleMislabelled(n: u64)
    requires n % 100 == 99 && n + 2 < 0x1_0000_0000_0000_0000
    ensures Reaches(Quiet(n), Two(n + 2, Handler(0, Done, n + 1, n + 1, Some(n + 2), 0, 1), At(AddBytes, n + 2, 0)))
  {
    var a := At(Report, n + 1, 0).(seen := n + 1);
    FirstSamples(n);
    SecondAdds(Quiet(n), n + 1, a);
    FirstReads(Quiet(n), n + 2, a.(late := 1), At(AddBytes, n + 2, 0));
  }

  // ---------------------------------------------------------------- without interleaving

  /** The handler and the flow after it has run on undisturbed. */
  function Finish(st: FlowStats, h: Handler): (FlowStats, Handler)
    decreases 4 - Order(h.pc)
  {
    if h.pc == Done then (st, h) else Finish(NextFlow(st, h), NextHandler(st, h))
  }

  /** Undisturbed, the steps of a packet are the serial update of its flow, and it reports what
      the serial program reports. */
  lemma {:induction false} UndisturbedIsSerial(
    st: FlowStats, len: u32, flowStats: map<Headers.Flow, FlowStats>, flow: Headers.Flow)
    requires flow in flowStats && flowStats[flow] == st
    ensures Finish(st, Arrived(len)).0 == NextPacket(st, len)
    ensures Finish(st, Arrived(len)).1.count
         == TcClassifier.Report(flowStats, flow) == SerialCount(NextPacket(st, len).packets)
  {
    var h := Arrived(len);
    var st1 := NextFlow(st, h);
    var st2, h2 := NextFlow(st1, NextHandler(st, h)), NextHandler(st1, NextHandler(st, h));
    assert Finish(st, h) == Finish(st1, NextHandler(st, h)) == Finish(st2, h2);
    var h3 := NextHandler(st2, h2);
    assert Finish(st2, h2) == Finish(st2, h3);
    if h3.pc == Report {
      assert Finish(st2, h3) == Finish(st2, NextHandler(st2, h3));
    }
  }
}
