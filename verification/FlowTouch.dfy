/** The first packets of a flow in the TC classifier, interleaved: a flow that is missing is looked
    up and then inserted with a count of 1, which is not atomic. */
module FlowTouch {
  import opened Words
  import opened BoundedTable
  import opened Sums
  import opened Headers
  import opened TcClassifier

  datatype Pc =
    | Lookup     // bpf_map_lookup_elem(&tc_flow_stats, &key)
    | Insert     // bpf_map_update_elem(.., &new_stats, BPF_ANY); the packet will report the count 1
    | AddPackets // __sync_fetch_and_add(&stats->packets, 1)
    | AddBytes   // __sync_fetch_and_add(&stats->bytes, skb->len)
    | Counted

  /** A classified packet.  `first` says that it found no entry and has inserted one. */
  datatype Packet = Packet(flow: Flow, len: u32, pc: Pc, first: bool)

  datatype Machine = Machine(table: map<Flow, FlowStats>, packets: seq<Packet>)

  datatype Act = Arrive(flow: Flow, len: u32) | Step(i: nat)

  predicate HasPointer(x: Packet) {
    x.pc == AddPackets || x.pc == AddBytes
  }

  ghost predicate ValidPacket(x: Packet, keys: set<Flow>) {
    (HasPointer(x) ==> x.flow in keys) && (x.first ==> x.pc == Counted)
  }

  ghost predicate Valid(s: Machine) {
    forall x :: x in s.packets ==> ValidPacket(x, s.table.Keys)
  }

  function NextPacketState(table: map<Flow, FlowStats>, x: Packet): Packet {
    match x.pc
    case Lookup => x.(pc := if x.flow in table then AddPackets else Insert)
    case Insert => x.(pc := Counted, first := true)
    case AddPackets => x.(pc := AddBytes)
    case AddBytes => x.(pc := Counted)
    case Counted => x
  }

  function NextTable(table: map<Flow, FlowStats>, x: Packet): map<Flow, FlowStats>
    requires HasPointer(x) ==> x.flow in table
  {
    match x.pc
    case Insert => Put(table, FLOWS_CAP, x.flow, FirstPacket(x.len))
    case AddPackets => table[x.flow := table[x.flow].(packets := Add64(table[x.flow].packets, 1))]
    case AddBytes => table[x.flow := table[x.flow].(bytes := Add64(table[x.flow].bytes, x.len))]
    case _ => table
  }

  function Next(s: Machine, i: nat): Machine
    requires Valid(s) && i < |s.packets|
  {
    assert s.packets[i] in s.packets;
    Machine(NextTable(s.table, s.packets[i]), s.packets[i := NextPacketState(s.table, s.packets[i])])
  }

  lemma {:induction false} TableGrows(table: map<Flow, FlowStats>, x: Packet)
    requires HasPointer(x) ==> x.flow in table
    ensures table.Keys <= NextTable(table, x).Keys
    ensures |table| <= |NextTable(table, x)|
  {
    PutKeys(table, FLOWS_CAP, x.flow, FirstPacket(x.len));
    SubsetOfSameSize(table.Keys, NextTable(table, x).Keys);
    assert |table.Keys| == |table| && |NextTable(table, x).Keys| == |NextTable(table, x)|;
  }

  lemma {:induction false} NextValid(s: Machine, i: nat)
    requires Valid(s) && i < |s.packets|
    ensures Valid(Next(s, i))
  {
    var r := Next(s, i);
    assert s.packets[i] in s.packets;
    TableGrows(s.table, s.packets[i]);
    forall x | x in r.packets
      ensures ValidPacket(x, r.table.Keys)
    {
      var j :| 0 <= j < |r.packets| && r.packets[j] == x;
      assert s.packets[j] in s.packets;
    }
  }

  function Do(s: Machine, a: Act): (r: Machine)
    requires Valid(s)
    ensures Valid(r)
  {
    match a
    case Arrive(flow, len) => s.(packets := s.packets + [Packet(flow, len, Lookup, false)])
    case Step(i) =>
      if i < |s.packets| then
        NextValid(s, i);
        Next(s, i)
      else s
  }

  /** A schedule: arrivals and steps in any order. */
  function Exec(s: Machine, acts: seq<Act>): (r: Machine)
    requires Valid(s)
    ensures Valid(r)
  {
    if acts == [] then s else Do(Exec(s, acts[..|acts| - 1]), acts[|acts| - 1])
  }

  // ---------------------------------------------------------------- accounts

  /** 1 for a packet of the flow that has made its count; 1 for one that has done so by inserting;
      the length of one that has made it count. */
  function PacketOf(f: Flow): Packet -> int {
    (x: Packet) => if x.flow == f && (x.pc == AddBytes || x.pc == Counted) then 1 else 0
  }

  function FirstOf(f: Flow): Packet -> int {
    (x: Packet) => if x.flow == f && x.first then 1 else 0
  }

  function BytesOf(f: Flow): Packet -> int {
    (x: Packet) => if x.flow == f && x.pc == Counted then x.len else 0
  }

  /** What a run from a missing flow leaves: a stored flow holds at most the packets that were
      counted, and all of them iff one packet only inserted it, and then all their bytes, too.  If
      the flow is not stored, packets were counted only by inserts into a full table. */
  ghost predicate Touched(s: Machine, f: Flow) {
    var packets, firsts := Sum(s.packets, PacketOf(f)), Sum(s.packets, FirstOf(f));
    if f in s.table then
      && 1 <= s.table[f].packets <= packets && firsts >= 1 && (s.table[f].packets == packets <==> firsts == 1)
      && (firsts == 1 ==> s.table[f].bytes == Wrap64(Sum(s.packets, BytesOf(f))))
    else
      packets == firsts >= 0 && (packets == 0 ==> Sum(s.packets, BytesOf(f)) == 0)
      && (packets == 0 || |s.table| >= FLOWS_CAP)
  }

  lemma {:induction false} AccountsAfter(packets: seq<Packet>, i: nat, x: Packet, f: Flow)
    requires i < |packets|
    ensures Sum(packets[i := x], PacketOf(f)) == Sum(packets, PacketOf(f)) - PacketOf(f)(packets[i]) + PacketOf(f)(x)
    ensures Sum(packets[i := x], FirstOf(f)) == Sum(packets, FirstOf(f)) - FirstOf(f)(packets[i]) + FirstOf(f)(x)
    ensures Sum(packets[i := x], BytesOf(f)) == Sum(packets, BytesOf(f)) - BytesOf(f)(packets[i]) + BytesOf(f)(x)
  {
    SumUpdate(packets, i, x, PacketOf(f));
    SumUpdate(packets, i, x, FirstOf(f));
    SumUpdate(packets, i, x, BytesOf(f));
  }

  lemma {:induction false} OtherTouched(s: Machine, i: nat, f: Flow)
    requires Valid(s) && i < |s.packets| && Touched(s, f)
    requires s.packets[i].flow != f || s.packets[i].pc == Lookup || s.packets[i].pc == Counted
    ensures Touched(Next(s, i), f)
  {
    var x := s.packets[i];
    assert x in s.packets;
    AccountsAfter(s.packets, i, NextPacketState(s.table, x), f);
    TableGrows(s.table, x);
    assert f in Next(s, i).table <==> f in s.table;
  }

  lemma {:induction false} InsertTouched(s: Machine, i: nat, f: Flow)
    requires Valid(s) && i < |s.packets| && Touched(s, f) && s.packets[i].flow == f && s.packets[i].pc == Insert
    ensures Touched(Next(s, i), f)
  {
    var x := s.packets[i];
    assert x in s.packets;
    AccountsAfter(s.packets, i, NextPacketState(s.table, x), f);
    NoWrap(x.len);
  }

  lemma {:induction false} AddTouched(s: Machine, i: nat, f: Flow)
    requires Valid(s) && i < |s.packets| && Touched(s, f) && s.packets[i].flow == f && HasPointer(s.packets[i])
    requires Sum(Next(s, i).packets, PacketOf(f)) < 0x1_0000_0000_0000_0000
    ensures Touched(Next(s, i), f)
  {
    var x := s.packets[i];
    assert x in s.packets;
    AccountsAfter(s.packets, i, NextPacketState(s.table, x), f);
    if x.pc == AddPackets {
      NoWrap(s.table[f].packets + 1);
    } else {
      AddWrapped(Sum(s.packets, BytesOf(f)), x.len);
    }
  }

  lemma {:induction false} CountGrows(s: Machine, a: Act, f: Flow)
    requires Valid(s)
    ensures Sum(s.packets, PacketOf(f)) <= Sum(Do(s, a).packets, PacketOf(f))
  {
    if a.Arrive? {
      SumSnoc(s.packets, Packet(a.flow, a.len, Lookup, false), PacketOf(f));
    } else if a.i < |s.packets| {
      SumUpdate(s.packets, a.i, NextPacketState(s.table, s.packets[a.i]), PacketOf(f));
    }
  }

  lemma {:induction false} ArrivalTouched(s: Machine, x: Packet, f: Flow)
    requires Touched(s, f) && x.pc == Lookup && !x.first
    ensures Touched(s.(packets := s.packets + [x]), f)
  {
    SumSnoc(s.packets, x, PacketOf(f));
    SumSnoc(s.packets, x, FirstOf(f));
    SumSnoc(s.packets, x, BytesOf(f));
  }

  lemma {:induction false} NothingCounted(packets: seq<Packet>, f: Flow)
    requires forall x :: x in packets ==> x.flow != f
    ensures Sum(packets, PacketOf(f)) == Sum(packets, FirstOf(f)) == Sum(packets, BytesOf(f)) == 0
  {
    if packets != [] {
      NothingCounted(packets[..|packets| - 1], f);
      assert packets[|packets| - 1] in packets;
    }
  }

  lemma {:induction false} RunTouched(s: Machine, acts: seq<Act>, f: Flow)
    requires Valid(s) && f !in s.table && forall x :: x in s.packets ==> x.flow != f
    requires Sum(Exec(s, acts).packets, PacketOf(f)) < 0x1_0000_0000_0000_0000
    ensures Touched(Exec(s, acts), f)
  {
    if acts == [] {
      NothingCounted(s.packets, f);
    } else {
      var m, a := Exec(s, acts[..|acts| - 1]), acts[|acts| - 1];
      CountGrows(m, a, f);
      RunTouched(s, acts[..|acts| - 1], f);
      if a.Arrive? {
        ArrivalTouched(m, Packet(a.flow, a.len, Lookup, false), f);
      } else if a.i < |m.packets| {
        StepTouched(m, a.i, f);
      }
    }
  }

  lemma {:induction false} StepTouched(s: Machine, i: nat, f: Flow)
    requires Valid(s) && i < |s.packets| && Touched(s, f)
    requires Sum(Next(s, i).packets, PacketOf(f)) < 0x1_0000_0000_0000_0000
    ensures Touched(Next(s, i), f)
  {
    if s.packets[i].flow != f || s.packets[i].pc == Lookup || s.packets[i].pc == Counted {
      OtherTouched(s, i, f);
    } else if s.packets[i].pc == Insert {
      InsertTouched(s, i, f);
    } else {
      AddTouched(s, i, f);
    }
  }

  /** First touch, exactly: on every run from a state without the flow, a stored flow holds at most
      the packets that were counted, and all of them if and only if only one packet inserted it (and
      reports the count 1 for that reason); then it holds all their bytes, too (modulo 2^64). */
  lemma {:induction false} CountIsExactIffOneInsert(s: Machine, acts: seq<Act>, r: Machine, f: Flow)
    requires Valid(s) && f !in s.table && (forall x :: x in s.packets ==> x.flow != f) && Exec(s, acts) == r
    requires f in r.table && Sum(r.packets, PacketOf(f)) < 0x1_0000_0000_0000_0000
    ensures r.table[f].packets <= Sum(r.packets, PacketOf(f))
    ensures r.table[f].packets == Sum(r.packets, PacketOf(f)) <==> Sum(r.packets, FirstOf(f)) == 1
    ensures Sum(r.packets, FirstOf(f)) == 1 ==> r.table[f].bytes == Wrap64(Sum(r.packets, BytesOf(f)))
  {
    RunTouched(s, acts, f);
    assert Touched(r, f);
  }
}
