/** The S2 uretprobe program: per-process latency statistics of a user-space function. */
module Uretprobe {
  import opened Words
  import opened BoundedTable
  import opened CallMatching
  import opened Probes
  import opened LatencyStats
  import opened Sums
  import opened Traces

  datatype Event = Event(pid: u32, tid: u32, entryTs: u64, exitTs: u64, latency: u64, retval: s64)

  datatype State = State(entryTimes: map<u64, u64>, latencyStats: map<u32, Stats>, events: seq<Event>)

  const LOADED := State(map[], map[], [])

  function MakeEvent(pidTgid: u64, entryTs: u64, now: u64, retval: s64): Event {
    Event(PidOf(pidTgid), TidOf(pidTgid), entryTs, now, Sub64(now, entryTs), retval)
  }

  /** The effect of one probe as a function of the maps. */
  function After(s: State, p: Probe): State {
    match p
    case Entry(id, now) => s.(entryTimes := Put(s.entryTimes, START_CAP, id, now))
    case Return(id, now, retval, ok) =>
      if id !in s.entryTimes then s
      else if !ok then s.(entryTimes := s.entryTimes - {id})
      else
        var evt := MakeEvent(id, s.entryTimes[id], now, retval);
        State(s.entryTimes - {id},
              Offer(s.latencyStats, STATS_CAP, evt.pid, evt.latency, First, Record),
              s.events + [evt])
  }

  class Program {
    var entryTimes: map<u64, u64>
    var latencyStats: map<u32, Stats>
    var events: seq<Event>

    ghost function Maps(): State
      reads this
    {
      State(entryTimes, latencyStats, events)
    }

    constructor ()
      ensures Maps() == LOADED
    {
      entryTimes, latencyStats, events := map[], map[], [];
    }

    method OnEntry(pidTgid: u64, now: u64)
      modifies this
      ensures Maps() == After(old(Maps()), Entry(pidTgid, now))
      ensures var stored := pidTgid in old(entryTimes) || |old(entryTimes)| < 10240;
              Lookup(entryTimes, pidTgid) == if stored then Some(now) else None
      ensures entryTimes - {pidTgid} == old(entryTimes) - {pidTgid}
      ensures latencyStats == old(latencyStats) && events == old(events)
    {
      entryTimes := Put(entryTimes, START_CAP, pidTgid, now);
    }

    method OnReturn(pidTgid: u64, now: u64, retval: s64, reserveOk: bool)
      modifies this
      ensures Maps() == After(old(Maps()), Return(pidTgid, now, retval, reserveOk))
    {
      var pid := PidOf(pidTgid);
      if pidTgid !in entryTimes {
        return;
      }
      var entryTs := entryTimes[pidTgid];
      var latency := Sub64(now, entryTs);
      if reserveOk {
        events := events + [Event(pid, TidOf(pidTgid), entryTs, now, latency, retval)];
        if pid !in latencyStats {
          latencyStats := Put(latencyStats, STATS_CAP, pid, Stats(1, latency, latency, latency));
        } else {
          latencyStats := RecordInPlace(latencyStats, pid, latency);
        }
      }
      entryTimes := entryTimes - {pidTgid};
    }
  }

  // ---------------------------------------------------------------- whole runs

  function Run(probes: seq<Probe>): State {
    if probes == [] then LOADED else After(Run(probes[..|probes| - 1]), probes[|probes| - 1])
  }

  function Items(events: seq<Event>): seq<(u32, u64)> {
    seq(|events|, i requires 0 <= i < |events| => (events[i].pid, events[i].latency))
  }

  /** The latencies of one process in the event stream, in order. */
  ghost function LatenciesOf(events: seq<Event>, pid: u32): seq<u64> {
    ValuesOf(Items(events), pid)
  }

  lemma {:induction false} ItemsSnoc(events: seq<Event>, e: Event)
    ensures Items(events + [e]) == Items(events) + [(e.pid, e.latency)]
  {
  }

  lemma {:induction false} StatsAreBuilt(probes: seq<Probe>)
    ensures Run(probes).latencyStats == Build(Items(Run(probes).events), STATS_CAP, First, Record)
  {
    if probes != [] {
      var n := |probes| - 1;
      StatsAreBuilt(probes[..n]);
      var s, s' := Run(probes[..n]), Run(probes);
      if s'.events != s.events {
        var e := s'.events[|s.events|];
        assert s'.events == s.events + [e];
        ItemsSnoc(s.events, e);
        assert Items(s'.events)[..|s.events|] == Items(s.events);
      }
    }
  }

  /** Replay: whatever reservations were refused and however many processes there were, the
      statistics are exactly what a reader of the event stream computes, for exactly the first
      1024 distinct processes in that stream. */
  lemma {:induction false} Replay(probes: seq<Probe>, pid: u32)
    ensures var s := Run(probes);
            && (pid in s.latencyStats <==> Admitted(Items(s.events), 1024, pid))
            && (pid in s.latencyStats ==> Summarises(s.latencyStats[pid], LatenciesOf(s.events, pid)))
  {
    StatsAreBuilt(probes);
    var items := Items(Run(probes).events);
    BuildAdmits(items, STATS_CAP, First, Record, pid);
    if pid in Run(probes).latencyStats {
      BuildIsFold(items, STATS_CAP, First, Record, pid);
      FoldSummarises(ValuesOf(items, pid));
    }
  }

  // ---------------------------------------------------------------- what the events say

  /** A return that finds a start entry and gets its reservation. */
  ghost function Submits(probes: seq<Probe>): nat -> bool {
    (i: nat) =>
      i < |probes| && probes[i].Return? && probes[i].reserveOk
      && probes[i].pidTgid in Run(probes[..i]).entryTimes
  }

  /** An event carries the halves of the thread key, the two times, their difference and the
      return value of its return. */
  ghost function TellsOf(probes: seq<Probe>): (Event, nat) -> bool {
    (e: Event, i: nat) =>
      i < |probes| && probes[i].Return?
      && probes[i].pidTgid == e.pid * 0x1_0000_0000 + e.tid
      && e.exitTs == probes[i].now && Lookup(Run(probes[..i]).entryTimes, probes[i].pidTgid) == Some(e.entryTs)
      && e.latency == (e.exitTs - e.entryTs) % 0x1_0000_0000_0000_0000
      && e.retval == probes[i].retval
  }

  /** The event stream of every run, exactly: one event for each matched return with a granted
      reservation, in order, each saying what its own return was. */
  lemma {:induction false} EventsTell(probes: seq<Probe>, n: nat)
    requires n <= |probes|
    ensures Faithful(Run(probes[..n]).events, n, Submits(probes), TellsOf(probes))
  {
    if n > 0 {
      EventsTell(probes, n - 1);
      assert probes[..n][..n - 1] == probes[..n - 1];
      var s, p := Run(probes[..n - 1]), probes[n - 1];
      assert Run(probes[..n]) == After(s, p);
      var more := if Submits(probes)(n - 1)
                  then [MakeEvent(p.pidTgid, s.entryTimes[p.pidTgid], p.now, p.retval)] else [];
      KeyParts(p.pidTgid, PidOf(p.pidTgid), TidOf(p.pidTgid));
      assert Run(probes[..n]).events == s.events + more;
      FaithfulNext(s.events, more, n - 1, Submits(probes), TellsOf(probes));
    }
  }

  // ---------------------------------------------------------------- matching and nested calls

  /** Only a matched exit with a granted reservation becomes an event. */
  function EventsOf(log: seq<Exit>): seq<Event> {
    if log == [] then []
    else
      var x := log[|log| - 1];
      EventsOf(log[..|log| - 1]) + EventsOfExit(x)
  }

  function EventsOfExit(x: Exit): seq<Event> {
    if x.entry.Some? && x.reserveOk then [MakeEvent(x.tid, x.entry.value, x.ts, x.retval)] else []
  }

  lemma {:induction false} EventsOfSnoc(log: seq<Exit>, x: Exit)
    ensures EventsOf(log + [x]) == EventsOf(log) + EventsOfExit(x)
  {
    assert (log + [x])[..|log|] == log;
  }

  lemma {:induction false} EventsOfConcat(a: seq<Exit>, b: seq<Exit>)
    ensures EventsOf(a + b) == EventsOf(a) + EventsOf(b)
  {
    if b == [] {
      assert a + b == a;
    } else {
      var b', x := b[..|b| - 1], b[|b| - 1];
      calc {
        EventsOf(a + b);
        { assert (a + b)[..|a + b| - 1] == a + b'; }
        EventsOf(a + b') + EventsOfExit(x);
        { EventsOfConcat(a, b'); }
        EventsOf(a) + EventsOf(b') + EventsOfExit(x);
        EventsOf(a) + EventsOf(b);
      }
    }
  }

  /** The program is the call matcher followed by a consumer of its exits. */
  lemma {:induction false} RunIsMatching(probes: seq<Probe>)
    ensures Run(probes).entryTimes == Match(FRESH, AllSteps(probes)).times
    ensures Run(probes).events == EventsOf(Match(FRESH, AllSteps(probes)).log)
  {
    if probes != [] {
      var n := |probes| - 1;
      RunIsMatching(probes[..n]);
      MatchConcat(FRESH, AllSteps(probes[..n]), StepsOfProbe(probes[n]));
      AfterIsMatching(Run(probes[..n]), Match(FRESH, AllSteps(probes[..n])), probes[n]);
    }
  }

  lemma {:induction false} AfterIsMatching(s: State, m: Matcher, p: Probe)
    requires s.entryTimes == m.times && s.events == EventsOf(m.log)
    ensures After(s, p).entryTimes == Match(m, StepsOfProbe(p)).times
    ensures After(s, p).events == EventsOf(Match(m, StepsOfProbe(p)).log)
  {
    match p
    case Entry(id, now) =>
      assert [Enter(id, now)] == [] + [Enter(id, now)];
      MatchSnoc(m, [], Enter(id, now));
    case Return(id, now, retval, ok) =>
      StepsOfReturn(m, id, now, retval, ok);
      EventsOfSnoc(m.log, Exit(id, now, Find(m.times, id), retval, ok));
      assert id !in m.times ==> m.times - {id} == m.times;
  }

  /** The events of a forest: one for each leaf call with a granted reservation. */
  function LeafEvents(id: u64, c: Calls): seq<Event> {
    if c.NoCalls? then []
    else (if c.inner.Call? then LeafEvents(id, c.inner) else LeafEvent(id, c)) + LeafEvents(id, c.rest)
  }

  function LeafEvent(id: u64, c: Calls): seq<Event>
    requires c.Call?
  {
    if c.reserveOk then [MakeEvent(id, c.entry, c.exit, c.retval)] else []
  }

  /** After any history, a forest of nested calls adds to the event stream exactly its leaf
      calls with a granted reservation if the thread gets a start slot, and nothing if not. */
  lemma {:induction false} NestedCalls(history: seq<Probe>, id: u64, c: Calls)
    ensures var s, s' := Run(history), Run(history + ProbesOf(id, c));
            var room := |s.entryTimes - {id}| < START_CAP;
            && s'.events == s.events + (if room then LeafEvents(id, c) else [])
            && (room && c.Call? ==> s'.entryTimes == s.entryTimes - {id})
            && (!room ==> s'.entryTimes == s.entryTimes)
  {
    var m := Match(FRESH, AllSteps(history));
    RunIsMatching(history);
    RunIsMatching(history + ProbesOf(id, c));
    AllStepsConcat(history, ProbesOf(id, c));
    ProbesAreSteps(id, c);
    MatchConcat(FRESH, AllSteps(history), StepsOf(id, c));
    if HasRoom(m, id) {
      NestedCallsMatchLeaves(m, id, c);
      EventsOfConcat(m.log, LeafExits(id, c));
      LeafEventsAre(id, c);
    } else {
      TimesBounded(AllSteps(history));
      FullOfOthers(m.times, id);
      NestedCallsLostWhenFull(m, id, c);
      EventsOfConcat(m.log, LostExits(id, c));
      LostExitsAreSilent(id, c);
    }
  }

  lemma {:induction false} LostExitsAreSilent(id: u64, c: Calls)
    ensures EventsOf(LostExits(id, c)) == []
  {
    if c.Call? {
      LostExitsAreSilent(id, c.inner);
      LostExitsAreSilent(id, c.rest);
      EventsOfSnoc(LostExits(id, c.inner), ExitOf(id, c, None));
      EventsOfConcat(LostExits(id, c.inner) + [ExitOf(id, c, None)], LostExits(id, c.rest));
    }
  }

  lemma {:induction false} LeafEventsAre(id: u64, c: Calls)
    ensures EventsOf(LeafExits(id, c)) == LeafEvents(id, c)
  {
    if c.Call? {
      LeafEventsAre(id, c.inner);
      LeafEventsAre(id, c.rest);
      var x := ExitOf(id, c, if c.inner.NoCalls? then Some(c.entry) else None);
      OuterExit(LeafExits(id, c.inner), x);
      EventsOfConcat(LeafExits(id, c.inner) + [x], LeafExits(id, c.rest));
    }
  }

  /** An exit adds its event to those of the calls inside it, if it has one. */
  lemma {:induction false} OuterExit(inner: seq<Exit>, x: Exit)
    requires x.entry.Some? ==> inner == []
    ensures EventsOf(inner + [x]) == if x.entry.Some? then EventsOfExit(x) else EventsOf(inner)
  {
    EventsOfSnoc(inner, x);
    if x.entry.None? {
      assert EventsOf(inner) + [] == EventsOf(inner);
    }
  }

  function Latencies(events: seq<Event>): seq<u64> {
    seq(|events|, i requires 0 <= i < |events| => events[i].latency)
  }

  const LATENCY: u64 -> int := (l: u64) => l

  /** Number, process and latencies of the events of a forest. */
  lemma {:induction false} LeafEventTotals(id: u64, c: Calls)
    ensures |LeafEvents(id, c)| == GrantedLeaves(c)
    ensures forall e :: e in LeafEvents(id, c) ==> e.pid == PidOf(id)
    ensures Sum(Latencies(LeafEvents(id, c)), LATENCY) == GrantedTime(c)
  {
    if c.Call? {
      LeafEventTotals(id, c.inner);
      LeafEventTotals(id, c.rest);
      LeafEventTime(id, c);
      SumOfTwo(if c.inner.Call? then LeafEvents(id, c.inner) else LeafEvent(id, c), LeafEvents(id, c.rest));
    }
  }

  lemma {:induction false} LeafEventTime(id: u64, c: Calls)
    requires c.Call?
    ensures Sum(Latencies(LeafEvent(id, c)), LATENCY) == if c.reserveOk then Sub64(c.exit, c.entry) else 0
  {
    if c.reserveOk {
      assert Latencies(LeafEvent(id, c)) == [] + [Sub64(c.exit, c.entry)];
      SumSnoc([], Sub64(c.exit, c.entry), LATENCY);
    }
  }

  lemma {:induction false} SumOfTwo(a: seq<Event>, b: seq<Event>)
    ensures Sum(Latencies(a + b), LATENCY) == Sum(Latencies(a), LATENCY) + Sum(Latencies(b), LATENCY)
  {
    assert Latencies(a + b) == Latencies(a) + Latencies(b);
    SumConcat(Latencies(a), Latencies(b), LATENCY);
  }

  /** The count and total of a process, 0 if it is not stored. */
  function CountIn(st: Option<Stats>): u64 {
    if st.Some? then st.value.count else 0
  }

  function TotalIn(st: Option<Stats>): u64 {
    if st.Some? then st.value.total else 0
  }

  function CountOf(s: State, pid: u32): u64 {
    CountIn(Lookup(s.latencyStats, pid))
  }

  lemma {:induction false} FoldGrows(st: Option<Stats>, latencies: seq<u64>)
    ensures CountIn(FoldFrom(st, latencies, First, Record)) == Wrap64(CountIn(st) + |latencies|)
    ensures TotalIn(FoldFrom(st, latencies, First, Record)) == Wrap64(TotalIn(st) + Sum(latencies, LATENCY))
  {
    if latencies == [] {
      NoWrap(CountIn(st));
      NoWrap(TotalIn(st));
    } else {
      var n := |latencies| - 1;
      FoldGrows(st, latencies[..n]);
      RecordGrows(FoldFrom(st, latencies[..n], First, Record), latencies[n]);
      AddWrapped(CountIn(st) + n, 1);
      AddWrapped(TotalIn(st) + Sum(latencies[..n], LATENCY), latencies[n]);
    }
  }

  lemma {:induction false} RecordGrows(st: Option<Stats>, latency: u64)
    ensures var st' := if st.Some? then Record(st.value, latency) else First(latency);
            st'.count == Add64(CountIn(st), 1) && st'.total == Add64(TotalIn(st), latency)
  {
    NoWrap(latency);
  }

  lemma {:induction false} ItemsTagged(events: seq<Event>, more: seq<Event>, pid: u32)
    requires forall e :: e in more ==> e.pid == pid
    ensures Items(events + more) == Items(events) + Tagged(pid, Latencies(more))
  {
    forall i | 0 <= i < |more|
      ensures more[i].pid == pid
    {
      assert more[i] in more;
    }
  }

  /** The statistics are those of the event stream; see StatsAreBuilt. */
  ghost predicate Built(s: State) {
    s.latencyStats == Build(Items(s.events), STATS_CAP, First, Record)
  }

  /** Events of one process, submitted after any others, are folded into its entry if it has or
      gets a slot, and change nothing otherwise. */
  lemma {:induction false} EventsFold(s: State, s': State, more: seq<Event>, pid: u32)
    requires Built(s) && Built(s') && s'.events == s.events + more && forall e :: e in more ==> e.pid == pid
    ensures if HasSlot(s.latencyStats, STATS_CAP, pid)
            then Lookup(s'.latencyStats, pid) == FoldFrom(Lookup(s.latencyStats, pid), Latencies(more), First, Record)
            else s'.latencyStats == s.latencyStats
  {
    ItemsTagged(s.events, more, pid);
    BuildExtend(Items(s.events), pid, Latencies(more), STATS_CAP, First, Record);
  }

  /** The thread gets a start slot and its process a statistics slot. */
  predicate Tracked(s: State, id: u64, pid: u32) {
    |s.entryTimes - {id}| < 10240 && HasSlot(s.latencyStats, 1024, pid)
  }

  /** The entry of a process grows by a number of events and their time, or, if it is not
      tracked, not at all. */
  ghost predicate Grown(st: Option<Stats>, st': Option<Stats>, tracked: bool, n: nat, time: int) {
    if tracked then CountIn(st') == Wrap64(CountIn(st) + n) && TotalIn(st') == Wrap64(TotalIn(st) + time)
    else CountIn(st') == CountIn(st) && TotalIn(st') == TotalIn(st)
  }

  /** After any history, of this and any other threads: a forest of nested calls of thread `t` of
      process `pid` grows the count of the process by its leaf calls with a granted reservation,
      and the total by their durations, if there is a slot in both maps; otherwise it grows
      neither. */
  lemma {:induction false} NestedTotals(history: seq<Probe>, id: u64, pid: u32, t: u32, c: Calls)
    requires id == pid * 0x1_0000_0000 + t
    ensures var s, s' := Run(history), Run(history + ProbesOf(id, c));
            Grown(Lookup(s.latencyStats, pid), Lookup(s'.latencyStats, pid), Tracked(s, id, pid),
                  GrantedLeaves(c), GrantedTime(c))
  {
    KeyParts(id, pid, t);
    NestedCalls(history, id, c);
    StatsAreBuilt(history);
    StatsAreBuilt(history + ProbesOf(id, c));
    LeafEventTotals(id, c);
    var s, s' := Run(history), Run(history + ProbesOf(id, c));
    ForestFold(s, s', id, LeafEvents(id, c));
    FoldIsGrowth(Lookup(s.latencyStats, pid), Lookup(s'.latencyStats, pid), Tracked(s, id, pid),
                 Latencies(LeafEvents(id, c)));
  }

  lemma {:induction false} LeafEventsOwn(id: u64, pid: u32, t: u32, c: Calls)
    requires id == pid * 0x1_0000_0000 + t
    ensures forall e :: e in LeafEvents(id, c) ==> e.pid == pid && e.tid == t
  {
    KeyParts(id, pid, t);
    if c.Call? {
      LeafEventsOwn(id, pid, t, c.inner);
      LeafEventsOwn(id, pid, t, c.rest);
    }
  }

  /** Two threads of one process share its entry: after forests of calls of both, it is the old
      entry with the latencies of the leaf calls of both folded in. */
  lemma {:induction false} ThreadsShareAnEntry(
    history: seq<Probe>, first: seq<Probe>, both: seq<Probe>, pid: u32, t: u32, u: u32, a: u64, b: u64,
    c: Calls, d: Calls)
    requires a == pid * 0x1_0000_0000 + t && b == pid * 0x1_0000_0000 + u
    requires first == history + ProbesOf(a, c) && both == first + ProbesOf(b, d)
    requires |Run(history).entryTimes - {a}| < 10240 && |Run(first).entryTimes - {b}| < 10240
    requires HasSlot(Run(history).latencyStats, 1024, pid)
    ensures Lookup(Run(both).latencyStats, pid)
         == FoldFrom(Lookup(Run(history).latencyStats, pid), Latencies(LeafEvents(a, c) + LeafEvents(b, d)),
                     First, Record)
  {
    NestedCalls(history, a, c);
    NestedCalls(first, b, d);
    LeafEventsOwn(a, pid, t, c);
    LeafEventsOwn(b, pid, u, d);
    StatsAreBuilt(history);
    StatsAreBuilt(both);
    BothFold(Run(history), Run(first), Run(both), LeafEvents(a, c), LeafEvents(b, d), pid);
  }

  lemma {:induction false} BothFold(s: State, s': State, s'': State, a: seq<Event>, b: seq<Event>, pid: u32)
    requires Built(s) && Built(s'') && s'.events == s.events + a && s''.events == s'.events + b
    requires (forall e :: e in a ==> e.pid == pid) && (forall e :: e in b ==> e.pid == pid)
    requires HasSlot(s.latencyStats, STATS_CAP, pid)
    ensures Lookup(s''.latencyStats, pid) == FoldFrom(Lookup(s.latencyStats, pid), Latencies(a + b), First, Record)
  {
    assert s''.events == s.events + (a + b);
    EventsFold(s, s'', a + b, pid);
  }

  lemma {:induction false} ForestFold(s: State, s': State, id: u64, more: seq<Event>)
    requires Built(s) && Built(s') && (forall e :: e in more ==> e.pid == PidOf(id))
    requires s'.events == s.events + if |s.entryTimes - {id}| < START_CAP then more else []
    ensures var st, st' := Lookup(s.latencyStats, PidOf(id)), Lookup(s'.latencyStats, PidOf(id));
            st' == if Tracked(s, id, PidOf(id)) then FoldFrom(st, Latencies(more), First, Record) else st
  {
    if |s.entryTimes - {id}| < START_CAP {
      EventsFold(s, s', more, PidOf(id));
    } else {
      assert s'.events == s.events;
    }
  }

  lemma {:induction false} FoldIsGrowth(st: Option<Stats>, st': Option<Stats>, tracked: bool, latencies: seq<u64>)
    requires st' == if tracked then FoldFrom(st, latencies, First, Record) else st
    ensures Grown(st, st', tracked, |latencies|, Sum(latencies, LATENCY))
  {
    FoldGrows(st, latencies);
  }

  /** The documented per-process call count, exactly: after any history, the count of the process
      grows by the number of calls of the forest iff there is a slot in both maps, no call is
      nested inside another call of the thread, and no reservation is refused. */
  lemma {:induction false} CountsAllCallsIffFlat(history: seq<Probe>, id: u64, pid: u32, t: u32, c: Calls)
    requires id == pid * 0x1_0000_0000 + t && c.Call? && CallCount(c) < 0x1_0000_0000_0000_0000
    ensures var s, s' := Run(history), Run(history + ProbesOf(id, c));
            Sub64(CountOf(s', pid), CountOf(s, pid)) == CallCount(c)
            <==> Tracked(s, id, pid) && Flat(c) && AllReserved(c)
  {
    NestedTotals(history, id, pid, t, c);
    GrantedIffFlat(c);
    var s, s' := Run(history), Run(history + ProbesOf(id, c));
    GrownByAll(Lookup(s.latencyStats, pid), Lookup(s'.latencyStats, pid), Tracked(s, id, pid),
               GrantedLeaves(c), GrantedTime(c), CallCount(c));
  }

  lemma {:induction false} GrownByAll(
    st: Option<Stats>, st': Option<Stats>, tracked: bool, n: nat, time: int, calls: nat)
    requires Grown(st, st', tracked, n, time) && n <= calls && 0 < calls < 0x1_0000_0000_0000_0000
    ensures Sub64(CountIn(st'), CountIn(st)) == calls <==> tracked && n == calls
  {
    if tracked {
      GrowthIs(CountIn(st), CountIn(st'), n);
    } else {
      NoWrap(0);
    }
  }

  lemma {:induction false} GrowthIs(c: u64, c': u64, n: nat)
    requires c' == Wrap64(c + n) && n < 0x1_0000_0000_0000_0000
    ensures Sub64(c', c) == n
  {
    WrapSub(c + n, c);
    NoWrap(n);
  }

  // ---------------------------------------------------------------- interleaved threads

  function EventsOfThread(events: seq<Event>, pid: u32, t: u32): seq<Event> {
    if events == [] then []
    else
      var e := events[|events| - 1];
      EventsOfThread(events[..|events| - 1], pid, t) + if e.pid == pid && e.tid == t then [e] else []
  }

  lemma {:induction false} EventsOfThreadSnoc(events: seq<Event>, x: Exit, id: u64, pid: u32, t: u32)
    requires id == pid * 0x1_0000_0000 + t
    ensures EventsOfThread(events + EventsOfExit(x), pid, t)
         == EventsOfThread(events, pid, t) + if x.tid == id then EventsOfExit(x) else []
  {
    KeyParts(x.tid, pid, t);
    if EventsOfExit(x) == [] {
      assert events + [] == events;
    } else {
      assert (events + EventsOfExit(x))[..|events|] == events;
    }
  }

  lemma {:induction false} EventsOfThreadExits(log: seq<Exit>, id: u64, pid: u32, t: u32)
    requires id == pid * 0x1_0000_0000 + t
    ensures EventsOfThread(EventsOf(log), pid, t) == EventsOf(ExitsOf(log, id))
  {
    if log != [] {
      var n := |log| - 1;
      EventsOfThreadExits(log[..n], id, pid, t);
      EventsOfThreadSnoc(EventsOf(log[..n]), log[n], id, pid, t);
      if log[n].tid == id {
        EventsOfSnoc(ExitsOf(log[..n], id), log[n]);
      } else {
        assert ExitsOf(log, id) == ExitsOf(log[..n], id);
      }
    }
  }

  /** Threads of any processes, also of the same one, may fire their probes in between: as long
      as the pending threads fit the start map, the events of a thread that makes a forest of
      nested calls are exactly its leaf calls with a granted reservation. */
  lemma {:induction false} NestedCallsAmongThreads(probes: seq<Probe>, id: u64, pid: u32, t: u32, c: Calls)
    requires id == pid * 0x1_0000_0000 + t
    requires Fits(AllSteps(probes)) && Project(AllSteps(probes), id) == StepsOf(id, c)
    ensures EventsOfThread(Run(probes).events, pid, t) == LeafEvents(id, c)
    ensures id !in Run(probes).entryTimes
  {
    RunIsMatching(probes);
    NestedUnderInterleaving(AllSteps(probes), id, c);
    EventsOfThreadExits(Match(FRESH, AllSteps(probes)).log, id, pid, t);
    LeafEventsAre(id, c);
  }
}
