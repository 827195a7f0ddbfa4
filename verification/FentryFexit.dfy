/** The S2 fentry/fexit program: the uretprobe state machine on a kernel function, with the
    statistics updated before the event is submitted and a call count put into the event. */
module FentryFexit {
  import opened Words
  import opened BoundedTable
  import opened CallMatching
  import opened LatencyStats
  import opened Probes
  import opened Traces
  import Uretprobe

  datatype Event = Event(pid: u32, tid: u32, entryTs: u64, exitTs: u64, latency: u64, retval: u64, count: u64)

  datatype State = State(entryTimes: map<u64, u64>, latencyStats: map<u32, Stats>, events: seq<Event>)

  const LOADED := State(map[], map[], [])

  function After(s: State, p: Probe): State {
    match p
    case Entry(id, now) => s.(entryTimes := Put(s.entryTimes, START_CAP, id, now))
    case Return(id, now, retval, ok) =>
      if id !in s.entryTimes then s
      else if !ok then s.(entryTimes := s.entryTimes - {id})
      else
        var pid, latency := PidOf(id), Sub64(now, s.entryTimes[id]);
        var count := if pid in s.latencyStats then Add64(Add64(s.latencyStats[pid].count, 1), 1) else 1;
        State(s.entryTimes - {id},
              Offer(s.latencyStats, STATS_CAP, pid, latency, First, Record),
              s.events + [Event(pid, TidOf(id), s.entryTimes[id], now, latency, Wrap64(retval), count)])
  }

  class Program {
    var entryTimes: map<u64, u64>
    var latencyStats: map<u32, Stats>
    var events: seq<Event>

    ghost function Maps(): State
      reads this
    {
      State(entryTimes, latencyStats, events)
    }

    constructor ()
      ensures Maps() == LOADED
    {
      entryTimes, latencyStats, events := map[], map[], [];
    }

    method OnEntry(pidTgid: u64, now: u64)
      modifies this
      ensures Maps() == After(old(Maps()), Entry(pidTgid, now))
      ensures var stored := pidTgid in old(entryTimes) || |old(entryTimes)| < 10240;
              Lookup(entryTimes, pidTgid) == if stored then Some(now) else None
      ensures entryTimes - {pidTgid} == old(entryTimes) - {pidTgid}
      ensures latencyStats == old(latencyStats) && events == old(events)
    {
      entryTimes := Put(entryTimes, START_CAP, pidTgid, now);
    }

    method OnReturn(pidTgid: u64, now: u64, ret: s64, reserveOk: bool)
      modifies this
      ensures Maps() == After(old(Maps()), Return(pidTgid, now, ret, reserveOk))
    {
      var pid := PidOf(pidTgid);
      if pidTgid !in entryTimes {
        return;
      }
      var latency := Sub64(now, entryTimes[pidTgid]);
      if reserveOk {
        var evt := Event(pid, TidOf(pidTgid), entryTimes[pidTgid], now, latency, Wrap64(ret), 0);
        if pid !in latencyStats {
          latencyStats := Put(latencyStats, STATS_CAP, pid, Stats(1, latency, latency, latency));
          evt := evt.(count := 1);
        } else {
          latencyStats := RecordInPlace(latencyStats, pid, latency);
          evt := evt.(count := Add64(latencyStats[pid].count, 1));
        }
        events := events + [evt];
      }
      entryTimes := entryTimes - {pidTgid};
    }
  }

  function Run(probes: seq<Probe>): State {
    if probes == [] then LOADED else After(Run(probes[..|probes| - 1]), probes[|probes| - 1])
  }

  /** An event without its count. */
  function Counted(e: Uretprobe.Event, count: u64): Event {
    Event(e.pid, e.tid, e.entryTs, e.exitTs, e.latency, Wrap64(e.retval), count)
  }

  /** Apart from the counts in the events, the program is the uretprobe program: on the same
      probes it holds the same start map and statistics and has submitted the same events, so
      replay, nesting and non-interference hold of it as well. */
  lemma {:induction false} SimulatesUretprobe(probes: seq<Probe>)
    ensures var f, u := Run(probes), Uretprobe.Run(probes);
            && f.entryTimes == u.entryTimes && f.latencyStats == u.latencyStats
            && |f.events| == |u.events|
            && forall i :: 0 <= i < |f.events| ==> f.events[i] == Counted(u.events[i], f.events[i].count)
  {
    if probes != [] {
      SimulatesUretprobe(probes[..|probes| - 1]);
    }
  }

  /** A return that finds a start entry and gets its reservation. */
  ghost function Submits(probes: seq<Probe>): nat -> bool {
    (i: nat) =>
      i < |probes| && probes[i].Return? && probes[i].reserveOk
      && probes[i].pidTgid in Run(probes[..i]).entryTimes
  }

  /** An event carries the halves of the thread key, the two times, their difference and the
      return value of its return, as an unsigned word. */
  ghost function TellsOf(probes: seq<Probe>): (Event, nat) -> bool {
    (e: Event, i: nat) =>
      i < |probes| && probes[i].Return?
      && probes[i].pidTgid == e.pid * 0x1_0000_0000 + e.tid
      && e.exitTs == probes[i].now && Lookup(Run(probes[..i]).entryTimes, probes[i].pidTgid) == Some(e.entryTs)
      && e.latency == (e.exitTs - e.entryTs) % 0x1_0000_0000_0000_0000
      && e.retval == probes[i].retval % 0x1_0000_0000_0000_0000
  }

  /** The event stream of every run, exactly, counts aside (see EventCounts): one event for each
      matched return with a granted reservation, in order, each saying what its own return was. */
  lemma {:induction false} EventsTell(probes: seq<Probe>, n: nat)
    requires n <= |probes|
    ensures Faithful(Run(probes[..n]).events, n, Submits(probes), TellsOf(probes))
  {
    if n > 0 {
      EventsTell(probes, n - 1);
      assert probes[..n][..n - 1] == probes[..n - 1];
      var s, p := Run(probes[..n - 1]), probes[n - 1];
      assert Run(probes[..n]) == After(s, p);
      var more := if Submits(probes)(n - 1) then [After(s, p).events[|s.events|]] else [];
      KeyParts(p.pidTgid, PidOf(p.pidTgid), TidOf(p.pidTgid));
      assert Run(probes[..n]).events == s.events + more;
      FaithfulNext(s.events, more, n - 1, Submits(probes), TellsOf(probes));
    }
  }

  /** Which event of its process the i-th event is. */
  ghost function Rank(events: seq<Uretprobe.Event>, i: nat): nat
    requires i < |events|
  {
    |Uretprobe.LatenciesOf(events[..i + 1], events[i].pid)|
  }

  /** The `count` of an event: 1 for the first event of a process and for every event of a
      process without a statistics slot, otherwise one more than its rank. */
  ghost function CountAt(events: seq<Uretprobe.Event>, i: nat): u64
    requires i < |events|
  {
    if Admitted(Uretprobe.Items(events[..i + 1]), STATS_CAP, events[i].pid) && Rank(events, i) > 1
    then Wrap64(Rank(events, i) + 1) else 1
  }

  /** The events of this program carry these counts. */
  ghost predicate CountsFit(events: seq<Event>, uevents: seq<Uretprobe.Event>) {
    |events| == |uevents| && forall i :: 0 <= i < |events| ==> events[i].count == CountAt(uevents, i)
  }

  lemma {:induction false} EventCounts(probes: seq<Probe>)
    ensures CountsFit(Run(probes).events, Uretprobe.Run(probes).events)
  {
    if probes != [] {
      var n := |probes| - 1;
      EventCounts(probes[..n]);
      SimulatesUretprobe(probes[..n]);
      var f, u := Run(probes[..n]), Uretprobe.Run(probes[..n]);
      forall pid: u32
        ensures StatsFit(u, pid)
      {
        Uretprobe.Replay(probes[..n], pid);
      }
      CountsStep(f, u, probes[n]);
    }
  }

  /** What replay says about one process. */
  ghost predicate StatsFit(u: Uretprobe.State, pid: u32) {
    && (pid in u.latencyStats <==> Admitted(Uretprobe.Items(u.events), STATS_CAP, pid))
    && (pid in u.latencyStats ==> Summarises(u.latencyStats[pid], Uretprobe.LatenciesOf(u.events, pid)))
  }

  lemma {:induction false} CountsStep(f: State, u: Uretprobe.State, p: Probe)
    requires f.entryTimes == u.entryTimes && f.latencyStats == u.latencyStats && CountsFit(f.events, u.events)
    requires forall pid: u32 :: StatsFit(u, pid)
    ensures CountsFit(After(f, p).events, Uretprobe.After(u, p).events)
  {
    if p.Return? && p.pidTgid in f.entryTimes && p.reserveOk {
      var f', u' := After(f, p).events, Uretprobe.After(u, p).events;
      assert |f'| == |u'| == |u.events| + 1;
      assert f' == f.events + [f'[|f.events|]] && u' == u.events + [u'[|u.events|]];
      assert StatsFit(u, PidOf(p.pidTgid));
      CountFits(u.events, u'[|u.events|], u.latencyStats, f'[|f.events|].count);
      forall i | 0 <= i < |f.events|
        ensures f'[i].count == CountAt(u', i)
      {
        CountAtPrefix(u.events, u', i);
      }
    }
  }

  lemma {:induction false} CountAtPrefix(a: seq<Uretprobe.Event>, b: seq<Uretprobe.Event>, i: nat)
    requires a <= b && i < |a|
    ensures CountAt(a, i) == CountAt(b, i)
  {
    assert a[..i + 1] == b[..i + 1];
  }

  lemma {:induction false} CountFits(
    events: seq<Uretprobe.Event>, e: Uretprobe.Event, stats: map<u32, Stats>, count: u64)
    requires e.pid in stats <==> Admitted(Uretprobe.Items(events), STATS_CAP, e.pid)
    requires e.pid in stats ==> Summarises(stats[e.pid], Uretprobe.LatenciesOf(events, e.pid))
    requires count == if e.pid in stats then Add64(Add64(stats[e.pid].count, 1), 1) else 1
    ensures count == CountAt(events + [e], |events|)
  {
    CountAtLast(events, e);
    AddWrapped(|Uretprobe.LatenciesOf(events, e.pid)|, 1);
    AddWrapped(|Uretprobe.LatenciesOf(events, e.pid)| + 1, 1);
  }

  lemma {:induction false} CountAtLast(events: seq<Uretprobe.Event>, e: Uretprobe.Event)
    ensures CountAt(events + [e], |events|)
         == if Admitted(Uretprobe.Items(events), STATS_CAP, e.pid)
            then Wrap64(|Uretprobe.LatenciesOf(events, e.pid)| + 2) else 1
  {
    assert (events + [e])[..|events| + 1] == events + [e];
    Uretprobe.ItemsSnoc(events, e);
    AdmittedBefore(Uretprobe.Items(events), e.pid, e.latency);
  }

  /** A later item of a key is admitted iff the key was admitted before it. */
  lemma {:induction false} AdmittedBefore(items: seq<(u32, u64)>, k: u32, v: u64)
    ensures |ValuesOf(items + [(k, v)], k)| == |ValuesOf(items, k)| + 1
    ensures Admitted(items, STATS_CAP, k)
       <==> Admitted(items + [(k, v)], STATS_CAP, k) && |ValuesOf(items + [(k, v)], k)| > 1
  {
    assert (items + [(k, v)])[..|items|] == items;
    AdmittedSnoc(items + [(k, v)], STATS_CAP, k);
    ValuesOfSeen(items, k);
    AdmittedWasSeen(items, STATS_CAP, k);
  }

  lemma {:induction false} CountVersusRank(events: seq<Uretprobe.Event>, i: nat)
    requires i < |events|
    ensures CountAt(events, i) == Rank(events, i) <==> Rank(events, i) == 1
  {
    var items := Uretprobe.Items(events[..i + 1]);
    assert items[i].0 == events[i].pid;
    ValuesOfSeen(items, events[i].pid);
    assert Rank(events, i) >= 1;
  }

  /** So the count of an event is its rank exactly when it is the first of its process. */
  lemma {:induction false} CountIsRankOnlyForFirst(probes: seq<Probe>, i: nat)
    requires i < |Uretprobe.Run(probes).events|
    ensures i < |Run(probes).events|
    ensures Run(probes).events[i].count == Rank(Uretprobe.Run(probes).events, i)
       <==> Rank(Uretprobe.Run(probes).events, i) == 1
  {
    EventCounts(probes);
    CountVersusRank(Uretprobe.Run(probes).events, i);
  }
}
