/** The S1 uretprobe program: the same measurement with a start map keyed by process, and the
    proof that the S2 program refines it where the two can be compared. */
module BasicUretprobe {
  import opened Words
  import opened BoundedTable
  import opened Sums
  import CallMatching
  import LatencyStats
  import opened Probes
  import Uretprobe

  /** `max_entries` of `uretprobe_start` and of `uretprobe_stats`. */
  const CAP: nat := 1024

  datatype Stat = Stat(calls: u64, total: u64, lastRc: s64)

  datatype State = State(start: map<u32, u64>, stats: map<u32, Stat>)

  const LOADED := State(map[], map[])

  function Bump(stat: Stat, delta: u64, rc: s64): Stat {
    Stat(Add64(stat.calls, 1), Add64(stat.total, delta), rc)
  }

  function After(s: State, p: Probe): State {
    var pid := PidOf(p.pidTgid);
    match p
    case Entry(_, now) => s.(start := Put(s.start, CAP, pid, now))
    case Return(_, now, retval, _) =>
      if pid !in s.start then s
      else
        var cur := if pid in s.stats then s.stats[pid] else Stat(0, 0, 0);
        State(s.start - {pid}, Put(s.stats, CAP, pid, Bump(cur, Sub64(now, s.start[pid]), retval)))
  }

  class Program {
    var start: map<u32, u64>
    var stats: map<u32, Stat>

    ghost function Maps(): State
      reads this
    {
      State(start, stats)
    }

    constructor ()
      ensures Maps() == LOADED
    {
      start, stats := map[], map[];
    }

    method OnEntry(pidTgid: u64, now: u64)
      modifies this
      ensures Maps() == After(old(Maps()), Entry(pidTgid, now))
      ensures var pid := PidOf(pidTgid);
              && Lookup(start, pid) == (if pid in old(start) || |old(start)| < 1024 then Some(now) else None)
              && start - {pid} == old(start) - {pid} && stats == old(stats)
    {
      start := Put(start, CAP, PidOf(pidTgid), now);
    }

    method OnReturn(pidTgid: u64, now: u64, rc: s64, reserveOk: bool)
      modifies this
      ensures Maps() == After(old(Maps()), Return(pidTgid, now, rc, reserveOk))
    {
      var pid := PidOf(pidTgid);
      if pid !in start {
        return;
      }
      var delta := Sub64(now, start[pid]);
      start := start - {pid};
      var stat := Stat(0, 0, 0);
      if pid in stats {
        stat := stats[pid];
      }
      stat := stat.(calls := Add64(stat.calls, 1));
      stat := stat.(total := Add64(stat.total, delta));
      stat := stat.(lastRc := rc);
      stats := Put(stats, CAP, pid, stat);
    }
  }

  function Run(probes: seq<Probe>): State {
    if probes == [] then LOADED else After(Run(probes[..|probes| - 1]), probes[|probes| - 1])
  }

  // ---------------------------------------------------------------- what the statistics say

  /** A return that finds a start entry: its process, its duration and its return value. */
  datatype Matched = Matched(pid: u32, time: u64, rc: s64)

  ghost function MatchOf(s: State, p: Probe): seq<Matched> {
    var pid: u32 := p.pidTgid / 0x1_0000_0000;
    if p.Return? && pid in s.start
    then [Matched(pid, (p.now - s.start[pid]) % 0x1_0000_0000_0000_0000, p.retval)] else []
  }

  /** The returns that find a start entry, in order, read off the probes and the start map. */
  ghost function MatchedReturns(probes: seq<Probe>): seq<Matched> {
    if probes == [] then []
    else MatchedReturns(probes[..|probes| - 1]) + MatchOf(Run(probes[..|probes| - 1]), probes[|probes| - 1])
  }

  /** Those of one process. */
  function OfProcess(ms: seq<Matched>, pid: u32): seq<Matched> {
    if ms == [] then []
    else OfProcess(ms[..|ms| - 1], pid) + if ms[|ms| - 1].pid == pid then [ms[|ms| - 1]] else []
  }

  const TIME: Matched -> int := (m: Matched) => m.time

  /** Number, total duration and last return value of the matched returns of a process. */
  ghost predicate Summarises(stat: Stat, ms: seq<Matched>) {
    && ms != []
    && stat.calls == Wrap64(|ms|) && stat.total == Wrap64(Sum(ms, TIME))
    && stat.lastRc == ms[|ms| - 1].rc
  }

  /** A stored process is summarised; one that is missing has no matched return, or the table is full. */
  ghost predicate Accounts(stats: map<u32, Stat>, pid: u32, ms: seq<Matched>) {
    if pid in stats then Summarises(stats[pid], ms) else ms == [] || |stats| >= 1024
  }

  lemma {:induction false} BumpSummarises(stat: Stat, ms: seq<Matched>, m: Matched)
    requires Summarises(stat, ms)
    ensures Summarises(Bump(stat, m.time, m.rc), ms + [m])
  {
    SumSnoc(ms, m, TIME);
    AddWrapped(|ms|, 1);
    AddWrapped(Sum(ms, TIME), m.time);
  }

  lemma {:induction false} FirstSummarises(m: Matched)
    ensures Summarises(Bump(Stat(0, 0, 0), m.time, m.rc), [m])
  {
    assert [m][..0] == [];
    assert Sum([m], TIME) == m.time;
    NoWrap(m.time);
  }

  lemma {:induction false} MatchedSnoc(ms: seq<Matched>, m: Matched, pid: u32)
    ensures OfProcess(ms + [m], pid) == if m.pid == pid then OfProcess(ms, pid) + [m] else OfProcess(ms, pid)
  {
    assert (ms + [m])[..|ms|] == ms;
  }

  lemma {:induction false} AccountsAfter(stats: map<u32, Stat>, m: Matched, pid: u32, ms: seq<Matched>)
    requires Accounts(stats, pid, ms)
    ensures var cur := if m.pid in stats then stats[m.pid] else Stat(0, 0, 0);
            Accounts(Put(stats, CAP, m.pid, Bump(cur, m.time, m.rc)), pid, if m.pid == pid then ms + [m] else ms)
  {
    var cur := if m.pid in stats then stats[m.pid] else Stat(0, 0, 0);
    var stats' := Put(stats, CAP, m.pid, Bump(cur, m.time, m.rc));
    SubsetOfSameSize(stats.Keys, stats'.Keys);
    assert |stats.Keys| == |stats| && |stats'.Keys| == |stats'|;
    if m.pid == pid {
      if pid in stats {
        BumpSummarises(stats[pid], ms, m);
      } else {
        FirstSummarises(m);
        assert [] + [m] == [m];
      }
    }
  }

  /** The statistics of every run, refused reservations, nested calls and full maps included: a
      stored process holds the number, the total duration and the last return value of all its
      returns that found a start entry; a process with such a return is missing only from a
      full table. */
  lemma {:induction false} StatisticsTell(probes: seq<Probe>, pid: u32)
    ensures Accounts(Run(probes).stats, pid, OfProcess(MatchedReturns(probes), pid))
  {
    if probes != [] {
      var before := probes[..|probes| - 1];
      StatisticsTell(before, pid);
      ProbeTells(Run(before), probes[|probes| - 1], pid, MatchedReturns(before));
    }
  }

  lemma {:induction false} ProbeTells(s: State, p: Probe, pid: u32, ms: seq<Matched>)
    requires Accounts(s.stats, pid, OfProcess(ms, pid))
    ensures Accounts(After(s, p).stats, pid, OfProcess(ms + MatchOf(s, p), pid))
  {
    MatchAfter(s, p);
    if MatchOf(s, p) == [] {
      assert ms + [] == ms;
    } else {
      MatchedAccounts(s.stats, After(s, p).stats, MatchOf(s, p)[0], pid, ms);
      assert MatchOf(s, p) == [MatchOf(s, p)[0]];
    }
  }

  /** What a match does to the statistics. */
  ghost predicate Bumps(stats: map<u32, Stat>, stats': map<u32, Stat>, m: Matched) {
    stats' == Put(stats, CAP, m.pid, Bump(if m.pid in stats then stats[m.pid] else Stat(0, 0, 0), m.time, m.rc))
  }

  lemma {:induction false} MatchAfter(s: State, p: Probe)
    ensures if MatchOf(s, p) == [] then After(s, p).stats == s.stats
            else |MatchOf(s, p)| == 1 && Bumps(s.stats, After(s, p).stats, MatchOf(s, p)[0])
  {
  }

  lemma {:induction false} MatchedAccounts(
    stats: map<u32, Stat>, stats': map<u32, Stat>, m: Matched, pid: u32, ms: seq<Matched>)
    requires Accounts(stats, pid, OfProcess(ms, pid)) && Bumps(stats, stats', m)
    ensures Accounts(stats', pid, OfProcess(ms + [m], pid))
  {
    MatchedSnoc(ms, m, pid);
    AccountsAfter(stats, m, pid, OfProcess(ms, pid));
  }

  // ---------------------------------------------------------------- where the programs agree

  function Processes(probes: seq<Probe>): set<u32> {
    if probes == [] then {} else Processes(probes[..|probes| - 1]) + {PidOf(probes[|probes| - 1].pidTgid)}
  }

  /** No other thread of the process has a start entry. */
  ghost predicate Alone(times: map<u64, u64>, id: u64) {
    forall a :: a in times && PidOf(a) == PidOf(id) ==> a == id
  }

  /** No probe fires while another thread of its process has a start entry. */
  ghost predicate OneAtATime(probes: seq<Probe>) {
    probes != [] ==>
      && OneAtATime(probes[..|probes| - 1])
      && Alone(Uretprobe.Run(probes[..|probes| - 1]).entryTimes, probes[|probes| - 1].pidTgid)
  }

  /** The threads of a process take turns, no reservation is refused, and the processes fit. */
  ghost predicate Comparable(probes: seq<Probe>) {
    && OneAtATime(probes)
    && (forall p :: p in probes && p.Return? ==> p.reserveOk)
    && |Processes(probes)| <= CAP
  }

  lemma {:induction false} PrefixComparable(probes: seq<Probe>)
    requires Comparable(probes) && probes != []
    ensures Comparable(probes[..|probes| - 1])
  {
    SubsetOfSameSize(Processes(probes[..|probes| - 1]), Processes(probes));
  }

  lemma {:induction false} StartedWasSeen(probes: seq<Probe>, id: u64)
    requires id in Uretprobe.Run(probes).entryTimes
    ensures exists p :: p in probes && p.pidTgid == id
  {
    var n := |probes| - 1;
    if id in Uretprobe.Run(probes[..n]).entryTimes {
      StartedWasSeen(probes[..n], id);
    } else {
      assert probes[n] in probes && probes[n].pidTgid == id;
    }
  }

  /** In particular, processes of one thread each take turns. */
  lemma {:induction false} SingleThreadsTakeTurns(probes: seq<Probe>)
    requires forall p, q :: p in probes && q in probes && PidOf(p.pidTgid) == PidOf(q.pidTgid) ==>
               p.pidTgid == q.pidTgid
    ensures OneAtATime(probes)
  {
    if probes != [] {
      var n := |probes| - 1;
      SingleThreadsTakeTurns(probes[..n]);
      forall a | a in Uretprobe.Run(probes[..n]).entryTimes && PidOf(a) == PidOf(probes[n].pidTgid)
        ensures a == probes[n].pidTgid
      {
        StartedWasSeen(probes[..n], a);
        var p :| p in probes[..n] && p.pidTgid == a;
        assert p in probes && probes[n] in probes;
      }
    }
  }

  /** Some thread of the process has a start entry. */
  ghost predicate Started(times: map<u64, u64>, pid: u32) {
    exists id :: id in times && PidOf(id) == pid
  }

  /** No process has two started threads. */
  ghost predicate OnePerProcess(times: map<u64, u64>) {
    forall a, b :: a in times && b in times && PidOf(a) == PidOf(b) ==> a == b
  }

  ghost predicate StartsWith(start: map<u32, u64>, pid: u32, ts: u64) {
    pid in start && start[pid] == ts
  }

  /** The start entry of a process is that of its only started thread. */
  ghost predicate SameStarts(times: map<u64, u64>, start: map<u32, u64>, processes: set<u32>) {
    && start.Keys <= processes && OnePerProcess(times)
    && (forall id :: id in times ==> StartsWith(start, PidOf(id), times[id]))
    && (forall pid :: pid in start ==> Started(times, pid))
  }

  ghost predicate SameTotals(s2: map<u32, LatencyStats.Stats>, s1: map<u32, Stat>, processes: set<u32>) {
    && s2.Keys == s1.Keys <= processes
    && (forall pid :: pid in s1 && pid in s2 ==> s1[pid].calls == s2[pid].count && s1[pid].total == s2[pid].total)
  }

  /** The refinement relation. */
  ghost predicate Refines(s2: Uretprobe.State, s1: State, processes: set<u32>) {
    SameStarts(s2.entryTimes, s1.start, processes) && SameTotals(s2.latencyStats, s1.stats, processes)
  }

  lemma {:induction false} PutWithRoom<K, V>(m: map<K, V>, cap: nat, all: set<K>, k: K, v: V)
    requires m.Keys <= all && k in all && |all| <= cap
    ensures Put(m, cap, k, v) == m[k := v]
  {
    if k !in m {
      SubsetOfSameSize(m.Keys, all);
      assert |m| == |m.Keys|;
    }
  }

  /** No more started threads than processes. */
  lemma {:induction false} ThreadsFit(ids: set<u64>, processes: set<u32>)
    requires forall a, b :: a in ids && b in ids && PidOf(a) == PidOf(b) ==> a == b
    requires forall id :: id in ids ==> PidOf(id) in processes
    ensures |ids| <= |processes|
    decreases |ids|
  {
    if id :| id in ids {
      ThreadsFit(ids - {id}, processes - {PidOf(id)});
    }
  }

  lemma {:induction false} RoomToStart(
    times: map<u64, u64>, start: map<u32, u64>, processes: set<u32>, id: u64, now: u64)
    requires SameStarts(times, start, processes) && |processes| <= CAP
    ensures Put(times, CallMatching.START_CAP, id, now) == times[id := now]
  {
    ThreadsFit(times.Keys, processes);
    assert |times| == |times.Keys|;
  }

  lemma {:induction false} StartedAfter(times: map<u64, u64>, id: u64, now: u64, pid: u32)
    ensures Started(times[id := now], pid) <==> pid == PidOf(id) || Started(times, pid)
    ensures Started(times, pid) && pid != PidOf(id) ==> Started(times - {id}, pid)
  {
    var times' := times[id := now];
    assert id in times';
    if a :| a in times && PidOf(a) == pid {
      assert a in times';
      if pid != PidOf(id) {
        assert a in times - {id};
      }
    }
  }

  lemma {:induction false} OnePerProcessAfter(times: map<u64, u64>, id: u64, now: u64)
    requires OnePerProcess(times) && Alone(times, id)
    ensures OnePerProcess(times[id := now])
  {
    var times' := times[id := now];
    forall a, b | a in times' && b in times' && PidOf(a) == PidOf(b)
      ensures a == b
    {
      assert a == id || a in times;
      assert b == id || b in times;
    }
  }

  lemma {:induction false} StartsAfterEntry(
    times: map<u64, u64>, start: map<u32, u64>, processes: set<u32>, id: u64, now: u64)
    requires SameStarts(times, start, processes) && Alone(times, id) && PidOf(id) in processes
    ensures SameStarts(times[id := now], start[PidOf(id) := now], processes)
  {
    var pid := PidOf(id);
    var times', start' := times[id := now], start[pid := now];
    OnePerProcessAfter(times, id, now);
    forall q | q in start'
      ensures Started(times', q)
    {
      StartedAfter(times, id, now, q);
    }
    forall a | a in times'
      ensures StartsWith(start', PidOf(a), times'[a])
    {
      if a != id {
        assert StartsWith(start, PidOf(a), times[a]) && PidOf(a) != pid;
      }
    }
  }

  lemma {:induction false} StartsAfterReturn(times: map<u64, u64>, start: map<u32, u64>, processes: set<u32>, id: u64)
    requires SameStarts(times, start, processes) && Alone(times, id)
    ensures SameStarts(times - {id}, start - {PidOf(id)}, processes)
  {
    var pid := PidOf(id);
    forall q | q in start - {pid}
      ensures Started(times - {id}, q)
    {
      StartedAfter(times, id, 0, q);
    }
    forall a | a in times - {id}
      ensures StartsWith(start - {pid}, PidOf(a), (times - {id})[a])
    {
      assert StartsWith(start, PidOf(a), times[a]) && PidOf(a) != pid;
    }
    assert OnePerProcess(times - {id});
  }

  lemma {:induction false} TotalsAfterReturn(
    s2: map<u32, LatencyStats.Stats>, s1: map<u32, Stat>, processes: set<u32>, pid: u32, delta: u64, rc: s64)
    requires SameTotals(s2, s1, processes) && pid in processes && |processes| <= CAP
    ensures SameTotals(Offer(s2, LatencyStats.STATS_CAP, pid, delta, LatencyStats.First, LatencyStats.Record),
                       Put(s1, CAP, pid, Bump(if pid in s1 then s1[pid] else Stat(0, 0, 0), delta, rc)),
                       processes)
  {
    PutWithRoom(s1, CAP, processes, pid, Bump(if pid in s1 then s1[pid] else Stat(0, 0, 0), delta, rc));
    PutWithRoom(s2, LatencyStats.STATS_CAP, processes, pid,
                if pid in s2 then LatencyStats.Record(s2[pid], delta) else LatencyStats.First(delta));
  }

  lemma {:induction false} StepRefines(s2: Uretprobe.State, s1: State, processes: set<u32>, p: Probe)
    requires Refines(s2, s1, processes) && PidOf(p.pidTgid) in processes && |processes| <= CAP
    requires Alone(s2.entryTimes, p.pidTgid) && (p.Return? ==> p.reserveOk)
    ensures Refines(Uretprobe.After(s2, p), After(s1, p), processes)
  {
    var id, pid := p.pidTgid, PidOf(p.pidTgid);
    if p.Entry? {
      StartsAfterEntry(s2.entryTimes, s1.start, processes, id, p.now);
      RoomToStart(s2.entryTimes, s1.start, processes, id, p.now);
      PutWithRoom(s1.start, CAP, processes, pid, p.now);
    } else if pid in s1.start {
      StartsAfterReturn(s2.entryTimes, s1.start, processes, id);
      var a :| a in s2.entryTimes && PidOf(a) == pid;
      assert a == id && s2.entryTimes[id] == s1.start[pid];
      TotalsAfterReturn(s2.latencyStats, s1.stats, processes, pid, Sub64(p.now, s1.start[pid]), p.retval);
    } else {
      assert Uretprobe.After(s2, p) == s2 && After(s1, p) == s1;
    }
  }

  lemma {:induction false} RunsRefine(probes: seq<Probe>)
    requires Comparable(probes)
    ensures Refines(Uretprobe.Run(probes), Run(probes), Processes(probes))
  {
    if probes != [] {
      var n := |probes| - 1;
      PrefixComparable(probes);
      RunsRefine(probes[..n]);
      assert probes[n] in probes;
      StepRefines(Uretprobe.Run(probes[..n]), Run(probes[..n]), Processes(probes), probes[n]);
    }
  }

  /** On every run in which no probe of a thread fires while another thread of its process has a
      start entry, no reservation is refused and at most 1024 processes appear, the thread-keyed
      S2 program and the process-keyed S1 program hold the same counts and totals for every
      process, nested and unmatched probes included. */
  lemma {:induction false} AdvancedRefinesBasic(probes: seq<Probe>)
    requires Comparable(probes)
    ensures Uretprobe.Run(probes).latencyStats.Keys == Run(probes).stats.Keys
    ensures forall pid :: pid in Run(probes).stats ==>
              && Run(probes).stats[pid].calls == Uretprobe.Run(probes).latencyStats[pid].count
              && Run(probes).stats[pid].total == Uretprobe.Run(probes).latencyStats[pid].total
  {
    RunsRefine(probes);
  }

  // ---------------------------------------------------------------- threads that do not take turns

  function CallsOf(s: State, pid: u32): u64 {
    if pid in s.stats then s.stats[pid].calls else 0
  }

  lemma {:induction false} RunSnoc(probes: seq<Probe>, p: Probe)
    ensures Run(probes + [p]) == After(Run(probes), p)
    ensures Uretprobe.Run(probes + [p]) == Uretprobe.After(Uretprobe.Run(probes), p)
  {
    assert (probes + [p])[..|probes|] == probes;
  }

  /** The return of thread `b` takes the start entry of thread `a` of its process. */
  lemma {:induction false} StolenReturn(s2: Uretprobe.State, s1: State, processes: set<u32>, a: u64, b: u64, p: Probe)
    requires Refines(s2, s1, processes) && |processes| <= CAP
    requires a in s2.entryTimes && a != b && PidOf(a) == PidOf(b) && p.Return? && p.pidTgid == b
    ensures Uretprobe.CountOf(Uretprobe.After(s2, p), PidOf(b)) == CallsOf(s1, PidOf(b))
    ensures CallsOf(After(s1, p), PidOf(b)) == Add64(CallsOf(s1, PidOf(b)), 1)
  {
    var pid := PidOf(b);
    assert b !in s2.entryTimes;
    PutWithRoom(s1.stats, CAP, processes, pid,
                Bump(if pid in s1.stats then s1.stats[pid] else Stat(0, 0, 0), Sub64(p.now, s1.start[pid]), p.retval));
  }

  /** Taking turns is needed: after any comparable run, when a thread of a process with another
      started thread returns from a call it has not entered, the S1 program counts one call
      more than the S2 program ... */
  lemma {:induction false} ForeignReturnDisagrees(probes: seq<Probe>, a: u64, p: Probe)
    requires Comparable(probes) && a in Uretprobe.Run(probes).entryTimes
    requires p.Return? && a != p.pidTgid && PidOf(a) == PidOf(p.pidTgid)
    ensures CallsOf(Run(probes + [p]), PidOf(a)) == Add64(Uretprobe.CountOf(Uretprobe.Run(probes + [p]), PidOf(a)), 1)
  {
    RunsRefine(probes);
    RunSnoc(probes, p);
    StolenReturn(Uretprobe.Run(probes), Run(probes), Processes(probes), a, p.pidTgid, p);
  }

  lemma {:induction false} ReturnCounts(s2: Uretprobe.State, id: u64, p: Probe)
    requires p.Return? && p.reserveOk && p.pidTgid == id && id in s2.entryTimes
    requires HasSlot(s2.latencyStats, LatencyStats.STATS_CAP, PidOf(id))
    ensures var r := Uretprobe.After(s2, p);
            && r.entryTimes == s2.entryTimes - {id} && PidOf(id) in r.latencyStats
            && Uretprobe.CountOf(r, PidOf(id)) == Add64(Uretprobe.CountOf(s2, PidOf(id)), 1)
  {
    NoWrap(1);
  }

  lemma {:induction false} BasicReturnCounts(s1: State, pid: u32, p: Probe)
    requires p.Return? && PidOf(p.pidTgid) == pid && pid in s1.start && HasSlot(s1.stats, CAP, pid)
    ensures After(s1, p).start == s1.start - {pid} && CallsOf(After(s1, p), pid) == Add64(CallsOf(s1, pid), 1)
  {
  }

  lemma {:induction false} HasRoom<S>(m: map<u32, S>, cap: nat, processes: set<u32>, pid: u32)
    requires m.Keys <= processes && pid in processes && |processes| <= cap
    ensures HasSlot(m, cap, pid)
  {
    if pid !in m {
      SubsetOfSameSize(m.Keys, processes);
      assert |m| == |m.Keys|;
    }
  }

  /** The S2 program on overlapping calls of two threads: both are counted. */
  lemma {:induction false} OverlapInAdvanced(s2: Uretprobe.State, a: u64, b: u64, enter: Probe, x: Probe, y: Probe)
    requires a in s2.entryTimes && b !in s2.entryTimes && a != b && PidOf(a) == PidOf(b)
    requires |s2.entryTimes| < CallMatching.START_CAP && HasSlot(s2.latencyStats, LatencyStats.STATS_CAP, PidOf(a))
    requires enter.Entry? && enter.pidTgid == b
    requires x.Return? && x.reserveOk && x.pidTgid == a && y.Return? && y.reserveOk && y.pidTgid == b
    ensures Uretprobe.CountOf(Uretprobe.After(Uretprobe.After(Uretprobe.After(s2, enter), x), y), PidOf(a))
         == Add64(Add64(Uretprobe.CountOf(s2, PidOf(a)), 1), 1)
  {
    var r := Uretprobe.After(s2, enter);
    assert r.entryTimes == s2.entryTimes[b := enter.now] && r.latencyStats == s2.latencyStats;
    ReturnCounts(r, a, x);
    ReturnCounts(Uretprobe.After(r, x), b, y);
  }

  /** The S1 program on the same calls: the first return takes the entry of the second call, and
      the second return finds none. */
  lemma {:induction false} OverlapInBasic(s1: State, a: u64, b: u64, enter: Probe, x: Probe, y: Probe)
    requires PidOf(a) in s1.start && PidOf(a) == PidOf(b) && HasSlot(s1.stats, CAP, PidOf(a))
    requires enter.Entry? && enter.pidTgid == b && x.Return? && x.pidTgid == a && y.Return? && y.pidTgid == b
    ensures CallsOf(After(After(After(s1, enter), x), y), PidOf(a)) == Add64(CallsOf(s1, PidOf(a)), 1)
  {
    var r := After(s1, enter);
    assert r.start == s1.start[PidOf(a) := enter.now] && r.stats == s1.stats;
    BasicReturnCounts(r, PidOf(a), x);
    assert After(After(r, x), y) == After(r, x);
  }

  /** ... and when a thread of a process with another started thread enters, and then both return
      in that order, the S2 program counts both calls and the S1 program one. */
  lemma {:induction false} OverlappingThreadsDisagree(probes: seq<Probe>, a: u64, enter: Probe, x: Probe, y: Probe)
    requires Comparable(probes) && a in Uretprobe.Run(probes).entryTimes
    requires enter.Entry? && enter.pidTgid != a && PidOf(enter.pidTgid) == PidOf(a)
    requires x.Return? && x.reserveOk && x.pidTgid == a && y.Return? && y.reserveOk && y.pidTgid == enter.pidTgid
    ensures var pid, more := PidOf(a), probes + [enter] + [x] + [y];
            && Uretprobe.CountOf(Uretprobe.Run(more), pid)
               == Add64(Add64(Uretprobe.CountOf(Uretprobe.Run(probes), pid), 1), 1)
            && CallsOf(Run(more), pid) == Add64(CallsOf(Run(probes), pid), 1)
            && CallsOf(Run(probes), pid) == Uretprobe.CountOf(Uretprobe.Run(probes), pid)
  {
    RunsRefine(probes);
    RunSnoc(probes, enter);
    RunSnoc(probes + [enter], x);
    RunSnoc(probes + [enter] + [x], y);
    OverlapDisagrees(Uretprobe.Run(probes), Run(probes), Processes(probes), a, enter, x, y);
  }

  lemma {:induction false} OverlapDisagrees(
    s2: Uretprobe.State, s1: State, processes: set<u32>, a: u64, enter: Probe, x: Probe, y: Probe)
    requires Refines(s2, s1, processes) && |processes| <= CAP && a in s2.entryTimes
    requires enter.Entry? && enter.pidTgid != a && PidOf(enter.pidTgid) == PidOf(a)
    requires x.Return? && x.reserveOk && x.pidTgid == a && y.Return? && y.reserveOk && y.pidTgid == enter.pidTgid
    ensures Uretprobe.CountOf(Uretprobe.After(Uretprobe.After(Uretprobe.After(s2, enter), x), y), PidOf(a))
         == Add64(Add64(Uretprobe.CountOf(s2, PidOf(a)), 1), 1)
    ensures CallsOf(After(After(After(s1, enter), x), y), PidOf(a)) == Add64(CallsOf(s1, PidOf(a)), 1)
    ensures CallsOf(s1, PidOf(a)) == Uretprobe.CountOf(s2, PidOf(a))
  {
    ThreadsFit(s2.entryTimes.Keys, processes);
    assert |s2.entryTimes| == |s2.entryTimes.Keys|;
    HasRoom(s2.latencyStats, LatencyStats.STATS_CAP, processes, PidOf(a));
    HasRoom(s1.stats, CAP, processes, PidOf(a));
    OverlapInAdvanced(s2, a, enter.pidTgid, enter, x, y);
    OverlapInBasic(s1, a, enter.pidTgid, enter, x, y);
  }
}
