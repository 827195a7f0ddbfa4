/** The S2 kretprobe program, run serially: latency, success and error statistics per process.
    Unlike the other trackers it records every return, matched or not, with latency 0 when no
    entry timestamp was found. */
module Kretprobe {
  import opened Words
  import opened BoundedTable
  import opened CallMatching
  import opened Probes
  import opened Sums
  import opened Traces

  /** `max_entries` of `pid_statistics`. */
  const STATS_CAP: nat := 10240
  const MAX_ERRNO := 4095

  datatype PidStats = PidStats(
    totalCalls: u64, successCalls: u64, errorCalls: u64,
    totalLatency: u64, minLatency: u64, maxLatency: u64, lastRetval: s64)

  const ZERO := PidStats(0, 0, 0, 0, 0, 0, 0)

  /** What one return contributes to the statistics of its process. */
  datatype Sample = Sample(latency: u64, retval: s64)

  datatype Event = Event(timestamp: u64, latency: u64, pid: u32, tid: u32, retval: s64, isError: bool, errorCode: int)

  datatype State = State(entryTimes: map<u64, u64>, pidStatistics: map<u32, PidStats>, events: seq<Event>)

  const LOADED := State(map[], map[], [])

  predicate IsError(ret: s64) {
    ret < 0 && ret >= -MAX_ERRNO
  }

  function Record(st: PidStats, x: Sample): PidStats {
    PidStats(
      Add64(st.totalCalls, 1),
      if IsError(x.retval) then st.successCalls else Add64(st.successCalls, 1),
      if IsError(x.retval) then Add64(st.errorCalls, 1) else st.errorCalls,
      Add64(st.totalLatency, x.latency),
      NewMin(st.minLatency, x.latency),
      NewMax(st.maxLatency, x.latency),
      x.retval)
  }

  /** A minimum of 0 stands for no positive latency yet. */
  function NewMin(min: u64, latency: u64): u64 {
    if latency > 0 && (min == 0 || latency < min) then latency else min
  }

  function NewMax(max: u64, latency: u64): u64 {
    if latency > max then latency else max
  }

  function First(x: Sample): PidStats {
    Record(ZERO, x)
  }

  function SampleOf(x: Exit): Sample {
    Sample(if x.entry.Some? then Sub64(x.ts, x.entry.value) else 0, x.retval)
  }

  function EventOf(x: Exit): Event {
    Event(x.ts, SampleOf(x).latency, PidOf(x.tid), TidOf(x.tid), x.retval,
          IsError(x.retval), if IsError(x.retval) then -x.retval else 0)
  }

  function After(s: State, p: Probe): State {
    match p
    case Entry(id, now) => s.(entryTimes := Put(s.entryTimes, START_CAP, id, now))
    case Return(id, now, retval, ok) =>
      var x := Exit(id, now, Find(s.entryTimes, id), retval, ok);
      State(s.entryTimes - {id},
            Offer(s.pidStatistics, STATS_CAP, PidOf(id), SampleOf(x), First, Record),
            if ok then s.events + [EventOf(x)] else s.events)
  }

  class Program {
    var entryTimes: map<u64, u64>
    var pidStatistics: map<u32, PidStats>
    var events: seq<Event>

    ghost function Maps(): State
      reads this
    {
      State(entryTimes, pidStatistics, events)
    }

    constructor ()
      ensures Maps() == LOADED
    {
      entryTimes, pidStatistics, events := map[], map[], [];
    }

    method OnEntry(pidTgid: u64, now: u64)
      modifies this
      ensures Maps() == After(old(Maps()), Entry(pidTgid, now))
      ensures var stored := pidTgid in old(entryTimes) || |old(entryTimes)| < 10240;
              Lookup(entryTimes, pidTgid) == if stored then Some(now) else None
      ensures entryTimes - {pidTgid} == old(entryTimes) - {pidTgid}
      ensures pidStatistics == old(pidStatistics) && events == old(events)
    {
      entryTimes := Put(entryTimes, START_CAP, pidTgid, now);
    }

    method OnReturn(pidTgid: u64, now: u64, retval: s64, reserveOk: bool)
      modifies this
      ensures Maps() == After(old(Maps()), Return(pidTgid, now, retval, reserveOk))
    {
      var pid := PidOf(pidTgid);
      var latency: u64 := 0;
      if pidTgid in entryTimes {
        latency := Sub64(now, entryTimes[pidTgid]);
        entryTimes := entryTimes - {pidTgid};
      } else {
        assert entryTimes - {pidTgid} == entryTimes;
      }
      var isErr := IsError(retval);
      var errCode := 0;
      if isErr {
        errCode := -retval;
      }
      UpdateStatistics(pid, latency, retval, isErr);
      if reserveOk {
        events := events + [Event(now, latency, pid, TidOf(pidTgid), retval, isErr, errCode)];
      }
    }

    /** Look the entry up, insert zeros if it is missing, look it up again, update it. */
    method UpdateStatistics(pid: u32, latency: u64, retval: s64, isErr: bool)
      requires isErr == IsError(retval)
      modifies this`pidStatistics
      ensures pidStatistics == Offer(old(pidStatistics), STATS_CAP, pid, Sample(latency, retval), First, Record)
    {
      if pid !in pidStatistics {
        pidStatistics := Put(pidStatistics, STATS_CAP, pid, ZERO);
      }
      if pid in pidStatistics {
        RecordInPlace(pid, latency, retval, isErr);
      }
    }

    /** The in-place updates through the `stats` pointer. */
    method RecordInPlace(pid: u32, latency: u64, retval: s64, isErr: bool)
      requires pid in pidStatistics && isErr == IsError(retval)
      modifies this`pidStatistics
      ensures pidStatistics == old(pidStatistics)[pid := Record(old(pidStatistics)[pid], Sample(latency, retval))]
    {
      var st := pidStatistics[pid];
      st := st.(totalCalls := Add64(st.totalCalls, 1));
      if isErr {
        st := st.(errorCalls := Add64(st.errorCalls, 1));
      } else {
        st := st.(successCalls := Add64(st.successCalls, 1));
      }
      if latency > 0 {
        st := st.(totalLatency := Add64(st.totalLatency, latency));
        if st.minLatency == 0 || latency < st.minLatency {
          st := st.(minLatency := latency);
        }
        if latency > st.maxLatency {
          st := st.(maxLatency := latency);
        }
      }
      st := st.(lastRetval := retval);
      pidStatistics := pidStatistics[pid := st];
    }
  }

  // ---------------------------------------------------------------- whole runs

  function Run(probes: seq<Probe>): State {
    if probes == [] then LOADED else After(Run(probes[..|probes| - 1]), probes[|probes| - 1])
  }

  /** The exits as samples of their processes, and as submitted events. */
  function Items(log: seq<Exit>): seq<(u32, Sample)> {
    seq(|log|, i requires 0 <= i < |log| => (PidOf(log[i].tid), SampleOf(log[i])))
  }

  function EventsOf(log: seq<Exit>): seq<Event> {
    if log == [] then []
    else EventsOf(log[..|log| - 1]) + if log[|log| - 1].reserveOk then [EventOf(log[|log| - 1])] else []
  }

  /** The program is the call matcher followed by a consumer of all its exits. */
  lemma {:induction false} RunIsMatching(probes: seq<Probe>)
    ensures var log := Match(FRESH, AllSteps(probes)).log;
            && Run(probes).entryTimes == Match(FRESH, AllSteps(probes)).times
            && Run(probes).pidStatistics == Build(Items(log), STATS_CAP, First, Record)
            && Run(probes).events == EventsOf(log)
  {
    if probes != [] {
      var n := |probes| - 1;
      RunIsMatching(probes[..n]);
      var m := Match(FRESH, AllSteps(probes[..n]));
      MatchConcat(FRESH, AllSteps(probes[..n]), StepsOfProbe(probes[n]));
      match probes[n] {
        case Entry(id, now) =>
          assert [Enter(id, now)] == [] + [Enter(id, now)];
          MatchSnoc(m, [], Enter(id, now));
        case Return(id, now, retval, ok) =>
          StepsOfReturn(m, id, now, retval, ok);
          LogSnoc(m.log, Exit(id, now, Find(m.times, id), retval, ok));
      }
    }
  }

  lemma {:induction false} LogSnoc(log: seq<Exit>, x: Exit)
    ensures EventsOf(log + [x]) == if x.reserveOk then EventsOf(log) + [EventOf(x)] else EventsOf(log)
    ensures Build(Items(log + [x]), STATS_CAP, First, Record)
         == Offer(Build(Items(log), STATS_CAP, First, Record), STATS_CAP, PidOf(x.tid), SampleOf(x), First, Record)
  {
    assert (log + [x])[..|log|] == log;
    assert Items(log + [x])[..|log|] == Items(log);
  }

  ghost function SamplesOf(probes: seq<Probe>, pid: u32): seq<Sample> {
    ValuesOf(Items(Match(FRESH, AllSteps(probes)).log), pid)
  }

  // ---------------------------------------------------------------- in terms of the probes

  /** The return values of a process, in order, matched or not. */
  ghost function ReturnsOf(probes: seq<Probe>, pid: u32): seq<s64> {
    if probes == [] then []
    else
      var p := probes[|probes| - 1];
      ReturnsOf(probes[..|probes| - 1], pid)
      + if p.Return? && pid * 0x1_0000_0000 <= p.pidTgid < (pid + 1) * 0x1_0000_0000 then [p.retval] else []
  }

  /** A return value that encodes an error number. */
  const FAILED: s64 -> int := (r: s64) => if -4095 <= r <= -1 then 1 else 0
  const SUCCEEDED: s64 -> int := (r: s64) => if -4095 <= r <= -1 then 0 else 1

  /** What the statistics say about the return values of a process. */
  ghost predicate CountsReturns(st: PidStats, retvals: seq<s64>) {
    && retvals != []
    && st.totalCalls == Wrap64(|retvals|)
    && st.errorCalls == Wrap64(Sum(retvals, FAILED)) && st.successCalls == Wrap64(Sum(retvals, SUCCEEDED))
    && st.lastRetval == retvals[|retvals| - 1]
  }

  lemma {:induction false} RecordCountsReturn(st: PidStats, retvals: seq<s64>, x: Sample)
    requires CountsReturns(st, retvals)
    ensures CountsReturns(Record(st, x), retvals + [x.retval])
  {
    SumSnoc(retvals, x.retval, FAILED);
    SumSnoc(retvals, x.retval, SUCCEEDED);
    AddWrapped(|retvals|, 1);
    AddWrapped(Sum(retvals, FAILED), 1);
    AddWrapped(Sum(retvals, SUCCEEDED), 1);
  }

  lemma {:induction false} FirstCountsReturn(x: Sample)
    ensures CountsReturns(First(x), [x.retval])
  {
    assert [x.retval][..0] == [];
    assert Sum([x.retval], FAILED) == FAILED(x.retval) && Sum([x.retval], SUCCEEDED) == SUCCEEDED(x.retval);
  }

  /** A stored process counts its returns; one that is missing has none, or the table is full. */
  ghost predicate Accounts(m: map<u32, PidStats>, pid: u32, retvals: seq<s64>) {
    if pid in m then CountsReturns(m[pid], retvals) else retvals == [] || |m| >= 10240
  }

  lemma {:induction false} ReturnsSnoc(probes: seq<Probe>, pid: u32)
    requires probes != []
    ensures var before, p := ReturnsOf(probes[..|probes| - 1], pid), probes[|probes| - 1];
            ReturnsOf(probes, pid) == if p.Return? && PidOf(p.pidTgid) == pid then before + [p.retval] else before
  {
    InProcessIs(probes[|probes| - 1].pidTgid, pid);
  }

  /** The classification, in every serial run: a process that is stored counts all its returns,
      matched or not; those with a return value from -4095 to -1 are its errors, all others its
      successes, and the last return value is that of the last one.  A process with a return is
      missing only from a full table. */
  lemma {:induction false} ReturnsAreClassified(probes: seq<Probe>, pid: u32)
    ensures Accounts(Run(probes).pidStatistics, pid, ReturnsOf(probes, pid))
  {
    if probes != [] {
      var n := |probes| - 1;
      ReturnsAreClassified(probes[..n], pid);
      ReturnsSnoc(probes, pid);
      if probes[n].Return? {
        ReturnIsClassified(Run(probes[..n]), probes[n], pid, ReturnsOf(probes[..n], pid));
      }
    }
  }

  lemma {:induction false} ReturnIsClassified(s: State, p: Probe, pid: u32, retvals: seq<s64>)
    requires p.Return? && Accounts(s.pidStatistics, pid, retvals)
    ensures Accounts(After(s, p).pidStatistics, pid, if PidOf(p.pidTgid) == pid then retvals + [p.retval] else retvals)
  {
    var x := SampleOf(Exit(p.pidTgid, p.now, Find(s.entryTimes, p.pidTgid), p.retval, p.reserveOk));
    TableKeepsSize(s.pidStatistics, PidOf(p.pidTgid), x);
    if PidOf(p.pidTgid) == pid {
      if pid in s.pidStatistics {
        RecordCountsReturn(s.pidStatistics[pid], retvals, x);
      } else {
        FirstCountsReturn(x);
        assert [] + [p.retval] == [p.retval];
      }
    }
  }

  lemma {:induction false} TableKeepsSize(m: map<u32, PidStats>, pid: u32, x: Sample)
    ensures |Offer(m, STATS_CAP, pid, x, First, Record)| >= |m|
  {
    var m' := Offer(m, STATS_CAP, pid, x, First, Record);
    SubsetOfSameSize(m.Keys, m'.Keys);
    assert |m.Keys| == |m| && |m'.Keys| == |m'|;
  }

  /** A return that gets its reservation. */
  ghost function Submits(probes: seq<Probe>): nat -> bool {
    (i: nat) => i < |probes| && probes[i].Return? && probes[i].reserveOk
  }

  /** An event carries the time, the halves of the thread key and the return value of its return;
      the time since the start entry, or 0 without one; and an error number from 1 to 4095 iff
      the return value is the negative of one. */
  ghost function TellsOf(probes: seq<Probe>): (Event, nat) -> bool {
    (e: Event, i: nat) =>
      i < |probes| && probes[i].Return?
      && e.timestamp == probes[i].now && e.retval == probes[i].retval
      && probes[i].pidTgid == e.pid * 0x1_0000_0000 + e.tid
      && e.latency == Elapsed(Lookup(Run(probes[..i]).entryTimes, probes[i].pidTgid), probes[i].now)
      && (e.isError <==> -4095 <= e.retval <= -1)
      && e.errorCode == if -4095 <= e.retval <= -1 then -e.retval else 0
  }

  function Elapsed(start: Option<u64>, now: u64): u64 {
    if start.Some? then (now - start.value) % 0x1_0000_0000_0000_0000 else 0
  }

  /** The event stream of every run, exactly: one event for each return with a granted reservation,
      in order, each saying what its own return was. */
  lemma {:induction false} EventsTell(probes: seq<Probe>, n: nat)
    requires n <= |probes|
    ensures Faithful(Run(probes[..n]).events, n, Submits(probes), TellsOf(probes))
  {
    if n > 0 {
      EventsTell(probes, n - 1);
      assert probes[..n][..n - 1] == probes[..n - 1];
      var s, p := Run(probes[..n - 1]), probes[n - 1];
      assert Run(probes[..n]) == After(s, p);
      var more := if p.Return? && p.reserveOk then [EventOf(LookedUp(s, p))] else [];
      assert Run(probes[..n]).events == s.events + more;
      if p.Return? && p.reserveOk {
        EventTells(probes, n - 1);
      }
      FaithfulNext(s.events, more, n - 1, Submits(probes), TellsOf(probes));
    }
  }

  function LookedUp(s: State, p: Probe): Exit
    requires p.Return?
  {
    Exit(p.pidTgid, p.now, Find(s.entryTimes, p.pidTgid), p.retval, p.reserveOk)
  }

  lemma {:induction false} EventTells(probes: seq<Probe>, i: nat)
    requires i < |probes| && probes[i].Return?
    ensures TellsOf(probes)(EventOf(LookedUp(Run(probes[..i]), probes[i])), i)
  {
    var p, times := probes[i], Run(probes[..i]).entryTimes;
    KeyParts(p.pidTgid, PidOf(p.pidTgid), TidOf(p.pidTgid));
    var e := EventOf(LookedUp(Run(probes[..i]), p));
    assert e.latency == Elapsed(Lookup(times, p.pidTgid), p.now);
    assert e.errorCode == if -4095 <= e.retval <= -1 then -e.retval else 0;
  }

  // ---------------------------------------------------------------- the aggregate law

  const LATENCY_OF: Sample -> int := (x: Sample) => x.latency
  const ERROR_OF: Sample -> int := (x: Sample) => if IsError(x.retval) then 1 else 0
  const SUCCESS_OF: Sample -> int := (x: Sample) => if IsError(x.retval) then 0 else 1
  const POSITIVE_OF: Sample -> int := (x: Sample) => if x.latency > 0 then 1 else 0

  /** The four counters of a summary. */
  ghost predicate Counts(st: PidStats, xs: seq<Sample>) {
    && st.totalCalls == Wrap64(|xs|)
    && st.successCalls == Wrap64(Sum(xs, SUCCESS_OF))
    && st.errorCalls == Wrap64(Sum(xs, ERROR_OF))
    && st.totalLatency == Wrap64(Sum(xs, LATENCY_OF))
  }

  /** What the seven fields are meant to say about the samples of a process. */
  ghost predicate Summarises(st: PidStats, xs: seq<Sample>) {
    && xs != []
    && Counts(st, xs)
    && Extremes(st.minLatency, st.maxLatency, xs)
    && st.lastRetval == xs[|xs| - 1].retval
  }

  /** `lo` and `hi` are the least and greatest positive latency, or both 0 if there is none. */
  ghost predicate Extremes(lo: u64, hi: u64, xs: seq<Sample>) {
    && (lo == 0 <==> hi == 0)
    && (lo != 0 ==> (exists x :: x in xs && x.latency == lo) && (exists x :: x in xs && x.latency == hi))
    && (forall x :: x in xs && x.latency > 0 ==> 0 < lo <= x.latency <= hi)
  }

  lemma {:induction false} InSnoc<T>(xs: seq<T>, x: T)
    requires xs != []
    ensures x in xs <==> x in xs[..|xs| - 1] || x == xs[|xs| - 1]
  {
    if x in xs {
      var i :| 0 <= i < |xs| && xs[i] == x;
      assert i < |xs| - 1 ==> xs[..|xs| - 1][i] == x;
    }
  }

  lemma {:induction false} ExtremesStep(lo: u64, hi: u64, xs: seq<Sample>)
    requires xs != [] && Extremes(lo, hi, xs[..|xs| - 1])
    ensures Extremes(NewMin(lo, xs[|xs| - 1].latency), NewMax(hi, xs[|xs| - 1].latency), xs)
  {
    forall x: Sample
      ensures x in xs <==> x in xs[..|xs| - 1] || x == xs[|xs| - 1]
    {
      InSnoc(xs, x);
    }
    assert xs[|xs| - 1] in xs;
    if lo != 0 {
      var a :| a in xs[..|xs| - 1] && a.latency == lo;
      var b :| b in xs[..|xs| - 1] && b.latency == hi;
      assert a in xs && b in xs;
    }
  }

  lemma {:induction false} CountsStep(st: PidStats, xs: seq<Sample>)
    requires xs != [] && Counts(st, xs[..|xs| - 1])
    ensures Counts(Record(st, xs[|xs| - 1]), xs)
  {
    var n := |xs| - 1;
    var successes, errors, total := Sum(xs[..n], SUCCESS_OF), Sum(xs[..n], ERROR_OF), Sum(xs[..n], LATENCY_OF);
    AddWrapped(n, 1);
    AddWrapped(successes, 1);
    AddWrapped(errors, 1);
    AddWrapped(total, xs[n].latency);
    assert Sum(xs, LATENCY_OF) == total + xs[n].latency;
    assert Sum(xs, SUCCESS_OF) == if IsError(xs[n].retval) then successes else successes + 1;
    assert Sum(xs, ERROR_OF) == if IsError(xs[n].retval) then errors + 1 else errors;
  }

  /** The statistics after a non-empty sequence of samples are their summary. */
  lemma {:induction false} FoldSummarises(xs: seq<Sample>)
    requires xs != []
    ensures Summarises(Fold(xs, First, Record), xs)
  {
    var n := |xs| - 1;
    var st := if n == 0 then ZERO else Fold(xs[..n], First, Record);
    if n == 0 {
      assert xs[..n] == [];
    } else {
      FoldSummarises(xs[..n]);
    }
    CountsStep(st, xs);
    ExtremesStep(st.minLatency, st.maxLatency, xs);
    assert Fold(xs, First, Record) == Record(st, xs[n]);
  }

  /** In every serial run the stored processes are the first 10240 distinct ones that returned,
      and the statistics of each are the summary of all its retvals, whatever the ring buffer
      did. */
  lemma {:induction false} SerialAggregate(probes: seq<Probe>, pid: u32)
    ensures var s, items := Run(probes), Items(Match(FRESH, AllSteps(probes)).log);
            && (pid in s.pidStatistics <==> Admitted(items, 10240, pid))
            && (pid in s.pidStatistics ==> Summarises(s.pidStatistics[pid], SamplesOf(probes, pid)))
  {
    RunIsMatching(probes);
    var items := Items(Match(FRESH, AllSteps(probes)).log);
    BuildAdmits(items, STATS_CAP, First, Record, pid);
    if pid in Run(probes).pidStatistics {
      BuildIsFold(items, STATS_CAP, First, Record, pid);
      FoldSummarises(ValuesOf(items, pid));
    }
  }

  lemma {:induction false} PositiveCount(xs: seq<Sample>)
    ensures 0 <= Sum(xs, POSITIVE_OF) <= |xs|
    ensures 0 <= Sum(xs, LATENCY_OF)
  {
    if xs != [] {
      PositiveCount(xs[..|xs| - 1]);
    }
  }

  lemma {:induction false} LowerBound(xs: seq<Sample>, lo: int)
    requires forall x :: x in xs && x.latency > 0 ==> lo <= x.latency
    ensures Sum(xs, POSITIVE_OF) * lo <= Sum(xs, LATENCY_OF)
  {
    if xs != [] {
      var n := |xs| - 1;
      assert xs[n] in xs && forall x :: x in xs[..n] ==> x in xs;
      LowerBound(xs[..n], lo);
      Distribute(Sum(xs[..n], POSITIVE_OF), lo);
    }
  }

  lemma {:induction false} UpperBound(xs: seq<Sample>, hi: int)
    requires forall x :: x in xs && x.latency > 0 ==> x.latency <= hi
    ensures Sum(xs, LATENCY_OF) <= Sum(xs, POSITIVE_OF) * hi
  {
    if xs != [] {
      var n := |xs| - 1;
      assert xs[n] in xs && forall x :: x in xs[..n] ==> x in xs;
      UpperBound(xs[..n], hi);
      Distribute(Sum(xs[..n], POSITIVE_OF), hi);
    }
  }

  lemma {:induction false} Distribute(k: int, x: int)
    ensures (k + 1) * x == k * x + x
  {
  }

  lemma {:induction false} ClassesAddUp(xs: seq<Sample>)
    ensures Sum(xs, SUCCESS_OF) + Sum(xs, ERROR_OF) == |xs|
  {
    if xs != [] {
      ClassesAddUp(xs[..|xs| - 1]);
    }
  }

  /** Consistency of the fields with each other, for every sequence of returns. */
  lemma {:induction false} FieldsAgree(st: PidStats, xs: seq<Sample>)
    requires Summarises(st, xs)
    ensures st.totalCalls == Add64(st.successCalls, st.errorCalls)
    ensures st.minLatency == 0 <==> st.maxLatency == 0
    ensures st.minLatency <= st.maxLatency
  {
    ClassesAddUp(xs);
    WrapAdd(Sum(xs, SUCCESS_OF), Sum(xs, ERROR_OF));
  }

  /** Without overflow the total lies between the extremes times the number of positive latencies. */
  lemma {:induction false} TotalWithinExtremes(st: PidStats, xs: seq<Sample>)
    requires Summarises(st, xs)
    requires |xs| < 0x1_0000_0000_0000_0000 && Sum(xs, LATENCY_OF) < 0x1_0000_0000_0000_0000
    ensures Sum(xs, POSITIVE_OF) <= st.totalCalls
    ensures Sum(xs, POSITIVE_OF) * st.minLatency <= st.totalLatency <= Sum(xs, POSITIVE_OF) * st.maxLatency
  {
    PositiveCount(xs);
    NoWrap(|xs|);
    NoWrap(Sum(xs, LATENCY_OF));
    LowerBound(xs, st.minLatency);
    UpperBound(xs, st.maxLatency);
  }

  // ---------------------------------------------------------------- order independence

  /** The statistics without the last return value. */
  function Unordered(st: PidStats): PidStats {
    st.(lastRetval := 0)
  }

  /** Summaries of the same samples in different orders differ at most in `last_retval`. */
  lemma {:induction false} OrderIndependent(st: PidStats, st': PidStats, xs: seq<Sample>, ys: seq<Sample>)
    requires multiset(xs) == multiset(ys)
    requires Summarises(st, xs) && Summarises(st', ys)
    ensures Unordered(st) == Unordered(st')
  {
    SumPermutation(xs, ys, SUCCESS_OF);
    SumPermutation(xs, ys, ERROR_OF);
    SumPermutation(xs, ys, LATENCY_OF);
    forall x: Sample
      ensures x in xs <==> x in ys
    {
      assert x in xs <==> x in multiset(xs);
      assert x in ys <==> x in multiset(ys);
    }
    ExtremesAgree(st.minLatency, st.maxLatency, st'.minLatency, st'.maxLatency, xs, ys);
  }

  lemma {:induction false} ExtremesAgree(lo: u64, hi: u64, lo': u64, hi': u64, xs: seq<Sample>, ys: seq<Sample>)
    requires forall x :: x in xs <==> x in ys
    requires Extremes(lo, hi, xs) && Extremes(lo', hi', ys)
    ensures lo == lo' && hi == hi'
  {
  }

  /** Two runs in which a stored process had the same retvals, in any two orders and among
      any other processes, end with the same statistics for it, `last_retval` aside. */
  lemma {:induction false} SameReturnsSameStatistics(a: seq<Probe>, b: seq<Probe>, pid: u32)
    requires pid in Run(a).pidStatistics && pid in Run(b).pidStatistics
    requires multiset(SamplesOf(a, pid)) == multiset(SamplesOf(b, pid))
    ensures Unordered(Run(a).pidStatistics[pid]) == Unordered(Run(b).pidStatistics[pid])
  {
    SerialAggregate(a, pid);
    SerialAggregate(b, pid);
    OrderIndependent(Run(a).pidStatistics[pid], Run(b).pidStatistics[pid], SamplesOf(a, pid), SamplesOf(b, pid));
  }

  // ---------------------------------------------------------------- nested calls

  function Samples(exits: seq<Exit>): seq<Sample> {
    seq(|exits|, i requires 0 <= i < |exits| => SampleOf(exits[i]))
  }

  lemma {:induction false} SamplesOfCall(a: seq<Exit>, x: Exit, b: seq<Exit>)
    ensures |Samples(a + [x] + b)| == |Samples(a)| + 1 + |Samples(b)|
    ensures Sum(Samples(a + [x] + b), LATENCY_OF)
         == Sum(Samples(a), LATENCY_OF) + SampleOf(x).latency + Sum(Samples(b), LATENCY_OF)
  {
    assert Samples(a + [x] + b) == Samples(a) + [SampleOf(x)] + Samples(b);
    SumConcat(Samples(a) + [SampleOf(x)], Samples(b), LATENCY_OF);
    SumSnoc(Samples(a), SampleOf(x), LATENCY_OF);
  }

  /** All calls of a forest are samples, but only the leaf calls have a latency ... */
  lemma {:induction false} LeafSampleTotals(id: u64, c: Calls)
    ensures |Samples(LeafExits(id, c))| == CallCount(c)
    ensures Sum(Samples(LeafExits(id, c)), LATENCY_OF) == LeafTime(c)
    ensures forall x :: x in LeafExits(id, c) ==> x.tid == id
  {
    if c.Call? {
      LeafSampleTotals(id, c.inner);
      LeafSampleTotals(id, c.rest);
      var x := ExitOf(id, c, if c.inner.NoCalls? then Some(c.entry) else None);
      SamplesOfCall(LeafExits(id, c.inner), x, LeafExits(id, c.rest));
    }
  }

  /** ... and none has one if the thread gets no start slot. */
  lemma {:induction false} LostSampleTotals(id: u64, c: Calls)
    ensures |Samples(LostExits(id, c))| == CallCount(c)
    ensures Sum(Samples(LostExits(id, c)), LATENCY_OF) == 0
    ensures forall x :: x in LostExits(id, c) ==> x.tid == id
  {
    if c.Call? {
      LostSampleTotals(id, c.inner);
      LostSampleTotals(id, c.rest);
      SamplesOfCall(LostExits(id, c.inner), ExitOf(id, c, None), LostExits(id, c.rest));
    }
  }

  /** The number of calls and the total latency of a process, 0 if it is not stored. */
  function CallsIn(st: Option<PidStats>): u64 {
    if st.Some? then st.value.totalCalls else 0
  }

  function TotalIn(st: Option<PidStats>): u64 {
    if st.Some? then st.value.totalLatency else 0
  }

  lemma {:induction false} CallsGrow(st: Option<PidStats>, xs: seq<Sample>)
    ensures CallsIn(FoldFrom(st, xs, First, Record)) == Wrap64(CallsIn(st) + |xs|)
  {
    if xs == [] {
      NoWrap(CallsIn(st));
    } else {
      var n := |xs| - 1;
      CallsGrow(st, xs[..n]);
      RecordGrows(FoldFrom(st, xs[..n], First, Record), xs[n]);
      AddWrapped(CallsIn(st) + n, 1);
    }
  }

  lemma {:induction false} TotalGrows(st: Option<PidStats>, xs: seq<Sample>)
    ensures TotalIn(FoldFrom(st, xs, First, Record)) == Wrap64(TotalIn(st) + Sum(xs, LATENCY_OF))
  {
    if xs == [] {
      NoWrap(TotalIn(st));
    } else {
      var n := |xs| - 1;
      TotalGrows(st, xs[..n]);
      RecordGrows(FoldFrom(st, xs[..n], First, Record), xs[n]);
      AddWrapped(TotalIn(st) + Sum(xs[..n], LATENCY_OF), xs[n].latency);
    }
  }

  lemma {:induction false} RecordGrows(st: Option<PidStats>, x: Sample)
    ensures var st' := if st.Some? then Record(st.value, x) else First(x);
            st'.totalCalls == Add64(CallsIn(st), 1) && st'.totalLatency == Add64(TotalIn(st), x.latency)
  {
  }

  lemma {:induction false} ItemsTagged(log: seq<Exit>, more: seq<Exit>, pid: u32)
    requires forall x :: x in more ==> PidOf(x.tid) == pid
    ensures Items(log + more) == Items(log) + Tagged(pid, Samples(more))
  {
    forall i | 0 <= i < |more|
      ensures PidOf(more[i].tid) == pid
    {
      assert more[i] in more;
    }
  }

  /** Exits of one process, after any others, are folded into its entry if it has or gets a
      slot, and change nothing otherwise. */
  lemma {:induction false} ExitsFold(s: State, s': State, log: seq<Exit>, more: seq<Exit>, pid: u32)
    requires s.pidStatistics == Build(Items(log), STATS_CAP, First, Record)
    requires s'.pidStatistics == Build(Items(log + more), STATS_CAP, First, Record)
    requires forall x :: x in more ==> PidOf(x.tid) == pid
    ensures var st, st' := Lookup(s.pidStatistics, pid), Lookup(s'.pidStatistics, pid);
            st' == if HasSlot(s.pidStatistics, STATS_CAP, pid) then FoldFrom(st, Samples(more), First, Record) else st
  {
    ItemsTagged(log, more, pid);
    BuildExtend(Items(log), pid, Samples(more), STATS_CAP, First, Record);
  }

  /** The entry of a process grows by a number of calls and their time, or, if it gets no slot,
      not at all. */
  ghost predicate Grown(st: Option<PidStats>, st': Option<PidStats>, slot: bool, n: nat, time: int) {
    if slot then CallsIn(st') == Wrap64(CallsIn(st) + n) && TotalIn(st') == Wrap64(TotalIn(st) + time)
    else CallsIn(st') == CallsIn(st) && TotalIn(st') == TotalIn(st)
  }

  lemma {:induction false} FoldIsGrowth(st: Option<PidStats>, st': Option<PidStats>, slot: bool, xs: seq<Sample>)
    requires st' == if slot then FoldFrom(st, xs, First, Record) else st
    ensures Grown(st, st', slot, |xs|, Sum(xs, LATENCY_OF))
  {
    CallsGrow(st, xs);
    TotalGrows(st, xs);
  }

  /** The thread gets a start slot. */
  predicate Timed(s: State, id: u64) {
    |s.entryTimes - {id}| < 10240
  }

  /** After any history, of this and any other threads: a forest of nested calls of thread `t` of
      process `pid` grows the calls of the process by all its calls, if the process has or gets
      a statistics slot, but the total latency only by the durations of the leaf calls, and only
      if the thread gets a start slot. */
  lemma {:induction false} NestedTotals(history: seq<Probe>, id: u64, pid: u32, t: u32, c: Calls)
    requires id == pid * 0x1_0000_0000 + t
    ensures var s, s' := Run(history), Run(history + ProbesOf(id, c));
            Grown(Lookup(s.pidStatistics, pid), Lookup(s'.pidStatistics, pid), HasSlot(s.pidStatistics, 10240, pid),
                  CallCount(c), if Timed(s, id) then LeafTime(c) else 0)
  {
    var s, s' := Run(history), Run(history + ProbesOf(id, c));
    var exits := if Timed(s, id) then LeafExits(id, c) else LostExits(id, c);
    KeyParts(id, pid, t);
    NestedLog(history, id, c);
    RunIsMatching(history);
    RunIsMatching(history + ProbesOf(id, c));
    LeafSampleTotals(id, c);
    LostSampleTotals(id, c);
    ExitsFold(s, s', Match(FRESH, AllSteps(history)).log, exits, pid);
    FoldIsGrowth(Lookup(s.pidStatistics, pid), Lookup(s'.pidStatistics, pid),
                 HasSlot(s.pidStatistics, STATS_CAP, pid), Samples(exits));
  }

  lemma {:induction false} NestedLog(history: seq<Probe>, id: u64, c: Calls)
    ensures Match(FRESH, AllSteps(history + ProbesOf(id, c))).log
         == Match(FRESH, AllSteps(history)).log
            + if Timed(Run(history), id) then LeafExits(id, c) else LostExits(id, c)
  {
    var m := Match(FRESH, AllSteps(history));
    RunIsMatching(history);
    AllStepsConcat(history, ProbesOf(id, c));
    ProbesAreSteps(id, c);
    MatchConcat(FRESH, AllSteps(history), StepsOf(id, c));
    if HasRoom(m, id) {
      NestedCallsMatchLeaves(m, id, c);
    } else {
      TimesBounded(AllSteps(history));
      FullOfOthers(m.times, id);
      NestedCallsLostWhenFull(m, id, c);
    }
  }
}
