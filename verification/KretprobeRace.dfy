/** The statistics part of the kretprobe return handler under every interleaving of any number
    of handlers: one step per map access, per atomic add, per plain load and per plain store. */
module KretprobeRace {
  import opened Words
  import opened BoundedTable
  import opened Sums
  import opened Kretprobe

  datatype Pc =
    | Lookup        // bpf_map_lookup_elem(&pid_statistics, &pid)
    | Insert        // bpf_map_update_elem(.., &zero_stats, BPF_ANY)
    | Relookup
    | AddTotal      // __sync_fetch_and_add(&stats->total_calls, 1)
    | AddClass      // .. error_calls or success_calls
    | AddLatency    // .. total_latency_ns
    | LoadMinZero   // stats->min_latency_ns == 0
    | LoadMin       // latency < stats->min_latency_ns
    | StoreMin
    | LoadMax       // latency > stats->max_latency_ns
    | StoreMax
    | StoreRetval
    | Done

  datatype Handler = Handler(pid: u32, sample: Sample, pc: Pc)

  datatype Machine = Machine(stats: map<u32, PidStats>, handlers: seq<Handler>)

  datatype Act = Arrive(pid: u32, sample: Sample) | Step(i: nat)

  /** How far a handler has come. */
  function Order(pc: Pc): nat {
    match pc
    case Lookup => 0 case Insert => 1 case Relookup => 2 case AddTotal => 3 case AddClass => 4
    case AddLatency => 5 case LoadMinZero => 6 case LoadMin => 7 case StoreMin => 8
    case LoadMax => 9 case StoreMax => 10 case StoreRetval => 11 case Done => 12
  }

  /** A handler that holds a non-null `stats` pointer. */
  predicate HasPointer(h: Handler) {
    3 <= Order(h.pc) < 12
  }

  /** A handler inside `if (latency > 0)`. */
  predicate InLatencyBlock(h: Handler) {
    5 <= Order(h.pc) <= 10
  }

  ghost predicate ValidHandler(h: Handler, keys: set<u32>) {
    && (HasPointer(h) ==> h.pid in keys)
    && (InLatencyBlock(h) ==> h.sample.latency > 0)
  }

  ghost predicate Valid(s: Machine) {
    forall h :: h in s.handlers ==> ValidHandler(h, s.stats.Keys)
  }

  /** Where a handler goes next, from what it loads. */
  function NextPc(stats: map<u32, PidStats>, h: Handler): Pc
    requires HasPointer(h) ==> h.pid in stats
  {
    match h.pc
    case Lookup => if h.pid in stats then AddTotal else Insert
    case Insert => Relookup
    case Relookup => if h.pid in stats then AddTotal else Done
    case AddTotal => AddClass
    case AddClass => if h.sample.latency > 0 then AddLatency else StoreRetval
    case AddLatency => LoadMinZero
    case LoadMinZero => if stats[h.pid].minLatency == 0 then StoreMin else LoadMin
    case LoadMin => if h.sample.latency < stats[h.pid].minLatency then StoreMin else LoadMax
    case StoreMin => LoadMax
    case LoadMax => if h.sample.latency > stats[h.pid].maxLatency then StoreMax else StoreRetval
    case StoreMax => StoreRetval
    case StoreRetval => Done
    case Done => Done
  }

  /** What a handler with a pointer does to the entry it points to. */
  function Write(st: PidStats, h: Handler): PidStats {
    match h.pc
    case AddTotal => st.(totalCalls := Add64(st.totalCalls, 1))
    case AddClass =>
      if IsError(h.sample.retval) then st.(errorCalls := Add64(st.errorCalls, 1))
      else st.(successCalls := Add64(st.successCalls, 1))
    case AddLatency => st.(totalLatency := Add64(st.totalLatency, h.sample.latency))
    case StoreMin => st.(minLatency := h.sample.latency)
    case StoreMax => st.(maxLatency := h.sample.latency)
    case StoreRetval => st.(lastRetval := h.sample.retval)
    case _ => st
  }

  function NextStats(stats: map<u32, PidStats>, h: Handler): map<u32, PidStats>
    requires HasPointer(h) ==> h.pid in stats
  {
    if h.pc.Insert? then Put(stats, STATS_CAP, h.pid, ZERO)
    else if HasPointer(h) then stats[h.pid := Write(stats[h.pid], h)]
    else stats
  }

  function Next(s: Machine, i: nat): (r: Machine)
    requires Valid(s) && i < |s.handlers|
  {
    var h := s.handlers[i];
    assert h in s.handlers;
    Machine(NextStats(s.stats, h), s.handlers[i := h.(pc := NextPc(s.stats, h))])
  }

  lemma {:induction false} NextValid(s: Machine, i: nat)
    requires Valid(s) && i < |s.handlers|
    ensures Valid(Next(s, i))
    ensures s.stats.Keys <= Next(s, i).stats.Keys
  {
    var s', h := Next(s, i), s.handlers[i];
    NextHandlerValid(s.stats, h);
    forall g | g in s'.handlers
      ensures ValidHandler(g, s'.stats.Keys)
    {
      var j :| 0 <= j < |s'.handlers| && s'.handlers[j] == g;
      assert s.handlers[j] in s.handlers;
    }
  }

  lemma {:induction false} NextHandlerValid(stats: map<u32, PidStats>, h: Handler)
    requires ValidHandler(h, stats.Keys)
    ensures ValidHandler(h.(pc := NextPc(stats, h)), NextStats(stats, h).Keys)
    ensures stats.Keys <= NextStats(stats, h).Keys
  {
    PutKeys(stats, STATS_CAP, h.pid, ZERO);
  }

  /** A schedule: arrivals and steps in any order.  A step of a handler that does not exist is no step. */
  function Exec(s: Machine, acts: seq<Act>): (r: Machine)
    requires Valid(s)
    ensures Valid(r)
  {
    if acts == [] then s
    else
      var m := Exec(s, acts[..|acts| - 1]);
      Do(m, acts[|acts| - 1])
  }

  function Do(s: Machine, a: Act): (r: Machine)
    requires Valid(s)
    ensures Valid(r)
  {
    match a
    case Arrive(pid, sample) => s.(handlers := s.handlers + [Handler(pid, sample, Lookup)])
    case Step(i) =>
      if i < |s.handlers| then
        NextValid(s, i);
        Next(s, i)
      else s
  }

  // ---------------------------------------------------------------- conservation

  /** The process has an entry and no handler is about to overwrite it with zeros: the
      premise under which nothing can be lost. */
  ghost predicate Settled(s: Machine, p: u32) {
    p in s.stats && forall h :: h in s.handlers && h.pid == p ==> h.pc != Insert
  }

  /** The four atomic counters of an entry. */
  datatype Counter = Total | Success | Errors | Latency

  function Value(st: PidStats, k: Counter): u64 {
    match k
    case Total => st.totalCalls
    case Success => st.successCalls
    case Errors => st.errorCalls
    case Latency => st.totalLatency
  }

  /** What a handler of process `p` has added to a counter so far.  (A handler that left because its
      insert found the table full counts as having added, too.  None does so while the entry is
      stored, and no entry is stored after that: the table stays full.) */
  function Added(p: u32, k: Counter, h: Handler): int {
    if h.pid != p then 0
    else
      match k
      case Total => if Order(h.pc) > 3 then 1 else 0
      case Success => if Order(h.pc) > 4 && !IsError(h.sample.retval) then 1 else 0
      case Errors => if Order(h.pc) > 4 && IsError(h.sample.retval) then 1 else 0
      case Latency => if Order(h.pc) > 5 then h.sample.latency else 0
  }

  /** What a handler of process `p` will have added once it is done. */
  function Due(p: u32, k: Counter, h: Handler): int {
    Added(p, k, h.(pc := Done))
  }

  /** 1 between the add to `total_calls` and the add to one of its two classes. */
  function Between(p: u32, h: Handler): int {
    if h.pid == p && h.pc == AddClass then 1 else 0
  }

  ghost function AllAdded(handlers: seq<Handler>, p: u32, k: Counter): int {
    Sum(handlers, (h: Handler) => Added(p, k, h))
  }

  ghost function AllDue(handlers: seq<Handler>, p: u32, k: Counter): int {
    Sum(handlers, (h: Handler) => Due(p, k, h))
  }

  ghost function AllBetween(handlers: seq<Handler>, p: u32): int {
    Sum(handlers, (h: Handler) => Between(p, h))
  }

  /** What a counter holds beyond what the handlers of its process have added. */
  ghost function Surplus(st: PidStats, handlers: seq<Handler>, p: u32, k: Counter): u64 {
    Wrap64(Value(st, k) - AllAdded(handlers, p, k))
  }

  /** A counter grows by exactly what the account of the stepping handler grows. */
  lemma {:induction false} StepAdds(s: Machine, i: nat, p: u32, k: Counter)
    requires Valid(s) && Settled(s, p) && i < |s.handlers|
    ensures p in Next(s, i).stats
    ensures Value(Next(s, i).stats[p], k)
         == Wrap64(Value(s.stats[p], k) + (Added(p, k, Next(s, i).handlers[i]) - Added(p, k, s.handlers[i])))
  {
    var h := s.handlers[i];
    assert h in s.handlers;
    if h.pid != p {
      OthersKeep(s, i, p);
    } else {
      assert h.pc != Insert;
    }
  }

  lemma {:induction false} SurplusStep(
    st: PidStats, st': PidStats, handlers: seq<Handler>, i: nat, h': Handler, p: u32, k: Counter)
    requires i < |handlers|
    requires Value(st', k) == Wrap64(Value(st, k) + (Added(p, k, h') - Added(p, k, handlers[i])))
    ensures Surplus(st', handlers[i := h'], p, k) == Surplus(st, handlers, p, k)
  {
    SumUpdate(handlers, i, h', (h: Handler) => Added(p, k, h));
    WrapShift(Value(st, k), AllAdded(handlers, p, k), Added(p, k, h') - Added(p, k, handlers[i]));
  }

  lemma {:induction false} WrapShift(c: u64, sum: int, d: int)
    ensures Wrap64(Wrap64(c + d) - (sum + d)) == Wrap64(c - sum)
  {
    WrapSub(c + d, sum + d);
  }

  lemma {:induction false} OthersKeep(s: Machine, i: nat, p: u32)
    requires Valid(s) && i < |s.handlers| && s.handlers[i].pid != p && p in s.stats
    ensures p in Next(s, i).stats && Next(s, i).stats[p] == s.stats[p]
  {
    assert s.handlers[i] in s.handlers;
  }

  lemma {:induction false} StepStaysSettled(s: Machine, i: nat, p: u32)
    requires Valid(s) && Settled(s, p) && i < |s.handlers|
    ensures Settled(Next(s, i), p)
  {
    NextValid(s, i);
    var s' := Next(s, i);
    forall g | g in s'.handlers && g.pid == p
      ensures g.pc != Insert
    {
      var j :| 0 <= j < |s'.handlers| && s'.handlers[j] == g;
      assert s.handlers[j] in s.handlers;
    }
  }

  lemma {:induction false} ArrivalKeepsSurplus(st: PidStats, handlers: seq<Handler>, h: Handler, p: u32, k: Counter)
    requires h.pc == Lookup
    ensures Surplus(st, handlers + [h], p, k) == Surplus(st, handlers, p, k)
  {
    SumSnoc(handlers, h, (h: Handler) => Added(p, k, h));
  }

  lemma {:induction false} StepKeepsSurplus(s: Machine, i: nat, p: u32, k: Counter)
    requires Valid(s) && Settled(s, p) && i < |s.handlers|
    ensures p in Next(s, i).stats
    ensures Surplus(Next(s, i).stats[p], Next(s, i).handlers, p, k) == Surplus(s.stats[p], s.handlers, p, k)
  {
    StepAdds(s, i, p, k);
    SurplusStep(s.stats[p], Next(s, i).stats[p], s.handlers, i, Next(s, i).handlers[i], p, k);
  }

  ghost function SurplusIn(s: Machine, p: u32, k: Counter): u64
    requires p in s.stats
  {
    Surplus(s.stats[p], s.handlers, p, k)
  }

  lemma {:induction false} ActKeepsSurplus(s: Machine, a: Act, p: u32, k: Counter)
    requires Valid(s) && Settled(s, p)
    ensures Settled(Do(s, a), p) && SurplusIn(Do(s, a), p, k) == SurplusIn(s, p, k)
  {
    if a.Arrive? {
      ArrivalKeepsSurplus(s.stats[p], s.handlers, Handler(a.pid, a.sample, Lookup), p, k);
    } else if a.i < |s.handlers| {
      StepStaysSettled(s, a.i, p);
      StepKeepsSurplus(s, a.i, p, k);
    }
  }

  lemma {:induction false} SurplusIsConstant(s: Machine, acts: seq<Act>, p: u32, k: Counter)
    requires Valid(s) && Settled(s, p)
    ensures Settled(Exec(s, acts), p) && SurplusIn(Exec(s, acts), p, k) == SurplusIn(s, p, k)
  {
    if acts != [] {
      SurplusIsConstant(s, acts[..|acts| - 1], p, k);
      ActKeepsSurplus(Exec(s, acts[..|acts| - 1]), acts[|acts| - 1], p, k);
    }
  }

  lemma {:induction false} AccountsBalance(handlers: seq<Handler>, p: u32)
    ensures AllAdded(handlers, p, Total)
         == AllAdded(handlers, p, Success) + AllAdded(handlers, p, Errors) + AllBetween(handlers, p)
  {
    if handlers != [] {
      AccountsBalance(handlers[..|handlers| - 1], p);
    }
  }

  /** Conservation, in every reachable state of every schedule: the growth of `total_calls` is
      the growth of `success_calls` plus the growth of `error_calls` plus the growth of the
      number of handlers between the two adds (all modulo 2^64). */
  lemma {:induction false} Conservation(s: Machine, acts: seq<Act>, r: Machine, p: u32)
    requires Valid(s) && Settled(s, p) && Exec(s, acts) == r
    ensures p in r.stats
    ensures var st, st' := s.stats[p], r.stats[p];
            Wrap64(st'.totalCalls - st.totalCalls)
            == Wrap64((st'.successCalls - st.successCalls) + (st'.errorCalls - st.errorCalls)
                      + (AllBetween(r.handlers, p) - AllBetween(s.handlers, p)))
  {
    SurplusIsConstant(s, acts, p, Total);
    forall k: Counter
      ensures SurplusIn(r, p, k) == SurplusIn(s, p, k)
    {
      SurplusIsConstant(s, acts, p, k);
    }
    Growth(s, r, p);
  }

  lemma {:induction false} Growth(s: Machine, r: Machine, p: u32)
    requires p in s.stats && p in r.stats
    requires forall k :: SurplusIn(r, p, k) == SurplusIn(s, p, k)
    ensures var st, st' := s.stats[p], r.stats[p];
            Wrap64(st'.totalCalls - st.totalCalls)
            == Wrap64((st'.successCalls - st.successCalls) + (st'.errorCalls - st.errorCalls)
                      + (AllBetween(r.handlers, p) - AllBetween(s.handlers, p)))
  {
    assert SurplusIn(r, p, Total) == SurplusIn(s, p, Total);
    assert SurplusIn(r, p, Success) == SurplusIn(s, p, Success);
    assert SurplusIn(r, p, Errors) == SurplusIn(s, p, Errors);
    BalancedGrowth(s.stats[p], r.stats[p], s.handlers, r.handlers, p);
  }

  lemma {:induction false} BalancedGrowth(st: PidStats, st': PidStats, hs: seq<Handler>, hs': seq<Handler>, p: u32)
    requires Surplus(st', hs', p, Total) == Surplus(st, hs, p, Total)
    requires Surplus(st', hs', p, Success) == Surplus(st, hs, p, Success)
    requires Surplus(st', hs', p, Errors) == Surplus(st, hs, p, Errors)
    ensures Wrap64(st'.totalCalls - st.totalCalls)
         == Wrap64((st'.successCalls - st.successCalls) + (st'.errorCalls - st.errorCalls)
                   + (AllBetween(hs', p) - AllBetween(hs, p)))
  {
    AccountsBalance(hs, p);
    AccountsBalance(hs', p);
    WrapBalance(st.totalCalls, st'.totalCalls, st.successCalls, st'.successCalls, st.errorCalls, st'.errorCalls,
                AllAdded(hs, p, Total), AllAdded(hs', p, Total), AllAdded(hs, p, Success), AllAdded(hs', p, Success),
                AllAdded(hs, p, Errors), AllAdded(hs', p, Errors), AllBetween(hs, p), AllBetween(hs', p));
  }

  /** All handlers of the process are done. */
  ghost predicate Quiet(s: Machine, p: u32) {
    forall h :: h in s.handlers && h.pid == p ==> h.pc == Done
  }

  lemma {:induction false} QuietAccounts(handlers: seq<Handler>, p: u32, k: Counter)
    requires forall h :: h in handlers && h.pid == p ==> h.pc == Done
    ensures AllAdded(handlers, p, k) == AllDue(handlers, p, k)
  {
    if handlers != [] {
      QuietAccounts(handlers[..|handlers| - 1], p, k);
      assert handlers[|handlers| - 1] in handlers;
    }
  }

  /** At quiescence nothing is lost: from any settled state, whatever the schedule was and
      whatever was in flight at its start, once all handlers of the process are done each of the
      four counters has grown by what its handlers had to add (one each, one per success, one
      per error, the sum of latencies) less what they had added before. */
  lemma {:induction false} QuiescentTotals(s: Machine, acts: seq<Act>, r: Machine, p: u32, k: Counter)
    requires Valid(s) && Settled(s, p) && Exec(s, acts) == r && Quiet(r, p)
    ensures p in r.stats
    ensures Value(r.stats[p], k)
         == Wrap64(Value(s.stats[p], k) + (AllDue(r.handlers, p, k) - AllAdded(s.handlers, p, k)))
  {
    SurplusIsConstant(s, acts, p, k);
    QuietGrowth(s, r, p, k);
  }

  lemma {:induction false} QuietGrowth(s: Machine, r: Machine, p: u32, k: Counter)
    requires p in s.stats && p in r.stats && Quiet(r, p) && SurplusIn(r, p, k) == SurplusIn(s, p, k)
    ensures Value(r.stats[p], k)
         == Wrap64(Value(s.stats[p], k) + (AllDue(r.handlers, p, k) - AllAdded(s.handlers, p, k)))
  {
    QuietAccounts(r.handlers, p, k);
    GrowthOf(Value(s.stats[p], k), Value(r.stats[p], k), AllAdded(s.handlers, p, k), AllAdded(r.handlers, p, k));
  }

  lemma {:induction false} GrowthOf(c: u64, c': u64, a: int, a': int)
    requires Wrap64(c' - a') == Wrap64(c - a)
    ensures c' == Wrap64(c + (a' - a))
  {
    WrapGrowth(c, c', a, a');
    NoWrap(c');
  }

  // ---------------------------------------------------------------- racy minimum and maximum

  /** Some handler of the process measured this positive latency. */
  ghost predicate Measured(s: Machine, p: u32, latency: u64) {
    latency > 0 && exists h :: h in s.handlers && h.pid == p && h.sample.latency == latency
  }

  lemma {:induction false} MeasuredStays(s: Machine, a: Act, p: u32, latency: u64)
    requires Valid(s) && Measured(s, p, latency)
    ensures Measured(Do(s, a), p, latency)
  {
    var h :| h in s.handlers && h.pid == p && h.sample.latency == latency;
    var j :| 0 <= j < |s.handlers| && s.handlers[j] == h;
    assert Do(s, a).handlers[j] in Do(s, a).handlers;
  }

  /** The envelope: without any synchronisation, each of the two fields only ever holds its
      initial value or a positive latency that some handler of the process measured. */
  lemma {:induction false} Envelope(s: Machine, acts: seq<Act>, p: u32)
    requires Valid(s) && Settled(s, p)
    ensures p in Exec(s, acts).stats
    ensures var r := Exec(s, acts);
            && (r.stats[p].minLatency == s.stats[p].minLatency || Measured(r, p, r.stats[p].minLatency))
            && (r.stats[p].maxLatency == s.stats[p].maxLatency || Measured(r, p, r.stats[p].maxLatency))
  {
    SurplusIsConstant(s, acts, p, Total);
    if acts != [] {
      var m, a := Exec(s, acts[..|acts| - 1]), acts[|acts| - 1];
      SurplusIsConstant(s, acts[..|acts| - 1], p, Total);
      Envelope(s, acts[..|acts| - 1], p);
      StoresAreMeasured(m, a, p);
      if m.stats[p].minLatency != s.stats[p].minLatency {
        MeasuredStays(m, a, p, m.stats[p].minLatency);
      }
      if m.stats[p].maxLatency != s.stats[p].maxLatency {
        MeasuredStays(m, a, p, m.stats[p].maxLatency);
      }
    }
  }

  lemma {:induction false} StoresAreMeasured(s: Machine, a: Act, p: u32)
    requires Valid(s) && Settled(s, p)
    ensures p in Do(s, a).stats
    ensures var r := Do(s, a);
            && (r.stats[p].minLatency == s.stats[p].minLatency || Measured(r, p, r.stats[p].minLatency))
            && (r.stats[p].maxLatency == s.stats[p].maxLatency || Measured(r, p, r.stats[p].maxLatency))
  {
    if a.Step? && a.i < |s.handlers| {
      var h := s.handlers[a.i];
      assert h in s.handlers;
      if h.pid != p {
        OthersKeep(s, a.i, p);
      } else {
        var h' := Do(s, a).handlers[a.i];
        assert h' in Do(s, a).handlers && h'.pid == p && h'.sample == h.sample;
      }
    }
  }

  /** A stored entry, and no handler of the process. */
  ghost predicate Untouched(s: Machine, p: u32) {
    p in s.stats && forall h :: h in s.handlers ==> h.pid != p
  }

  /** Positive latencies are never forgotten altogether: in every state reachable from an
      untouched entry, once a handler of the process with a positive latency is past the minimum
      (maximum) update, that field is not 0. */
  ghost predicate Remembered(s: Machine, p: u32) {
    p in s.stats && forall h :: h in s.handlers && h.pid == p && h.sample.latency > 0 ==>
      && (Order(h.pc) >= 7 && h.pc != StoreMin ==> s.stats[p].minLatency > 0)
      && (Order(h.pc) >= 11 ==> s.stats[p].maxLatency > 0)
  }

  lemma {:induction false} ActKeepsRemembered(s: Machine, a: Act, p: u32)
    requires Valid(s) && Settled(s, p) && Remembered(s, p)
    ensures Remembered(Do(s, a), p)
  {
    ActKeepsSurplus(s, a, p, Total);
    if a.Step? && a.i < |s.handlers| {
      var r, h := Do(s, a), s.handlers[a.i];
      assert h in s.handlers;
      if h.pid != p {
        OthersKeep(s, a.i, p);
      }
      forall g | g in r.handlers && g.pid == p && g.sample.latency > 0
        ensures Order(g.pc) >= 7 && g.pc != StoreMin ==> r.stats[p].minLatency > 0
        ensures Order(g.pc) >= 11 ==> r.stats[p].maxLatency > 0
      {
        var j :| 0 <= j < |r.handlers| && r.handlers[j] == g;
        assert s.handlers[j] in s.handlers;
      }
    }
  }

  lemma {:induction false} NeverForgotten(s: Machine, acts: seq<Act>, p: u32)
    requires Valid(s) && Untouched(s, p)
    ensures Remembered(Exec(s, acts), p)
  {
    if acts != [] {
      NeverForgotten(s, acts[..|acts| - 1], p);
      SurplusIsConstant(s, acts[..|acts| - 1], p, Total);
      ActKeepsRemembered(Exec(s, acts[..|acts| - 1]), acts[|acts| - 1], p);
    }
  }

  // ---------------------------------------------------------------- without interleaving

  lemma {:induction false} ExecSnoc(s: Machine, acts: seq<Act>, a: Act)
    requires Valid(s)
    ensures Exec(s, acts + [a]) == Do(Exec(s, acts), a)
  {
    assert (acts + [a])[..|acts|] == acts;
  }

  lemma {:induction false} ExecConcat(s: Machine, a: seq<Act>, b: seq<Act>)
    requires Valid(s)
    ensures Exec(s, a + b) == Exec(Exec(s, a), b)
  {
    if b == [] {
      assert a + b == a;
    } else {
      var b', x := b[..|b| - 1], b[|b| - 1];
      calc {
        Exec(s, a + b);
        { assert a + b == a + b' + [x]; }
        Exec(s, a + b' + [x]);
        { ExecSnoc(s, a + b', x); }
        Do(Exec(s, a + b'), x);
        { ExecConcat(s, a, b'); }
        Do(Exec(Exec(s, a), b'), x);
        { ExecSnoc(Exec(s, a), b', x); assert b == b' + [x]; }
        Exec(Exec(s, a), b);
      }
    }
  }

  /** What is left to do to the entry by a handler that runs on undisturbed. */
  function Finish(st: PidStats, h: Handler): PidStats
    requires HasPointer(h) || h.pc == Done
    decreases 12 - Order(h.pc)
  {
    if h.pc == Done then st
    else Finish(Write(st, h), h.(pc := NextPc(map[h.pid := st], h)))
  }

  lemma {:induction false} FinishRetval(st: PidStats, h: Handler)
    ensures Finish(st, h.(pc := StoreRetval)) == st.(lastRetval := h.sample.retval)
  {
    assert Finish(st, h.(pc := StoreRetval)) == Finish(st.(lastRetval := h.sample.retval), h.(pc := Done));
  }

  /** Undisturbed, the steps of a handler amount to the serial update of the entry. */
  lemma {:induction false} UndisturbedIsRecord(st: PidStats, p: u32, x: Sample)
    ensures Finish(st, Handler(p, x, AddTotal)) == Record(st, x)
  {
    var h := Handler(p, x, AddTotal);
    FinishCounters(st, h);
    if x.latency == 0 {
      FinishRetval(Counted(st, x), h);
    } else {
      FinishLatency(Counted(st, x), h);
    }
  }

  /** The entry after the first two adds. */
  function Counted(st: PidStats, x: Sample): PidStats {
    st.(totalCalls := Add64(st.totalCalls, 1),
        successCalls := if IsError(x.retval) then st.successCalls else Add64(st.successCalls, 1),
        errorCalls := if IsError(x.retval) then Add64(st.errorCalls, 1) else st.errorCalls)
  }

  lemma {:induction false} FinishCounters(st: PidStats, h: Handler)
    ensures Finish(st, h.(pc := AddTotal))
         == Finish(Counted(st, h.sample), h.(pc := if h.sample.latency > 0 then AddLatency else StoreRetval))
  {
    var st1 := st.(totalCalls := Add64(st.totalCalls, 1));
    assert Finish(st, h.(pc := AddTotal)) == Finish(st1, h.(pc := AddClass));
    assert Write(st1, h.(pc := AddClass)) == Counted(st, h.sample);
  }

  lemma {:induction false} FinishLatency(st: PidStats, h: Handler)
    requires h.sample.latency > 0
    ensures Finish(st, h.(pc := AddLatency))
         == st.(totalLatency := Add64(st.totalLatency, h.sample.latency),
                minLatency := NewMin(st.minLatency, h.sample.latency),
                maxLatency := NewMax(st.maxLatency, h.sample.latency),
                lastRetval := h.sample.retval)
  {
    var st1 := st.(totalLatency := Add64(st.totalLatency, h.sample.latency));
    assert Finish(st, h.(pc := AddLatency)) == Finish(st1, h.(pc := LoadMinZero));
    FinishMinimum(st1, h);
    FinishMaximum(st1.(minLatency := NewMin(st1.minLatency, h.sample.latency)), h);
  }

  lemma {:induction false} FinishMinimum(st: PidStats, h: Handler)
    requires h.sample.latency > 0
    ensures Finish(st, h.(pc := LoadMinZero))
         == Finish(st.(minLatency := NewMin(st.minLatency, h.sample.latency)), h.(pc := LoadMax))
  {
    if st.minLatency != 0 {
      assert Finish(st, h.(pc := LoadMinZero)) == Finish(st, h.(pc := LoadMin));
    } else {
      assert Finish(st, h.(pc := LoadMinZero)) == Finish(st, h.(pc := StoreMin));
    }
    assert Finish(st, h.(pc := StoreMin)) == Finish(st.(minLatency := h.sample.latency), h.(pc := LoadMax));
  }

  lemma {:induction false} FinishMaximum(st: PidStats, h: Handler)
    ensures Finish(st, h.(pc := LoadMax))
         == st.(maxLatency := NewMax(st.maxLatency, h.sample.latency),
                lastRetval := h.sample.retval)
  {
    if h.sample.latency > st.maxLatency {
      assert Finish(st, h.(pc := LoadMax)) == Finish(st, h.(pc := StoreMax));
      FinishRetval(st.(maxLatency := h.sample.latency), h);
    } else {
      assert Finish(st, h.(pc := LoadMax)) == Finish(st, h.(pc := StoreRetval));
      FinishRetval(st, h);
    }
  }

  /** The state in which handler `i` has run on undisturbed to its end. */
  function Ended(s: Machine, i: nat): Machine
    requires i < |s.handlers| && Order(s.handlers[i].pc) >= 3 && s.handlers[i].pid in s.stats
  {
    var h := s.handlers[i];
    Machine(s.stats[h.pid := Finish(s.stats[h.pid], h)], s.handlers[i := h.(pc := Done)])
  }

  lemma {:induction false} EndedAfterStep(s: Machine, i: nat)
    requires Valid(s) && i < |s.handlers| && HasPointer(s.handlers[i]) && s.handlers[i].pid in s.stats
    ensures var m := Next(s, i);
            && m.handlers[i].pid in m.stats && Order(m.handlers[i].pc) > Order(s.handlers[i].pc)
            && Ended(m, i) == Ended(s, i)
  {
    var m, h := Next(s, i), s.handlers[i];
    var h' := m.handlers[i];
    assert NextPc(map[h.pid := s.stats[h.pid]], h) == h'.pc;
    assert Finish(s.stats[h.pid], h) == Finish(m.stats[h.pid], h');
    assert m.handlers[i := h'.(pc := Done)] == s.handlers[i := h.(pc := Done)];
  }

  /** `n` steps of one handler and of no other. */
  function Steps(i: nat, n: nat): seq<Act> {
    seq(n, _ => Step(i))
  }

  lemma {:induction false} ExecFront(s: Machine, a: Act, acts: seq<Act>)
    requires Valid(s)
    ensures Exec(s, [a] + acts) == Exec(Do(s, a), acts)
  {
    ExecConcat(s, [a], acts);
    ExecSnoc(s, [], a);
    assert [] + [a] == [a];
  }

  /** The same from the front: step, then go on. */
  function Advance(s: Machine, i: nat, n: nat): Machine
    requires Valid(s)
    decreases n
  {
    if n == 0 then s else Advance(Do(s, Step(i)), i, n - 1)
  }

  lemma {:induction false} StepsAdvance(s: Machine, i: nat, n: nat)
    requires Valid(s)
    ensures Exec(s, Steps(i, n)) == Advance(s, i, n)
    decreases n
  {
    if n > 0 {
      StepsAdvance(Do(s, Step(i)), i, n - 1);
      assert Steps(i, n) == [Step(i)] + Steps(i, n - 1);
      ExecFront(s, Step(i), Steps(i, n - 1));
    }
  }

  /** Enough steps of one handler alone take it to the end. */
  lemma {:induction false} RunToEnd(s: Machine, i: nat, n: nat)
    requires Valid(s) && i < |s.handlers| && Order(s.handlers[i].pc) >= 3 && s.handlers[i].pid in s.stats
    requires n + Order(s.handlers[i].pc) >= 12
    ensures Advance(s, i, n) == Ended(s, i)
    decreases n
  {
    if n == 0 {
      assert Ended(s, i) == s;
    } else {
      StepTowardsEnd(s, i);
      RunToEnd(Do(s, Step(i)), i, n - 1);
    }
  }

  lemma {:induction false} StepTowardsEnd(s: Machine, i: nat)
    requires Valid(s) && i < |s.handlers| && Order(s.handlers[i].pc) >= 3 && s.handlers[i].pid in s.stats
    ensures var m := Do(s, Step(i));
            && i < |m.handlers| && m.handlers[i].pid in m.stats && Ended(m, i) == Ended(s, i)
            && Order(m.handlers[i].pc) >= if s.handlers[i].pc == Done then 12 else Order(s.handlers[i].pc) + 1
  {
    if s.handlers[i].pc == Done {
      assert Do(s, Step(i)) == s;
    } else {
      EndedAfterStep(s, i);
    }
  }

  /** A handler that arrives and then runs undisturbed, from any valid state in which its process
      is stored, leaves exactly the serial update: ten steps are enough, further ones idle. */
  lemma {:induction false} SerialHandlerRecords(s: Machine, p: u32, x: Sample, n: nat)
    requires Valid(s) && p in s.stats && n >= 10
    ensures Exec(s, [Arrive(p, x)] + Steps(|s.handlers|, n))
         == Machine(s.stats[p := Record(s.stats[p], x)], s.handlers + [Handler(p, x, Done)])
  {
    ExecFront(s, Arrive(p, x), Steps(|s.handlers|, n));
    StepsAdvance(Do(s, Arrive(p, x)), |s.handlers|, n);
    ArrivedRecords(s, Do(s, Arrive(p, x)), p, x, n);
  }

  lemma {:induction false} ArrivedRecords(s: Machine, m: Machine, p: u32, x: Sample, n: nat)
    requires Valid(m) && p in s.stats && n >= 10
    requires m == Machine(s.stats, s.handlers + [Handler(p, x, Lookup)])
    ensures Advance(m, |s.handlers|, n)
         == Machine(s.stats[p := Record(s.stats[p], x)], s.handlers + [Handler(p, x, Done)])
  {
    LookUp(s, m, p, x);
    PointedRecords(s, Do(m, Step(|s.handlers|)), p, x, n - 1);
  }

  lemma {:induction false} PointedRecords(s: Machine, m: Machine, p: u32, x: Sample, n: nat)
    requires Valid(m) && p in s.stats && n >= 9
    requires m == Machine(s.stats, s.handlers + [Handler(p, x, AddTotal)])
    ensures Advance(m, |s.handlers|, n)
         == Machine(s.stats[p := Record(s.stats[p], x)], s.handlers + [Handler(p, x, Done)])
  {
    assert m.handlers[|s.handlers|] == Handler(p, x, AddTotal);
    RunToEnd(m, |s.handlers|, n);
    EndedIsRecord(s, p, x);
  }

  lemma {:induction false} EndedIsRecord(s: Machine, p: u32, x: Sample)
    requires p in s.stats
    ensures Ended(Machine(s.stats, s.handlers + [Handler(p, x, AddTotal)]), |s.handlers|)
         == Machine(s.stats[p := Record(s.stats[p], x)], s.handlers + [Handler(p, x, Done)])
  {
    UndisturbedIsRecord(s.stats[p], p, x);
    assert (s.handlers + [Handler(p, x, AddTotal)])[|s.handlers| := Handler(p, x, Done)]
        == s.handlers + [Handler(p, x, Done)];
  }

  lemma {:induction false} LookUp(s: Machine, m: Machine, p: u32, x: Sample)
    requires Valid(m) && p in s.stats && m == Machine(s.stats, s.handlers + [Handler(p, x, Lookup)])
    ensures Do(m, Step(|s.handlers|)) == Machine(s.stats, s.handlers + [Handler(p, x, AddTotal)])
  {
    assert m.handlers[|s.handlers|] == Handler(p, x, Lookup);
  }
}
