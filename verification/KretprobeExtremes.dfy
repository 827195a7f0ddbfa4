/** When the unsynchronised minimum and maximum of the kretprobe statistics are exact under
    interleaving, and what goes wrong otherwise. */
module KretprobeExtremes {
  import opened Words
  import opened BoundedTable
  import opened Kretprobe
  import opened KretprobeRace

  /** Handlers of the process that are about to execute the given step have the same latency. */
  ghost predicate OneValueAt(s: Machine, p: u32, pc: Pc) {
    forall i, j :: 0 <= i < j < |s.handlers| && s.handlers[i].pid == s.handlers[j].pid == p
                   && s.handlers[i].pc == s.handlers[j].pc == pc ==>
      s.handlers[i].sample.latency == s.handlers[j].sample.latency
  }

  /** No two handlers of the process are about to store different minima, or different maxima. */
  ghost predicate Harmless(s: Machine, p: u32) {
    OneValueAt(s, p, StoreMin) && OneValueAt(s, p, StoreMax)
  }

  /** Every state of the run is harmless. */
  ghost predicate HarmlessRun(s: Machine, acts: seq<Act>, p: u32)
    requires Valid(s)
  {
    Harmless(Exec(s, acts), p) && (acts != [] ==> HarmlessRun(s, acts[..|acts| - 1], p))
  }

  /** The samples of the handlers of one process. */
  ghost function SamplesOf(handlers: seq<Handler>, p: u32): seq<Sample> {
    if handlers == [] then []
    else
      var h := handlers[|handlers| - 1];
      SamplesOf(handlers[..|handlers| - 1], p) + if h.pid == p then [h.sample] else []
  }

  lemma {:induction false} SamplesAre(handlers: seq<Handler>, p: u32, x: Sample)
    ensures x in SamplesOf(handlers, p) <==> exists h :: h in handlers && h.pid == p && h.sample == x
  {
    if handlers != [] {
      var n := |handlers| - 1;
      SamplesAre(handlers[..n], p, x);
      assert handlers[n] in handlers;
      if h :| h in handlers && h.pid == p && h.sample == x {
        assert h in handlers[..n] || h == handlers[n];
      }
    }
  }

  // ---------------------------------------------------------------- exact in harmless runs

  /** The latency of a sample from before, or of a handler. */
  ghost predicate Seen(before: seq<Sample>, handlers: seq<Handler>, p: u32, latency: u64) {
    || (exists x :: x in before && x.latency == latency)
    || (exists h :: h in handlers && h.pid == p && h.sample.latency == latency)
  }

  /** What the current minimum is to a handler. */
  ghost predicate MinFits(lo: u64, h: Handler) {
    h.sample.latency > 0 ==>
      && (Order(h.pc) >= 9 ==> 0 < lo <= h.sample.latency)
      && (h.pc == LoadMin ==> lo > 0)
      && (h.pc == StoreMin ==> lo == 0 || h.sample.latency <= lo)
  }

  ghost predicate MaxFits(hi: u64, h: Handler) {
    && (Order(h.pc) >= 11 ==> h.sample.latency <= hi)
    && (h.pc == StoreMax ==> h.sample.latency >= hi)
  }

  ghost predicate SharpMin(s: Machine, p: u32, before: seq<Sample>) {
    && p in s.stats
    && (s.stats[p].minLatency != 0 ==> Seen(before, s.handlers, p, s.stats[p].minLatency))
    && (forall x :: x in before && x.latency > 0 ==> 0 < s.stats[p].minLatency <= x.latency)
    && (forall h :: h in s.handlers && h.pid == p ==> MinFits(s.stats[p].minLatency, h))
  }

  ghost predicate SharpMax(s: Machine, p: u32, before: seq<Sample>) {
    && p in s.stats
    && (s.stats[p].maxLatency != 0 ==> Seen(before, s.handlers, p, s.stats[p].maxLatency))
    && (forall x :: x in before ==> x.latency <= s.stats[p].maxLatency)
    && (forall h :: h in s.handlers && h.pid == p ==> MaxFits(s.stats[p].maxLatency, h))
  }

  /** What a step of a handler does to the two fields. */
  lemma {:induction false} OwnStep(stats: map<u32, PidStats>, h: Handler)
    requires h.pid in stats && h.pc != Insert && ValidHandler(h, stats.Keys)
    ensures h.pid in NextStats(stats, h)
    ensures NextStats(stats, h)[h.pid].minLatency
         == if h.pc == StoreMin then h.sample.latency else stats[h.pid].minLatency
    ensures NextStats(stats, h)[h.pid].maxLatency
         == if h.pc == StoreMax then h.sample.latency else stats[h.pid].maxLatency
    ensures MinFits(stats[h.pid].minLatency, h) ==>
              MinFits(NextStats(stats, h)[h.pid].minLatency, h.(pc := NextPc(stats, h)))
    ensures MaxFits(stats[h.pid].maxLatency, h) ==>
              MaxFits(NextStats(stats, h)[h.pid].maxLatency, h.(pc := NextPc(stats, h)))
  {
  }

  lemma {:induction false} SeenStays(before: seq<Sample>, hs: seq<Handler>, i: nat, pc: Pc, p: u32, latency: u64)
    requires i < |hs| && Seen(before, hs, p, latency)
    ensures Seen(before, hs[i := hs[i].(pc := pc)], p, latency)
  {
    if h :| h in hs && h.pid == p && h.sample.latency == latency {
      var j :| 0 <= j < |hs| && hs[j] == h;
      assert hs[i := hs[i].(pc := pc)][j] in hs[i := hs[i].(pc := pc)];
    }
  }

  lemma {:induction false} OwnSeen(before: seq<Sample>, hs: seq<Handler>, i: nat, pc: Pc)
    requires i < |hs|
    ensures Seen(before, hs[i := hs[i].(pc := pc)], hs[i].pid, hs[i].sample.latency)
  {
    assert hs[i := hs[i].(pc := pc)][i] in hs[i := hs[i].(pc := pc)];
  }

  lemma {:induction false} StepKeepsMin(s: Machine, i: nat, p: u32, before: seq<Sample>)
    requires Valid(s) && Settled(s, p) && i < |s.handlers| && SharpMin(s, p, before) && OneValueAt(s, p, StoreMin)
    ensures SharpMin(Next(s, i), p, before)
  {
    var r, h := Next(s, i), s.handlers[i];
    assert h in s.handlers;
    if h.pid == p {
      OwnStep(s.stats, h);
      OwnSeen(before, s.handlers, i, NextPc(s.stats, h));
    } else {
      OthersKeep(s, i, p);
    }
    if s.stats[p].minLatency != 0 {
      SeenStays(before, s.handlers, i, NextPc(s.stats, h), p, s.stats[p].minLatency);
    }
    forall g | g in r.handlers && g.pid == p
      ensures MinFits(r.stats[p].minLatency, g)
    {
      var j :| 0 <= j < |r.handlers| && r.handlers[j] == g;
      assert s.handlers[j] in s.handlers;
    }
  }

  lemma {:induction false} StepKeepsMax(s: Machine, i: nat, p: u32, before: seq<Sample>)
    requires Valid(s) && Settled(s, p) && i < |s.handlers| && SharpMax(s, p, before) && OneValueAt(s, p, StoreMax)
    ensures SharpMax(Next(s, i), p, before)
  {
    var r, h := Next(s, i), s.handlers[i];
    assert h in s.handlers;
    if h.pid == p {
      OwnStep(s.stats, h);
      OwnSeen(before, s.handlers, i, NextPc(s.stats, h));
    } else {
      OthersKeep(s, i, p);
    }
    if s.stats[p].maxLatency != 0 {
      SeenStays(before, s.handlers, i, NextPc(s.stats, h), p, s.stats[p].maxLatency);
    }
    forall g | g in r.handlers && g.pid == p
      ensures MaxFits(r.stats[p].maxLatency, g)
    {
      var j :| 0 <= j < |r.handlers| && r.handlers[j] == g;
      assert s.handlers[j] in s.handlers;
    }
  }

  lemma {:induction false} ActKeepsSharp(s: Machine, a: Act, p: u32, before: seq<Sample>)
    requires Valid(s) && Settled(s, p) && Harmless(s, p)
    requires SharpMin(s, p, before) && SharpMax(s, p, before)
    ensures SharpMin(Do(s, a), p, before) && SharpMax(Do(s, a), p, before)
  {
    if a.Step? && a.i < |s.handlers| {
      StepKeepsMin(s, a.i, p, before);
      StepKeepsMax(s, a.i, p, before);
    } else if a.Arrive? {
      assert forall h :: h in s.handlers ==> h in Do(s, a).handlers;
    }
  }

  lemma {:induction false} RunKeepsSharp(s: Machine, acts: seq<Act>, p: u32, before: seq<Sample>)
    requires Valid(s) && Settled(s, p) && SharpMin(s, p, before) && SharpMax(s, p, before) && HarmlessRun(s, acts, p)
    ensures Settled(Exec(s, acts), p) && SharpMin(Exec(s, acts), p, before) && SharpMax(Exec(s, acts), p, before)
  {
    if acts != [] {
      RunKeepsSharp(s, acts[..|acts| - 1], p, before);
      ActKeepsSharp(Exec(s, acts[..|acts| - 1]), acts[|acts| - 1], p, before);
      ActKeepsSurplus(Exec(s, acts[..|acts| - 1]), acts[|acts| - 1], p, Total);
    }
  }

  /** The two fields are the extremes of all positive latencies, those summarised before and
      those of the handlers of the process. */
  ghost predicate Exact(r: Machine, p: u32, before: seq<Sample>) {
    p in r.stats && Extremes(r.stats[p].minLatency, r.stats[p].maxLatency, before + SamplesOf(r.handlers, p))
  }

  /** Exactness under interleaving: after every harmless run on an untouched entry the two fields
      are exact at quiescence. */
  lemma {:induction false} ExactIfHarmless(s: Machine, acts: seq<Act>, r: Machine, p: u32, before: seq<Sample>)
    requires Valid(s) && Untouched(s, p) && HarmlessRun(s, acts, p) && Exec(s, acts) == r && Quiet(r, p)
    requires Extremes(s.stats[p].minLatency, s.stats[p].maxLatency, before)
    ensures Exact(r, p, before)
  {
    RunKeepsSharp(s, acts, p, before);
    SharpIsExact(r, p, before);
  }

  lemma {:induction false} SharpIsExact(r: Machine, p: u32, before: seq<Sample>)
    requires SharpMin(r, p, before) && SharpMax(r, p, before) && Quiet(r, p)
    ensures Exact(r, p, before)
  {
    var lo, hi, xs := r.stats[p].minLatency, r.stats[p].maxLatency, before + SamplesOf(r.handlers, p);
    forall x: Sample | x in xs && x.latency > 0
      ensures 0 < lo <= x.latency <= hi
    {
      SamplesAre(r.handlers, p, x);
    }
    if lo != 0 { SeenInAll(before, r.handlers, p, lo); }
    if hi != 0 { SeenInAll(before, r.handlers, p, hi); }
  }

  lemma {:induction false} SeenInAll(before: seq<Sample>, handlers: seq<Handler>, p: u32, latency: u64)
    requires Seen(before, handlers, p, latency)
    ensures exists x :: x in before + SamplesOf(handlers, p) && x.latency == latency
  {
    if x :| x in before && x.latency == latency {
      assert x in before + SamplesOf(handlers, p);
    } else {
      var h :| h in handlers && h.pid == p && h.sample.latency == latency;
      SamplesAre(handlers, p, h.sample);
      assert h.sample in before + SamplesOf(handlers, p);
    }
  }

  // ---------------------------------------------------------------- every collision can lose

  /** Two handlers of the process that are about to execute the same step. */
  ghost predicate Collide(s: Machine, i: nat, j: nat, p: u32, pc: Pc) {
    && i < |s.handlers| && j < |s.handlers| && i != j
    && s.handlers[i].pid == s.handlers[j].pid == p && s.handlers[i].pc == s.handlers[j].pc == pc
  }

  lemma {:induction false} ExecTwo(s: Machine, a: Act, b: Act)
    requires Valid(s)
    ensures Exec(s, [a, b]) == Do(Do(s, a), b)
  {
    assert [a, b] == [a] + [b] && [b] == [] + [b];
    ExecFront(s, a, [b]);
    ExecSnoc(Do(s, a), [], b);
  }

  /** From any valid state with two handlers about to store the maximum, the larger latency can
      be lost in two steps: it is stored first and overwritten by the smaller one. */
  lemma {:induction false} MaximumLost(s: Machine, i: nat, j: nat, p: u32)
    requires Valid(s) && Collide(s, i, j, p, StoreMax) && s.handlers[i].sample.latency < s.handlers[j].sample.latency
    ensures var r := Exec(s, [Step(j), Step(i)]);
            && p in r.stats && r.stats[p].maxLatency == s.handlers[i].sample.latency < s.handlers[j].sample.latency
            && r.handlers == s.handlers[j := s.handlers[j].(pc := StoreRetval)][i := s.handlers[i].(pc := StoreRetval)]
  {
    assert s.handlers[i] in s.handlers && s.handlers[j] in s.handlers;
    ExecTwo(s, Step(j), Step(i));
    var m := Do(s, Step(j));
    assert m.handlers[i] == s.handlers[i];
  }

  /** Likewise the smaller latency, of two handlers about to store the minimum. */
  lemma {:induction false} MinimumLost(s: Machine, i: nat, j: nat, p: u32)
    requires Valid(s) && Collide(s, i, j, p, StoreMin) && s.handlers[i].sample.latency < s.handlers[j].sample.latency
    ensures var r := Exec(s, [Step(i), Step(j)]);
            && p in r.stats && 0 < s.handlers[i].sample.latency < s.handlers[j].sample.latency == r.stats[p].minLatency
            && r.handlers == s.handlers[i := s.handlers[i].(pc := LoadMax)][j := s.handlers[j].(pc := LoadMax)]
  {
    assert s.handlers[i] in s.handlers && s.handlers[j] in s.handlers;
    ExecTwo(s, Step(i), Step(j));
    var m := Do(s, Step(i));
    assert m.handlers[j] == s.handlers[j];
  }

  /** The end of a handler that is past a field does not change that field. */
  lemma {:induction false} FinishKeeps(st: PidStats, h: Handler)
    ensures Order(h.pc) >= 9 ==> Finish(st, h).minLatency == st.minLatency
    ensures Order(h.pc) >= 11 ==> Finish(st, h).maxLatency == st.maxLatency
    decreases 12 - Order(h.pc)
  {
    if 9 <= Order(h.pc) < 12 {
      var st', h' := Write(st, h), h.(pc := NextPc(map[h.pid := st], h));
      FinishKeeps(st', h');
      assert Finish(st, h) == Finish(st', h');
    }
  }

  /** Two handlers past the minimum run to their ends, one after the other. */
  lemma {:induction false} BothEnd(s: Machine, i: nat, j: nat, p: u32, n: nat)
    requires Valid(s) && p in s.stats && n >= 3 && i < |s.handlers| && j < |s.handlers| && i != j
    requires s.handlers[i].pid == s.handlers[j].pid == p
    requires Order(s.handlers[i].pc) >= 9 && Order(s.handlers[j].pc) >= 9
    ensures var r := Exec(s, Steps(i, n) + Steps(j, n));
            && p in r.stats && r.stats[p].minLatency == s.stats[p].minLatency
            && (Order(s.handlers[i].pc) >= 11 && Order(s.handlers[j].pc) >= 11 ==>
                  r.stats[p].maxLatency == s.stats[p].maxLatency)
            && r.handlers == s.handlers[i := s.handlers[i].(pc := Done)][j := s.handlers[j].(pc := Done)]
  {
    ExecConcat(s, Steps(i, n), Steps(j, n));
    StepsAdvance(s, i, n);
    RunToEnd(s, i, n);
    FinishKeeps(s.stats[p], s.handlers[i]);
    var m := Exec(s, Steps(i, n));
    assert m.handlers[j] == s.handlers[j];
    StepsAdvance(m, j, n);
    RunToEnd(m, j, n);
    FinishKeeps(m.stats[p], m.handlers[j]);
  }

  /** The extremes are wrong, whatever was summarised before. */
  ghost predicate Inexact(r: Machine, p: u32) {
    forall before: seq<Sample> :: !Exact(r, p, before)
  }

  lemma {:induction false} InexactIf(r: Machine, p: u32, h: Handler)
    requires p in r.stats && h in r.handlers && h.pid == p && h.sample.latency > 0
    requires h.sample.latency < r.stats[p].minLatency || h.sample.latency > r.stats[p].maxLatency
    ensures Inexact(r, p)
  {
    SamplesAre(r.handlers, p, h.sample);
    forall before: seq<Sample>
      ensures !Exact(r, p, before)
    {
      assert h.sample in before + SamplesOf(r.handlers, p);
    }
  }

  /** The other handlers of the process are done. */
  ghost predicate Alone(s: Machine, i: nat, j: nat, p: u32) {
    forall k :: 0 <= k < |s.handlers| && k != i && k != j && s.handlers[k].pid == p ==> s.handlers[k].pc == Done
  }

  /** Whenever two handlers are about to store different maxima, and the others of the process are
      done, some steps of the two lead to quiescence and leave a wrong extreme. */
  lemma {:induction false} LoneCollisionLosesMaximum(s: Machine, i: nat, j: nat, p: u32)
    requires Valid(s) && Collide(s, i, j, p, StoreMax) && s.handlers[i].sample.latency < s.handlers[j].sample.latency
    requires Alone(s, i, j, p)
    ensures var r := Exec(s, [Step(j), Step(i)] + (Steps(i, 3) + Steps(j, 3)));
            Quiet(r, p) && Inexact(r, p)
  {
    var m := Exec(s, [Step(j), Step(i)]);
    MaximumLost(s, i, j, p);
    ExecConcat(s, [Step(j), Step(i)], Steps(i, 3) + Steps(j, 3));
    BothEndQuiet(s, m, StoreRetval, i, j, p);
    InexactIf(Exec(m, Steps(i, 3) + Steps(j, 3)), p, s.handlers[j].(pc := Done));
  }

  lemma {:induction false} LoneCollisionLosesMinimum(s: Machine, i: nat, j: nat, p: u32)
    requires Valid(s) && Collide(s, i, j, p, StoreMin) && s.handlers[i].sample.latency < s.handlers[j].sample.latency
    requires Alone(s, i, j, p)
    ensures var r := Exec(s, [Step(i), Step(j)] + (Steps(i, 3) + Steps(j, 3)));
            Quiet(r, p) && Inexact(r, p)
  {
    var m := Exec(s, [Step(i), Step(j)]);
    MinimumLost(s, i, j, p);
    ExecConcat(s, [Step(i), Step(j)], Steps(i, 3) + Steps(j, 3));
    BothEndQuiet(s, m, LoadMax, i, j, p);
    InexactIf(Exec(m, Steps(i, 3) + Steps(j, 3)), p, s.handlers[i].(pc := Done));
  }

  lemma {:induction false} BothEndQuiet(s: Machine, m: Machine, pc: Pc, i: nat, j: nat, p: u32)
    requires Valid(m) && p in m.stats && i < |s.handlers| && j < |s.handlers| && i != j && Order(pc) >= 9
    requires s.handlers[i].pid == s.handlers[j].pid == p && Alone(s, i, j, p)
    requires |m.handlers| == |s.handlers|
    requires m.handlers[i] == s.handlers[i].(pc := pc) && m.handlers[j] == s.handlers[j].(pc := pc)
    requires forall k :: 0 <= k < |s.handlers| && k != i && k != j ==> m.handlers[k] == s.handlers[k]
    ensures var r := Exec(m, Steps(i, 3) + Steps(j, 3));
            && Quiet(r, p) && p in r.stats && r.stats[p].minLatency == m.stats[p].minLatency
            && (Order(pc) >= 11 ==> r.stats[p].maxLatency == m.stats[p].maxLatency)
            && s.handlers[i].(pc := Done) in r.handlers && s.handlers[j].(pc := Done) in r.handlers
  {
    BothEnd(m, i, j, p, 3);
    var hs := m.handlers[i := m.handlers[i].(pc := Done)][j := m.handlers[j].(pc := Done)];
    assert hs[i] in hs && hs[j] in hs;
  }

  // ---------------------------------------------------------------- draining the other handlers

  /** One step of a handler of a stored process takes it on, and no other handler. */
  lemma {:induction false} StepOn(s: Machine, k: nat, p: u32)
    requires Valid(s) && p in s.stats && k < |s.handlers| && s.handlers[k].pid == p
    ensures var m := Do(s, Step(k));
            && p in m.stats && |m.handlers| == |s.handlers|
            && m.handlers == s.handlers[k := s.handlers[k].(pc := m.handlers[k].pc)]
            && (s.handlers[k].pc == Done ==> m.handlers[k].pc == Done)
            && (s.handlers[k].pc != Done ==> Order(m.handlers[k].pc) > Order(s.handlers[k].pc))
  {
    assert s.handlers[k] in s.handlers;
  }

  /** Enough steps of one handler of a stored process take it to the end, from wherever it is. */
  lemma {:induction false} OneEnds(s: Machine, k: nat, p: u32, n: nat)
    requires Valid(s) && p in s.stats && k < |s.handlers| && s.handlers[k].pid == p
    requires n + Order(s.handlers[k].pc) >= 12
    ensures p in Advance(s, k, n).stats
    ensures Advance(s, k, n).handlers == s.handlers[k := s.handlers[k].(pc := Done)]
    decreases n
  {
    if n > 0 {
      StepOn(s, k, p);
      OneEnds(Do(s, Step(k)), k, p, n - 1);
    }
  }

  /** Run the first `c` handlers of the process to their ends, except two. */
  function Drain(handlers: seq<Handler>, c: nat, i: nat, j: nat, p: u32): seq<Act>
    requires c <= |handlers|
  {
    if c == 0 then []
    else
      var k := c - 1;
      Drain(handlers, k, i, j, p) + if k != i && k != j && handlers[k].pid == p then Steps(k, 12) else []
  }

  ghost predicate Drained(s: Machine, r: Machine, c: nat, i: nat, j: nat, p: u32) {
    && p in r.stats && |r.handlers| == |s.handlers|
    && forall k :: 0 <= k < |s.handlers| ==>
         r.handlers[k]
         == if k < c && k != i && k != j && s.handlers[k].pid == p then s.handlers[k].(pc := Done) else s.handlers[k]
  }

  lemma {:induction false} DrainDrains(s: Machine, c: nat, i: nat, j: nat, p: u32)
    requires Valid(s) && p in s.stats && c <= |s.handlers|
    ensures Drained(s, Exec(s, Drain(s.handlers, c, i, j, p)), c, i, j, p)
  {
    if c > 0 {
      DrainDrains(s, c - 1, i, j, p);
      DrainNext(s, Drain(s.handlers, c - 1, i, j, p), c - 1, i, j, p);
    }
  }

  lemma {:induction false} DrainNext(s: Machine, acts: seq<Act>, k: nat, i: nat, j: nat, p: u32)
    requires Valid(s) && k < |s.handlers| && Drained(s, Exec(s, acts), k, i, j, p)
    ensures var next := if k != i && k != j && s.handlers[k].pid == p then Steps(k, 12) else [];
            Drained(s, Exec(s, acts + next), k + 1, i, j, p)
  {
    if k != i && k != j && s.handlers[k].pid == p {
      ExecConcat(s, acts, Steps(k, 12));
      DrainOne(s, Exec(s, acts), k, i, j, p);
    } else {
      assert acts + [] == acts;
    }
  }

  lemma {:induction false} DrainOne(s: Machine, m: Machine, k: nat, i: nat, j: nat, p: u32)
    requires Valid(m) && k < |s.handlers| && k != i && k != j && s.handlers[k].pid == p && Drained(s, m, k, i, j, p)
    ensures Drained(s, Exec(m, Steps(k, 12)), k + 1, i, j, p)
  {
    StepsAdvance(m, k, 12);
    OneEnds(m, k, p, 12);
  }

  lemma {:induction false} DrainIsSteps(handlers: seq<Handler>, c: nat, i: nat, j: nat, p: u32)
    requires c <= |handlers|
    ensures StepsOnly(Drain(handlers, c, i, j, p))
  {
    if c > 0 {
      DrainIsSteps(handlers, c - 1, i, j, p);
    }
  }

  /** Two colliding handlers are left alone by the drain. */
  lemma {:induction false} CollisionStays(s: Machine, i: nat, j: nat, p: u32, pc: Pc) returns (drain: seq<Act>)
    requires Valid(s) && Collide(s, i, j, p, pc) && HasPointer(s.handlers[i])
    ensures StepsOnly(drain)
    ensures var r := Exec(s, drain);
            && Collide(r, i, j, p, pc) && Alone(r, i, j, p)
            && r.handlers[i] == s.handlers[i] && r.handlers[j] == s.handlers[j]
  {
    assert s.handlers[i] in s.handlers;
    drain := Drain(s.handlers, |s.handlers|, i, j, p);
    DrainDrains(s, |s.handlers|, i, j, p);
    DrainIsSteps(s.handlers, |s.handlers|, i, j, p);
  }

  // ---------------------------------------------------------------- exactly when

  /** No new handler arrives. */
  ghost predicate StepsOnly(acts: seq<Act>) {
    forall a :: a in acts ==> a.Step?
  }

  /** Whenever two handlers of the process are about to store different values, however many
      others are in flight, some steps lead to quiescence and leave a wrong extreme. */
  lemma {:induction false} CollisionLosesMaximum(s: Machine, i: nat, j: nat, p: u32) returns (acts: seq<Act>)
    requires Valid(s) && Collide(s, i, j, p, StoreMax) && s.handlers[i].sample.latency < s.handlers[j].sample.latency
    ensures StepsOnly(acts) && Quiet(Exec(s, acts), p) && Inexact(Exec(s, acts), p)
  {
    var drain := CollisionStays(s, i, j, p, StoreMax);
    LoneCollisionLosesMaximum(Exec(s, drain), i, j, p);
    acts := drain + ([Step(j), Step(i)] + (Steps(i, 3) + Steps(j, 3)));
    ExecConcat(s, drain, [Step(j), Step(i)] + (Steps(i, 3) + Steps(j, 3)));
  }

  lemma {:induction false} CollisionLosesMinimum(s: Machine, i: nat, j: nat, p: u32) returns (acts: seq<Act>)
    requires Valid(s) && Collide(s, i, j, p, StoreMin) && s.handlers[i].sample.latency < s.handlers[j].sample.latency
    ensures StepsOnly(acts) && Quiet(Exec(s, acts), p) && Inexact(Exec(s, acts), p)
  {
    var drain := CollisionStays(s, i, j, p, StoreMin);
    LoneCollisionLosesMinimum(Exec(s, drain), i, j, p);
    acts := drain + ([Step(i), Step(j)] + (Steps(i, 3) + Steps(j, 3)));
    ExecConcat(s, drain, [Step(i), Step(j)] + (Steps(i, 3) + Steps(j, 3)));
  }

  lemma {:induction false} HarmLosesAnExtreme(s: Machine, p: u32) returns (acts: seq<Act>)
    requires Valid(s) && !Harmless(s, p)
    ensures StepsOnly(acts) && Quiet(Exec(s, acts), p) && Inexact(Exec(s, acts), p)
  {
    if !OneValueAt(s, p, StoreMin) {
      var i, j :| 0 <= i < j < |s.handlers| && s.handlers[i].pid == s.handlers[j].pid == p
                  && s.handlers[i].pc == s.handlers[j].pc == StoreMin
                  && s.handlers[i].sample.latency != s.handlers[j].sample.latency;
      var less := s.handlers[i].sample.latency < s.handlers[j].sample.latency;
      acts := CollisionLosesMinimum(s, if less then i else j, if less then j else i, p);
    } else {
      var i, j :| 0 <= i < j < |s.handlers| && s.handlers[i].pid == s.handlers[j].pid == p
                  && s.handlers[i].pc == s.handlers[j].pc == StoreMax
                  && s.handlers[i].sample.latency != s.handlers[j].sample.latency;
      var less := s.handlers[i].sample.latency < s.handlers[j].sample.latency;
      acts := CollisionLosesMaximum(s, if less then i else j, if less then j else i, p);
    }
  }

  /** Whatever steps the handlers now make, the fields are exact once those of the process are done. */
  ghost predicate AlwaysExact(m: Machine, p: u32, before: seq<Sample>)
    requires Valid(m)
  {
    forall more :: StepsOnly(more) && Quiet(Exec(m, more), p) ==> Exact(Exec(m, more), p, before)
  }

  /** Whatever steps the handlers now make, no two of the process are ever about to store
      different minima or maxima. */
  ghost predicate NeverHarmful(m: Machine, p: u32)
    requires Valid(m)
  {
    forall more :: StepsOnly(more) ==> Harmless(Exec(m, more), p)
  }

  lemma {:induction false} NeverHarmfulRun(m: Machine, more: seq<Act>, p: u32)
    requires Valid(m) && NeverHarmful(m, p) && StepsOnly(more)
    ensures HarmlessRun(m, more, p)
  {
    if more != [] {
      NeverHarmfulRun(m, more[..|more| - 1], p);
    }
  }

  /** Exactly when: in every state that a harmless run reaches from an untouched entry, the
      extremes will be exact at quiescence on every continuation by steps of the handlers in
      flight, if and only if no continuation has two of them about to store different minima or
      different maxima. */
  lemma {:induction false} ExactIff(s: Machine, acts: seq<Act>, m: Machine, p: u32, before: seq<Sample>)
    requires Valid(s) && Untouched(s, p) && HarmlessRun(s, acts, p) && Exec(s, acts) == m
    requires Extremes(s.stats[p].minLatency, s.stats[p].maxLatency, before)
    ensures AlwaysExact(m, p, before) <==> NeverHarmful(m, p)
  {
    RunKeepsSharp(s, acts, p, before);
    if NeverHarmful(m, p) {
      forall more | StepsOnly(more) && Quiet(Exec(m, more), p)
        ensures Exact(Exec(m, more), p, before)
      {
        NeverHarmfulRun(m, more, p);
        RunKeepsSharp(m, more, p, before);
        SharpIsExact(Exec(m, more), p, before);
      }
    }
    if !NeverHarmful(m, p) {
      var more :| StepsOnly(more) && !Harmless(Exec(m, more), p);
      var rest := HarmLosesAnExtreme(Exec(m, more), p);
      ExecConcat(m, more, rest);
      assert StepsOnly(more + rest) && !Exact(Exec(m, more + rest), p, before);
    }
  }

  // ---------------------------------------------------------------- a race in full

  const ONE_ZERO_ENTRY := Machine(map[1 := ZERO], [])

  /** Some schedule leads from one state to another. */
  ghost predicate Reaches(s: Machine, r: Machine)
    requires Valid(s)
  {
    exists acts :: Exec(s, acts) == r
  }

  lemma {:induction false} Then(s: Machine, m: Machine, a: Act, r: Machine)
    requires Valid(s) && Valid(m) && Reaches(s, m) && Do(m, a) == r
    ensures Reaches(s, r)
  {
    var acts :| Exec(s, acts) == m;
    ExecSnoc(s, acts, a);
  }

  /** Two handlers of process 1 with successful returns, and the entry they share. */
  datatype Duel = Duel(st: PidStats, x: u64, a: Pc, y: u64, b: Pc) {
    ghost function AsMachine(): Machine {
      Machine(map[1 := st], [Handler(1, Sample(x, 0), a), Handler(1, Sample(y, 0), b)])
    }
  }

  /** One step of the first or of the second handler. */
  function Go(d: Duel, first: bool): Duel {
    var h := if first then Handler(1, Sample(d.x, 0), d.a) else Handler(1, Sample(d.y, 0), d.b);
    var st := if h.pc == Insert then ZERO else if HasPointer(h) then Write(d.st, h) else d.st;
    var pc := NextPc(map[1 := d.st], h);
    if first then d.(st := st, a := pc) else d.(st := st, b := pc)
  }

  function GoAll(d: Duel, turns: seq<bool>): Duel {
    if turns == [] then d else Go(GoAll(d, turns[..|turns| - 1]), turns[|turns| - 1])
  }

  lemma {:induction false} GoSnoc(d: Duel, turns: seq<bool>, first: bool)
    ensures GoAll(d, turns + [first]) == Go(GoAll(d, turns), first)
  {
    assert (turns + [first])[..|turns|] == turns;
  }

  lemma {:induction false} GoIsStep(s: Machine, d: Duel, first: bool)
    requires Valid(s) && Reaches(s, d.AsMachine())
    ensures Reaches(s, Go(d, first).AsMachine())
  {
    var m, i := d.AsMachine(), if first then 0 else 1;
    NextValid(m, i);
    assert m.handlers[i] in m.handlers;
    assert Do(m, Step(i)) == Go(d, first).AsMachine();
    Then(s, m, Step(i), Go(d, first).AsMachine());
  }

  /** Every sequence of turns of the two handlers is a schedule. */
  lemma {:induction false} TurnsAreSchedule(s: Machine, d: Duel, turns: seq<bool>)
    requires Valid(s) && Reaches(s, d.AsMachine())
    ensures Reaches(s, GoAll(d, turns).AsMachine())
  {
    if turns != [] {
      TurnsAreSchedule(s, d, turns[..|turns| - 1]);
      GoIsStep(s, GoAll(d, turns[..|turns| - 1]), turns[|turns| - 1]);
    }
  }

  lemma {:induction false} TwoArrive(s: Machine, x: u64, y: u64)
    requires s.handlers == []
    ensures Valid(s)
    ensures Reaches(s, s.(handlers := [Handler(1, Sample(x, 0), Lookup), Handler(1, Sample(y, 0), Lookup)]))
  {
    var one := s.(handlers := [Handler(1, Sample(x, 0), Lookup)]);
    assert Exec(s, []) == s;
    Then(s, s, Arrive(1, Sample(x, 0)), one);
    Then(s, one, Arrive(1, Sample(y, 0)),
         s.(handlers := [Handler(1, Sample(x, 0), Lookup), Handler(1, Sample(y, 0), Lookup)]));
  }

  /** Both handlers pass the atomic adds in turn and see a minimum of 0; the larger latency is
      stored last.  Then both see a maximum of 0; the smaller latency is stored last. */
  lemma {:induction false} RaceToTheEnd(x: u64, y: u64) returns (turns: seq<bool>)
    requires 0 < x < y
    ensures GoAll(RaceAfter(x, y, 0), turns) == RaceAfter(x, y, 18)
  {
    turns := [];
    for k := 0 to 18
      invariant GoAll(RaceAfter(x, y, 0), turns) == RaceAfter(x, y, k)
    {
      GoSnoc(RaceAfter(x, y, 0), turns, RaceTurn(k));
      if k < 5 { RaceFirstSteps(x, y, k); } else if k < 10 { RaceToMinimum(x, y, k); } else { RaceToMaximum(x, y, k); }
      turns := turns + [RaceTurn(k)];
    }
  }

  /** Whose turn it is: the handlers alternate, except that the second stores the maximum first. */
  ghost function RaceTurn(k: nat): bool {
    if k < 14 then k % 2 == 0 else k == 15 || k == 16
  }

  lemma {:induction false} RaceFirstSteps(x: u64, y: u64, k: nat)
    requires 0 < x < y && k < 5
    ensures Go(RaceAfter(x, y, k), RaceTurn(k)) == RaceAfter(x, y, k + 1)
  {
  }

  lemma {:induction false} RaceToMinimum(x: u64, y: u64, k: nat)
    requires 0 < x < y && 5 <= k < 10
    ensures Go(RaceAfter(x, y, k), RaceTurn(k)) == RaceAfter(x, y, k + 1)
  {
  }

  lemma {:induction false} RaceToMaximum(x: u64, y: u64, k: nat)
    requires 0 < x < y && 10 <= k < 18
    ensures Go(RaceAfter(x, y, k), RaceTurn(k)) == RaceAfter(x, y, k + 1)
  {
  }

  /** The states along that race. */
  ghost function RaceAfter(x: u64, y: u64, k: nat): Duel
    requires k <= 18
  {
    var sum := Add64(x, y);
    [Duel(ZERO, x, Lookup, y, Lookup),
     Duel(ZERO, x, AddTotal, y, Lookup),
     Duel(ZERO, x, AddTotal, y, AddTotal),
     Duel(PidStats(1, 0, 0, 0, 0, 0, 0), x, AddClass, y, AddTotal),
     Duel(PidStats(2, 0, 0, 0, 0, 0, 0), x, AddClass, y, AddClass),
     Duel(PidStats(2, 1, 0, 0, 0, 0, 0), x, AddLatency, y, AddClass),
     Duel(PidStats(2, 2, 0, 0, 0, 0, 0), x, AddLatency, y, AddLatency),
     Duel(PidStats(2, 2, 0, x, 0, 0, 0), x, LoadMinZero, y, AddLatency),
     Duel(PidStats(2, 2, 0, sum, 0, 0, 0), x, LoadMinZero, y, LoadMinZero),
     Duel(PidStats(2, 2, 0, sum, 0, 0, 0), x, StoreMin, y, LoadMinZero),
     Duel(PidStats(2, 2, 0, sum, 0, 0, 0), x, StoreMin, y, StoreMin),
     Duel(PidStats(2, 2, 0, sum, x, 0, 0), x, LoadMax, y, StoreMin),
     Duel(PidStats(2, 2, 0, sum, y, 0, 0), x, LoadMax, y, LoadMax),
     Duel(PidStats(2, 2, 0, sum, y, 0, 0), x, StoreMax, y, LoadMax),
     Duel(PidStats(2, 2, 0, sum, y, 0, 0), x, StoreMax, y, StoreMax),
     Duel(PidStats(2, 2, 0, sum, y, y, 0), x, StoreMax, y, StoreRetval),
     Duel(PidStats(2, 2, 0, sum, y, x, 0), x, StoreRetval, y, StoreRetval),
     Duel(PidStats(2, 2, 0, sum, y, x, 0), x, Done, y, StoreRetval),
     Duel(PidStats(2, 2, 0, sum, y, x, 0), x, Done, y, Done)][k]
  }

  /** The envelope cannot be improved to exactness, nor even to `min <= max`: for any two
      positive latencies some schedule of two handlers, both run to the end, leaves the larger
      as minimum and the smaller as maximum. */
  lemma {:induction false} MinimumAboveMaximum(x: u64, y: u64)
    requires 0 < x < y
    ensures exists r :: Reaches(ONE_ZERO_ENTRY, r) && Quiet(r, 1) && 1 in r.stats
              && r.handlers == [Handler(1, Sample(x, 0), Done), Handler(1, Sample(y, 0), Done)]
              && r.stats[1].minLatency == y && r.stats[1].maxLatency == x
  {
    TwoArrive(ONE_ZERO_ENTRY, x, y);
    var turns := RaceToTheEnd(x, y);
    TurnsAreSchedule(ONE_ZERO_ENTRY, RaceAfter(x, y, 0), turns);
    assert Quiet(GoAll(RaceAfter(x, y, 0), turns).AsMachine(), 1);
  }
}
