/** The whole kretprobe program under full interleaving: the map accesses of `CallMatching` and
    the statistics steps of `KretprobeRace` on one schedule.  A handler enters the statistics
    part with the latency that its own lookup found. */
module KretprobeWhole {
  import opened Words
  import opened Sums
  import opened Kretprobe
  import opened CallMatching
  import Race = KretprobeRace

  datatype Whole = Whole(matcher: Matcher, machine: Race.Machine)

  datatype Move =
    | Access(step: Step)  // an access to the start map; a lookup also starts a statistics handler
    | Statistics(i: nat)  // a step of the i-th statistics handler

  function LookedUp(m: Matcher, step: Step): Exit
    requires step.Look?
  {
    Exit(step.tid, step.ts, Find(m.times, step.tid), step.retval, step.reserveOk)
  }

  /** What a move means to the statistics. */
  function ActOf(m: Matcher, move: Move): seq<Race.Act> {
    match move
    case Access(step) => if step.Look? then [Race.Arrive(PidOf(step.tid), SampleOf(LookedUp(m, step)))] else []
    case Statistics(i) => [Race.Step(i)]
  }

  function Play(s: Whole, move: Move): (r: Whole)
    requires Race.Valid(s.machine)
    ensures Race.Valid(r.machine)
  {
    Whole(if move.Access? then Advance(s.matcher, move.step) else s.matcher,
          if ActOf(s.matcher, move) == [] then s.machine else Race.Do(s.machine, ActOf(s.matcher, move)[0]))
  }

  /** A whole run, from an empty start map. */
  function Run(machine: Race.Machine, moves: seq<Move>): (r: Whole)
    requires Race.Valid(machine)
    ensures Race.Valid(r.machine)
  {
    if moves == [] then Whole(FRESH, machine) else Play(Run(machine, moves[..|moves| - 1]), moves[|moves| - 1])
  }

  /** The accesses to the start map. */
  function Accesses(moves: seq<Move>): seq<Step> {
    if moves == [] then []
    else
      var last := moves[|moves| - 1];
      Accesses(moves[..|moves| - 1]) + if last.Access? then [last.step] else []
  }

  /** The steps of the statistics handlers. */
  function Acts(moves: seq<Move>): seq<Race.Act> {
    if moves == [] then []
    else
      var before := moves[..|moves| - 1];
      Acts(before) + ActOf(Match(FRESH, Accesses(before)), moves[|moves| - 1])
  }

  /** The run projects to a run of the matcher ... */
  lemma {:induction false} RunIsMatching(machine: Race.Machine, moves: seq<Move>)
    requires Race.Valid(machine)
    ensures Run(machine, moves).matcher == Match(FRESH, Accesses(moves))
  {
    if moves != [] {
      var n := |moves| - 1;
      RunIsMatching(machine, moves[..n]);
      if moves[n].Access? {
        MatchSnoc(FRESH, Accesses(moves[..n]), moves[n].step);
      } else {
        assert Accesses(moves) == Accesses(moves[..n]);
      }
    }
  }

  /** ... and to a run of the statistics machine. */
  lemma {:induction false} RunIsRace(machine: Race.Machine, moves: seq<Move>)
    requires Race.Valid(machine)
    ensures Run(machine, moves).machine == Race.Exec(machine, Acts(moves))
  {
    if moves != [] {
      var before, move := moves[..|moves| - 1], moves[|moves| - 1];
      RunIsRace(machine, before);
      RunIsMatching(machine, before);
      var acts := ActOf(Match(FRESH, Accesses(before)), move);
      if acts == [] {
        assert Acts(moves) == Acts(before);
      } else {
        assert acts == [acts[0]];
        Race.ExecSnoc(machine, Acts(before), acts[0]);
      }
    }
  }

  // ---------------------------------------------------------------- the total latency

  /** The latencies in the matcher's log that belong to a process. */
  function TimeOfExit(p: u32): Exit -> int {
    (x: Exit) => if PidOf(x.tid) == p then SampleOf(x).latency else 0
  }

  lemma {:induction false} ActKeepsDue(s: Race.Machine, a: Race.Act, p: u32)
    requires Race.Valid(s)
    ensures Race.AllDue(Race.Do(s, a).handlers, p, Race.Latency)
         == Race.AllDue(s.handlers, p, Race.Latency)
            + if a.Arrive? && a.pid == p then a.sample.latency else 0
  {
    var f := (h: Race.Handler) => Race.Due(p, Race.Latency, h);
    if a.Arrive? {
      SumSnoc(s.handlers, Race.Handler(a.pid, a.sample, Race.Lookup), f);
    } else if a.i < |s.handlers| {
      SumUpdate(s.handlers, a.i, Race.Next(s, a.i).handlers[a.i], f);
    }
  }

  /** The handlers have to add what the lookups found. */
  lemma {:induction false} DueIsFound(machine: Race.Machine, moves: seq<Move>, p: u32)
    requires Race.Valid(machine)
    ensures Race.AllDue(Run(machine, moves).machine.handlers, p, Race.Latency)
         == Race.AllDue(machine.handlers, p, Race.Latency) + Sum(Run(machine, moves).matcher.log, TimeOfExit(p))
  {
    if moves != [] {
      var n := |moves| - 1;
      var s, move := Run(machine, moves[..n]), moves[n];
      DueIsFound(machine, moves[..n], p);
      if ActOf(s.matcher, move) != [] {
        ActKeepsDue(s.machine, ActOf(s.matcher, move)[0], p);
      }
      if move.Access? && move.step.Look? {
        SumSnoc(s.matcher.log, LookedUp(s.matcher, move.step), TimeOfExit(p));
      }
    }
  }

  lemma {:induction false} NothingDue(handlers: seq<Race.Handler>, p: u32)
    requires forall h :: h in handlers ==> h.pid != p
    ensures Race.AllDue(handlers, p, Race.Latency) == 0 == Race.AllAdded(handlers, p, Race.Latency)
  {
    if handlers != [] {
      NothingDue(handlers[..|handlers| - 1], p);
      assert handlers[|handlers| - 1] in handlers;
    }
  }

  // ---------------------------------------------------------------- the threads' own times

  /** When a thread last entered. */
  function EnteredAt(steps: seq<Step>, tid: u64): u64 {
    if steps == [] then 0
    else
      var last := steps[|steps| - 1];
      if last.Enter? && last.tid == tid then last.ts else EnteredAt(steps[..|steps| - 1], tid)
  }

  /** The sum over the returns of a process of the thread's exit time less its own last entry
      time, read off the accesses without any map. */
  function OwnTime(steps: seq<Step>, p: u32): int {
    if steps == [] then 0
    else
      var last := steps[|steps| - 1];
      OwnTime(steps[..|steps| - 1], p)
      + if last.Look? && PidOf(last.tid) == p then last.ts - EnteredAt(steps[..|steps| - 1], last.tid) else 0
  }

  lemma {:induction false} EnteredLast(steps: seq<Step>, tid: u64)
    requires var own := Project(steps, tid); own != [] && own[|own| - 1].Enter?
    ensures var own := Project(steps, tid); EnteredAt(steps, tid) == own[|own| - 1].ts
  {
    var n := |steps| - 1;
    if steps[n].tid != tid {
      assert Project(steps, tid) == Project(steps[..n], tid);
      EnteredLast(steps[..n], tid);
    }
  }

  /** A thread that makes one call at a time and whose clock does not run backwards. */
  ghost predicate WellTimed(steps: seq<Step>, tid: u64) {
    Alternates(Project(steps, tid)) && Monotone(Project(steps, tid))
  }

  ghost predicate AllWellTimed(steps: seq<Step>, p: u32) {
    forall tid: u64 :: PidOf(tid) == p ==> WellTimed(steps, tid)
  }

  lemma {:induction false} PrefixWellTimed(steps: seq<Step>, tid: u64)
    requires WellTimed(steps, tid) && steps != []
    ensures WellTimed(steps[..|steps| - 1], tid)
  {
    ProjectPrefix(steps, |steps| - 1, tid);
    var own, before := Project(steps, tid), Project(steps[..|steps| - 1], tid);
    assert forall i :: 0 <= i < |before| ==> before[i] == own[i];
  }

  /** The lookup of a well-timed thread finds its own last entry. */
  lemma {:induction false} FoundIsOwn(steps: seq<Step>)
    requires steps != [] && steps[|steps| - 1].Look? && Fits(steps) && WellTimed(steps, steps[|steps| - 1].tid)
    ensures var n := |steps| - 1;
            var tid, ts := steps[n].tid, steps[n].ts;
            && EnteredAt(steps[..n], tid) <= ts
            && Find(Match(FRESH, steps[..n]).times, tid) == Some(EnteredAt(steps[..n], tid))
  {
    var n := |steps| - 1;
    var before, own := Project(steps[..n], steps[n].tid), Project(steps, steps[n].tid);
    assert own == before + [steps[n]];
    assert own[|before|].Look?;
    assert |before| % 3 == 1;
    assert own[|before| - 1].Enter?;
    PrefixWellTimed(steps, steps[n].tid);
    AlternatingShape(before);
    EnteredLast(steps[..n], steps[n].tid);
    FitsPrefix(steps);
    NonInterference(steps[..n], steps[n].tid);
  }

  lemma {:induction false} LookAddsOwnTime(steps: seq<Step>, p: u32)
    requires steps != [] && steps[|steps| - 1].Look? && PidOf(steps[|steps| - 1].tid) == p
    requires Fits(steps) && WellTimed(steps, steps[|steps| - 1].tid)
    ensures var n := |steps| - 1;
            TimeOfExit(p)(LookedUp(Match(FRESH, steps[..n]), steps[n]))
            == steps[n].ts - EnteredAt(steps[..n], steps[n].tid)
  {
    var n := |steps| - 1;
    FoundIsOwn(steps);
    NoWrap(steps[n].ts - EnteredAt(steps[..n], steps[n].tid));
  }

  lemma {:induction false} FoundIsOwnTime(steps: seq<Step>, p: u32)
    requires Fits(steps) && AllWellTimed(steps, p)
    ensures Sum(Match(FRESH, steps).log, TimeOfExit(p)) == OwnTime(steps, p)
  {
    if steps != [] {
      var n := |steps| - 1;
      FitsPrefix(steps);
      forall tid: u64 | PidOf(tid) == p
        ensures WellTimed(steps[..n], tid)
      {
        PrefixWellTimed(steps, tid);
      }
      FoundIsOwnTime(steps[..n], p);
      if steps[n].Look? {
        LogAfterLook(steps, p);
        if PidOf(steps[n].tid) == p {
          LookAddsOwnTime(steps, p);
        }
      }
    }
  }

  lemma {:induction false} LogAfterLook(steps: seq<Step>, p: u32)
    requires steps != [] && steps[|steps| - 1].Look?
    ensures var n := |steps| - 1;
            Sum(Match(FRESH, steps).log, TimeOfExit(p))
            == Sum(Match(FRESH, steps[..n]).log, TimeOfExit(p))
               + TimeOfExit(p)(LookedUp(Match(FRESH, steps[..n]), steps[n]))
  {
    var n := |steps| - 1;
    SumSnoc(Match(FRESH, steps[..n]).log, LookedUp(Match(FRESH, steps[..n]), steps[n]), TimeOfExit(p));
  }

  /** The whole program under every interleaving of its map accesses, atomic adds, loads and
      stores: if the start map suffices and each thread of the process makes one call at a time
      with a monotone clock, then once all its handlers are done `total_latency_ns` has grown by
      the sum over its returns of the thread's own exit time less its own entry time. */
  lemma {:induction false} TotalIsOwnTime(machine: Race.Machine, moves: seq<Move>, r: Whole, p: u32, time: int)
    requires Race.Valid(machine) && Race.Untouched(machine, p) && Run(machine, moves) == r && Race.Quiet(r.machine, p)
    requires Fits(Accesses(moves)) && AllWellTimed(Accesses(moves), p) && time == OwnTime(Accesses(moves), p)
    ensures p in r.machine.stats
    ensures r.machine.stats[p].totalLatency == Wrap64(machine.stats[p].totalLatency + time)
  {
    DueIsOwnTime(machine, moves, r, p);
    DueIsTotal(machine, moves, r.machine, p, time);
  }

  lemma {:induction false} DueIsTotal(s: Race.Machine, moves: seq<Move>, r: Race.Machine, p: u32, time: int)
    requires Race.Valid(s) && Race.Untouched(s, p) && Run(s, moves).machine == r && Race.Quiet(r, p)
    requires Race.AllDue(r.handlers, p, Race.Latency) == Race.AllDue(s.handlers, p, Race.Latency) + time
    ensures p in r.stats && r.stats[p].totalLatency == Wrap64(s.stats[p].totalLatency + time)
  {
    RunIsRace(s, moves);
    QuietTotal(s, Acts(moves), r, p, time);
  }

  lemma {:induction false} DueIsOwnTime(machine: Race.Machine, moves: seq<Move>, r: Whole, p: u32)
    requires Race.Valid(machine) && r == Run(machine, moves)
    requires Fits(Accesses(moves)) && AllWellTimed(Accesses(moves), p)
    ensures Race.AllDue(r.machine.handlers, p, Race.Latency)
         == Race.AllDue(machine.handlers, p, Race.Latency) + OwnTime(Accesses(moves), p)
  {
    DueIsFound(machine, moves, p);
    RunIsMatching(machine, moves);
    FoundIsOwnTime(Accesses(moves), p);
  }

  lemma {:induction false} QuietTotal(s: Race.Machine, acts: seq<Race.Act>, r: Race.Machine, p: u32, time: int)
    requires Race.Valid(s) && Race.Untouched(s, p) && Race.Exec(s, acts) == r && Race.Quiet(r, p)
    requires Race.AllDue(r.handlers, p, Race.Latency) == Race.AllDue(s.handlers, p, Race.Latency) + time
    ensures p in r.stats && r.stats[p].totalLatency == Wrap64(s.stats[p].totalLatency + time)
  {
    Race.QuiescentTotals(s, acts, r, p, Race.Latency);
    NothingDue(s.handlers, p);
  }
}
