/** Matching returns with entries.  All three S2 latency trackers share this part: a bounded
    map from thread key to entry timestamp, written by the entry probe, looked up by the exit
    probe (which then reads the clock) and deleted from at the end of the exit probe.

    One step is one map access, so that probes of different threads may interleave. */
module CallMatching {
  import opened Words
  import opened BoundedTable

  /** `max_entries` of `entry_times`, `uret_entry_times` and `fentry_times`. */
  const START_CAP: nat := 10240

  datatype Step =
    | Enter(tid: u64, ts: u64)                                     // update_elem(&times, &pid_tgid, &ts)
    | Look(tid: u64, ts: u64, retval: s64, reserveOk: bool)        // lookup_elem, then the clock
    | Drop(tid: u64)                                               // delete_elem

  /** What an exit probe knows: the entry timestamp it found, if any, and its inputs. */
  datatype Exit = Exit(tid: u64, ts: u64, entry: Option<u64>, retval: s64, reserveOk: bool) {
    function Latency(): (l: Option<u64>) {
      if entry.Some? then Some(Sub64(ts, entry.value)) else None
    }
  }

  datatype Matcher = Matcher(times: map<u64, u64>, log: seq<Exit>)

  const FRESH := Matcher(map[], [])

  function Find(times: map<u64, u64>, tid: u64): Option<u64> {
    if tid in times then Some(times[tid]) else None
  }

  function Advance(m: Matcher, step: Step): Matcher {
    match step
    case Enter(tid, ts) => m.(times := Put(m.times, START_CAP, tid, ts))
    case Look(tid, ts, retval, ok) => m.(log := m.log + [Exit(tid, ts, Find(m.times, tid), retval, ok)])
    case Drop(tid) => m.(times := m.times - {tid})
  }

  function Match(m: Matcher, steps: seq<Step>): Matcher {
    if steps == [] then m else Advance(Match(m, steps[..|steps| - 1]), steps[|steps| - 1])
  }

  lemma {:induction false} MatchSnoc(m: Matcher, steps: seq<Step>, step: Step)
    ensures Match(m, steps + [step]) == Advance(Match(m, steps), step)
  {
    assert (steps + [step])[..|steps|] == steps;
  }

  lemma {:induction false} MatchConcat(m: Matcher, a: seq<Step>, b: seq<Step>)
    ensures Match(m, a + b) == Match(Match(m, a), b)
  {
    if b == [] {
      assert a + b == a;
    } else {
      var b', x := b[..|b| - 1], b[|b| - 1];
      assert a + b == a + b' + [x];
      assert b == b' + [x];
      calc {
        Match(m, a + b);
        Match(m, a + b' + [x]);
        { MatchSnoc(m, a + b', x); }
        Advance(Match(m, a + b'), x);
        { MatchConcat(m, a, b'); }
        Advance(Match(Match(m, a), b'), x);
        { MatchSnoc(Match(m, a), b', x); }
        Match(Match(m, a), b' + [x]);
      }
    }
  }

  // ---------------------------------------------------------------- interleaved threads

  /** What one thread can observe of the shared map and of its own exits. */
  datatype Thread = Thread(start: Option<u64>, log: seq<Exit>)

  /** The same step on a private start slot instead of the shared bounded map. */
  function AdvanceAlone(th: Thread, step: Step): Thread {
    match step
    case Enter(_, ts) => th.(start := Some(ts))
    case Look(tid, ts, retval, ok) => th.(log := th.log + [Exit(tid, ts, th.start, retval, ok)])
    case Drop(_) => th.(start := None)
  }

  function RunAlone(steps: seq<Step>): Thread {
    if steps == [] then Thread(None, []) else AdvanceAlone(RunAlone(steps[..|steps| - 1]), steps[|steps| - 1])
  }

  /** The steps of one thread. */
  function Project(steps: seq<Step>, tid: u64): seq<Step> {
    if steps == [] then []
    else Project(steps[..|steps| - 1], tid) + if steps[|steps| - 1].tid == tid then [steps[|steps| - 1]] else []
  }

  function ExitsOf(log: seq<Exit>, tid: u64): seq<Exit> {
    if log == [] then []
    else ExitsOf(log[..|log| - 1], tid) + if log[|log| - 1].tid == tid then [log[|log| - 1]] else []
  }

  function View(m: Matcher, tid: u64): Thread {
    Thread(Find(m.times, tid), ExitsOf(m.log, tid))
  }

  /** The threads with an entry that no delete has followed yet, read off the steps alone: what
      the keys of an unbounded start map would be. */
  function Pending(steps: seq<Step>): set<u64> {
    if steps == [] then {}
    else
      var last := steps[|steps| - 1];
      match last
      case Enter(tid, _) => Pending(steps[..|steps| - 1]) + {tid}
      case Look(_, _, _, _) => Pending(steps[..|steps| - 1])
      case Drop(tid) => Pending(steps[..|steps| - 1]) - {tid}
  }

  /** Never more pending threads than the start map has slots. */
  ghost predicate Fits(steps: seq<Step>) {
    forall n :: 0 <= n <= |steps| ==> |Pending(steps[..n])| <= START_CAP
  }

  lemma {:induction false} FitsPrefix(steps: seq<Step>)
    requires Fits(steps) && steps != []
    ensures Fits(steps[..|steps| - 1])
    ensures |Pending(steps)| <= START_CAP
  {
    var n := |steps| - 1;
    forall k | 0 <= k <= n
      ensures |Pending(steps[..n][..k])| <= START_CAP
    {
      assert steps[..n][..k] == steps[..k];
    }
    assert steps[..|steps|] == steps;
  }

  /** The start map never exceeds its capacity. */
  lemma {:induction false} TimesBounded(steps: seq<Step>)
    ensures |Match(FRESH, steps).times| <= START_CAP
  {
    if steps != [] {
      var m := Match(FRESH, steps[..|steps| - 1]);
      TimesBounded(steps[..|steps| - 1]);
      var last := steps[|steps| - 1];
      if last.Drop? {
        assert (m.times - {last.tid}).Keys == m.times.Keys - {last.tid};
        SubsetOfSameSize(m.times.Keys - {last.tid}, m.times.Keys);
      }
    }
  }

  /** The keys of the start map are exactly the pending threads, after every prefix of a
      run, if and only if the run never has more pending threads than the map has slots. */
  lemma {:induction false} DomainIsPending(steps: seq<Step>)
    ensures Fits(steps) <==>
            forall n :: 0 <= n <= |steps| ==> Match(FRESH, steps[..n]).times.Keys == Pending(steps[..n])
  {
    if Fits(steps) {
      forall n | 0 <= n <= |steps|
        ensures Match(FRESH, steps[..n]).times.Keys == Pending(steps[..n])
      {
        forall k | 0 <= k <= n
          ensures |Pending(steps[..n][..k])| <= START_CAP
        {
          assert steps[..n][..k] == steps[..k];
        }
        DomainWhenFits(steps[..n]);
      }
    }
    forall n | 0 <= n <= |steps| && Match(FRESH, steps[..n]).times.Keys == Pending(steps[..n])
      ensures |Pending(steps[..n])| <= START_CAP
    {
      TimesBounded(steps[..n]);
      assert |Match(FRESH, steps[..n]).times| == |Match(FRESH, steps[..n]).times.Keys|;
    }
  }

  lemma {:induction false} DomainWhenFits(steps: seq<Step>)
    requires Fits(steps)
    ensures Match(FRESH, steps).times.Keys == Pending(steps)
  {
    if steps != [] {
      FitsPrefix(steps);
      DomainWhenFits(steps[..|steps| - 1]);
      if steps[|steps| - 1].Enter? {
        RoomToEnter(steps);
      }
    }
  }

  /** When the pending threads fit, every entry probe finds a slot. */
  lemma {:induction false} RoomToEnter(steps: seq<Step>)
    requires Fits(steps) && steps != [] && steps[|steps| - 1].Enter?
    requires Match(FRESH, steps[..|steps| - 1]).times.Keys == Pending(steps[..|steps| - 1])
    ensures var m := Match(FRESH, steps[..|steps| - 1]);
            steps[|steps| - 1].tid in m.times || |m.times| < START_CAP
  {
    FitsPrefix(steps);
    var m := Match(FRESH, steps[..|steps| - 1]);
    assert |m.times| == |m.times.Keys|;
  }

  /** Non-interference: whatever the other threads do, a thread's start slot and all its
      exits are those it would have had alone, as long as the pending threads fit. */
  lemma {:induction false} NonInterference(steps: seq<Step>, tid: u64)
    requires Fits(steps)
    ensures View(Match(FRESH, steps), tid) == RunAlone(Project(steps, tid))
  {
    if steps != [] {
      var n := |steps| - 1;
      FitsPrefix(steps);
      NonInterference(steps[..n], tid);
      DomainWhenFits(steps[..n]);
      if steps[n].Enter? {
        RoomToEnter(steps);
      }
      ViewStep(Match(FRESH, steps[..n]), steps[n], tid);
      if steps[n].tid == tid {
        RunAloneSnoc(Project(steps[..n], tid), steps[n]);
      } else {
        assert Project(steps, tid) == Project(steps[..n], tid);
      }
    }
  }

  lemma {:induction false} RunAloneSnoc(steps: seq<Step>, step: Step)
    ensures RunAlone(steps + [step]) == AdvanceAlone(RunAlone(steps), step)
  {
    assert (steps + [step])[..|steps|] == steps;
  }

  lemma {:induction false} ViewStep(m: Matcher, step: Step, tid: u64)
    requires step.Enter? ==> step.tid in m.times || |m.times| < START_CAP
    ensures View(Advance(m, step), tid)
         == if step.tid == tid then AdvanceAlone(View(m, tid), step) else View(m, tid)
  {
    if step.Look? {
      var e := Exit(step.tid, step.ts, Find(m.times, step.tid), step.retval, step.reserveOk);
      assert (m.log + [e])[..|m.log|] == m.log;
    }
  }

  // ---------------------------------------------------------------- alternating threads

  /** Entry, lookup, delete, over and over: a thread that makes one call at a time. */
  ghost predicate Alternates(steps: seq<Step>) {
    forall i :: 0 <= i < |steps| ==>
      match i % 3
      case 0 => steps[i].Enter?
      case 1 => steps[i].Look?
      case _ => steps[i].Drop?
  }

  /** Along the steps of one thread its clock readings do not run backwards.  (Those of two threads
      may: a thread reads the clock before it writes the map, or after its lookup.) */
  ghost predicate Monotone(steps: seq<Step>) {
    forall i, j :: 0 <= i < j < |steps| && !steps[i].Drop? && !steps[j].Drop? ==> steps[i].ts <= steps[j].ts
  }

  /** An alternating thread has one exit per lookup, and a start value only inside a call. */
  lemma {:induction false} AlternatingShape(p: seq<Step>)
    requires Alternates(p)
    ensures |RunAlone(p).log| == (|p| + 1) / 3
    ensures RunAlone(p).start == if |p| % 3 == 0 then None else Some(p[|p| - |p| % 3].ts)
  {
    if p != [] {
      var n := |p| - 1;
      AlternatingShape(p[..n]);
      var before := RunAlone(p[..n]);
      assert RunAlone(p) == AdvanceAlone(before, p[n]);
      if n % 3 == 0 {
        assert p[n].Enter?;
      } else if n % 3 == 1 {
        assert p[n].Look? && |RunAlone(p).log| == |before.log| + 1;
        assert n - n % 3 == |p| - |p| % 3;
      } else {
        assert p[n].Drop?;
      }
    }
  }

  /** Its k-th exit carries the timestamp of its k-th entry. */
  lemma {:induction false} AlternatingExit(p: seq<Step>, k: nat)
    requires Alternates(p) && 3 * k + 1 < |p|
    ensures k < |RunAlone(p).log|
    ensures p[3 * k].Enter? && p[3 * k + 1].Look?
    ensures var look := p[3 * k + 1];
            RunAlone(p).log[k] == Exit(look.tid, look.ts, Some(p[3 * k].ts), look.retval, look.reserveOk)
  {
    var n := |p| - 1;
    AlternatingShape(p);
    AlternatingShape(p[..n]);
    assert (3 * k) % 3 == 0 && (3 * k + 1) % 3 == 1;
    assert p[3 * k].Enter? && p[3 * k + 1].Look?;
    if 3 * k + 1 < n {
      AlternatingExit(p[..n], k);
    }
  }

  /** With a monotone clock the k-th latency is a plain difference: it never wraps. */
  lemma {:induction false} AlternatingLatency(p: seq<Step>, k: nat)
    requires Alternates(p) && Monotone(p) && 3 * k + 1 < |p|
    ensures k < |RunAlone(p).log| && p[3 * k].Enter? && p[3 * k + 1].Look? && p[3 * k].ts <= p[3 * k + 1].ts
    ensures RunAlone(p).log[k].Latency() == Some(p[3 * k + 1].ts - p[3 * k].ts)
  {
    AlternatingExit(p, k);
  }

  /** For any interleaving in which the pending threads fit: the k-th latency of an alternating
      thread with a monotone clock is its own exit time minus its own entry time, and it never
      wraps.  Refused ring-buffer reservations (`reserveOk`) make no difference. */
  lemma {:induction false} OwnLatency(steps: seq<Step>, tid: u64, k: nat)
    requires Fits(steps) && Alternates(Project(steps, tid)) && Monotone(Project(steps, tid))
    requires 3 * k + 1 < |Project(steps, tid)|
    ensures var enter, look := Project(steps, tid)[3 * k], Project(steps, tid)[3 * k + 1];
            var log := View(Match(FRESH, steps), tid).log;
            && enter.Enter? && look.Look? && enter.ts <= look.ts
            && k < |log| && log[k].Latency() == Some(look.ts - enter.ts)
  {
    NonInterference(steps, tid);
    AlternatingLatency(Project(steps, tid), k);
  }

  /** ... and it has a start entry exactly while it is inside a call, and no other exits. */
  lemma {:induction false} OwnSlot(steps: seq<Step>, tid: u64)
    requires Fits(steps) && Alternates(Project(steps, tid))
    ensures tid in Match(FRESH, steps).times <==> |Project(steps, tid)| % 3 != 0
    ensures |ExitsOf(Match(FRESH, steps).log, tid)| == (|Project(steps, tid)| + 1) / 3
  {
    NonInterference(steps, tid);
    AlternatingShape(Project(steps, tid));
  }

  lemma {:induction false} PendingIsStarted(steps: seq<Step>, tid: u64)
    ensures tid in Pending(steps) <==> RunAlone(Project(steps, tid)).start.Some?
  {
    if steps != [] {
      var n := |steps| - 1;
      PendingIsStarted(steps[..n], tid);
      if steps[n].tid == tid {
        RunAloneSnoc(Project(steps[..n], tid), steps[n]);
      } else {
        assert Project(steps, tid) == Project(steps[..n], tid);
      }
    }
  }

  lemma {:induction false} ProjectPrefix(steps: seq<Step>, n: nat, tid: u64)
    requires n <= |steps|
    ensures Project(steps[..n], tid) <= Project(steps, tid)
  {
    if n < |steps| {
      assert steps[..|steps| - 1][..n] == steps[..n];
      ProjectPrefix(steps[..|steps| - 1], n, tid);
    } else {
      assert steps[..n] == steps;
    }
  }

  /** The thread is inside a call: it has made an entry step, and not yet the delete of its exit. */
  ghost predicate Inside(steps: seq<Step>, tid: u64) {
    |Project(steps, tid)| % 3 != 0
  }

  lemma {:induction false} PendingIsInside(steps: seq<Step>, n: nat)
    requires n <= |steps| && forall tid: u64 :: Alternates(Project(steps, tid))
    ensures forall tid: u64 :: tid in Pending(steps[..n]) <==> Inside(steps[..n], tid)
  {
    forall tid: u64
      ensures tid in Pending(steps[..n]) <==> Inside(steps[..n], tid)
    {
      PendingIsStarted(steps[..n], tid);
      ProjectPrefix(steps, n, tid);
      assert Alternates(Project(steps, tid));
      assert Alternates(Project(steps[..n], tid));
      AlternatingShape(Project(steps[..n], tid));
    }
  }

  /** When every thread makes one call at a time, the keys of the start map are after every prefix
      of the run exactly the threads inside a call, if and only if the run fits the map. */
  lemma {:induction false} DomainIsInside(steps: seq<Step>)
    requires forall tid: u64 :: Alternates(Project(steps, tid))
    ensures Fits(steps) <==> forall n, tid: u64 :: 0 <= n <= |steps| ==>
              (tid in Match(FRESH, steps[..n]).times <==> Inside(steps[..n], tid))
  {
    DomainIsPending(steps);
    forall n | 0 <= n <= |steps|
      ensures (forall tid: u64 :: tid in Match(FRESH, steps[..n]).times <==> Inside(steps[..n], tid))
         <==> Match(FRESH, steps[..n]).times.Keys == Pending(steps[..n])
    {
      PendingIsInside(steps, n);
    }
  }

  // ---------------------------------------------------------------- nested calls

  /** A well-bracketed forest of calls of one thread: a call with the calls made inside it,
      then the calls after it. */
  datatype Calls =
    | NoCalls
    | Call(entry: u64, inner: Calls, exit: u64, retval: s64, reserveOk: bool, rest: Calls)

  /** The probe steps of a forest, in time order. */
  function StepsOf(tid: u64, c: Calls): seq<Step> {
    match c
    case NoCalls => []
    case Call(entry, inner, exit, retval, ok, rest) =>
      [Enter(tid, entry)] + StepsOf(tid, inner) + [Look(tid, exit, retval, ok), Drop(tid)] + StepsOf(tid, rest)
  }

  /** The exits of a forest when only calls without inner calls find their entry timestamp. */
  function LeafExits(tid: u64, c: Calls): seq<Exit> {
    match c
    case NoCalls => []
    case Call(entry, inner, exit, retval, ok, rest) =>
      LeafExits(tid, inner)
      + [ExitOf(tid, c, if inner.NoCalls? then Some(entry) else None)]
      + LeafExits(tid, rest)
  }

  /** The exits of a forest when no call finds its entry timestamp. */
  function LostExits(tid: u64, c: Calls): seq<Exit> {
    match c
    case NoCalls => []
    case Call(entry, inner, exit, retval, ok, rest) =>
      LostExits(tid, inner) + [ExitOf(tid, c, None)] + LostExits(tid, rest)
  }

  ghost predicate HasRoom(m: Matcher, tid: u64) {
    |m.times - {tid}| < START_CAP
  }

  /** The two steps of the exit probe of a call. */
  function Return(m: Matcher, tid: u64, c: Calls): Matcher
    requires c.Call?
  {
    Advance(Advance(m, Look(tid, c.exit, c.retval, c.reserveOk)), Drop(tid))
  }

  function ExitOf(tid: u64, c: Calls, entry: Option<u64>): Exit
    requires c.Call?
  {
    Exit(tid, c.exit, entry, c.retval, c.reserveOk)
  }

  lemma {:induction false} ReturnEffect(m: Matcher, tid: u64, c: Calls)
    requires c.Call?
    ensures Return(m, tid, c) == Matcher(m.times - {tid}, m.log + [ExitOf(tid, c, Find(m.times, tid))])
  {
  }

  /** A forest runs as: enter, the inner calls, return, the remaining calls. */
  lemma {:induction false} CallSteps(m: Matcher, tid: u64, c: Calls)
    requires c.Call?
    ensures var inner := Match(Advance(m, Enter(tid, c.entry)), StepsOf(tid, c.inner));
            Match(m, StepsOf(tid, c)) == Match(Return(inner, tid, c), StepsOf(tid, c.rest))
  {
    var enter, look, drop := Enter(tid, c.entry), Look(tid, c.exit, c.retval, c.reserveOk), Drop(tid);
    var inner := StepsOf(tid, c.inner);
    calc {
      Match(m, [enter] + inner + [look, drop]);
      { assert [enter] + inner + [look, drop] == [enter] + inner + [look] + [drop]; }
      Match(m, [enter] + inner + [look] + [drop]);
      { MatchSnoc(m, [enter] + inner + [look], drop); MatchSnoc(m, [enter] + inner, look); }
      Advance(Advance(Match(m, [enter] + inner), look), drop);
      { MatchConcat(m, [enter], inner); MatchSnoc(m, [], enter); assert [] + [enter] == [enter]; }
      Return(Match(Advance(m, enter), inner), tid, c);
    }
    MatchConcat(m, [enter] + inner + [look, drop], StepsOf(tid, c.rest));
  }

  lemma {:induction false} EnterWithRoom(m: Matcher, tid: u64, ts: u64)
    requires HasRoom(m, tid)
    ensures Advance(m, Enter(tid, ts)) == Matcher(m.times[tid := ts], m.log)
    ensures m.times[tid := ts] - {tid} == m.times - {tid}
  {
    assert tid !in m.times ==> m.times - {tid} == m.times;
  }

  /** Nested calls, of any depth and branching: exactly the leaf calls are matched with their
      entry timestamps, and no start entry of the thread is left behind. */
  lemma {:induction false} NestedCallsMatchLeaves(m: Matcher, tid: u64, c: Calls)
    requires HasRoom(m, tid)
    ensures Match(m, StepsOf(tid, c))
         == Matcher(if c.NoCalls? then m.times else m.times - {tid}, m.log + LeafExits(tid, c))
    decreases c
  {
    if c.NoCalls? {
      assert m.log + [] == m.log;
    } else {
      EnterWithRoom(m, tid, c.entry);
      var m0 := Advance(m, Enter(tid, c.entry));
      NestedCallsMatchLeaves(m0, tid, c.inner);
      var m1 := Match(m0, StepsOf(tid, c.inner));
      ReturnEffect(m1, tid, c);
      var m2 := Return(m1, tid, c);
      assert m2.times == m.times - {tid} && m2.times - {tid} == m2.times;
      NestedCallsMatchLeaves(m2, tid, c.rest);
      CallSteps(m, tid, c);
      var x := ExitOf(tid, c, if c.inner.NoCalls? then Some(c.entry) else None);
      LogOfCall(m.log, LeafExits(tid, c.inner), x, LeafExits(tid, c.rest));
    }
  }

  lemma {:induction false} LogOfCall(log: seq<Exit>, inner: seq<Exit>, x: Exit, rest: seq<Exit>)
    ensures log + inner + [x] + rest == log + (inner + [x] + rest)
  {
  }

  /** When the start map is full of other threads, none of the calls is matched. */
  lemma {:induction false} NestedCallsLostWhenFull(m: Matcher, tid: u64, c: Calls)
    requires tid !in m.times && |m.times| >= START_CAP
    ensures Match(m, StepsOf(tid, c)) == Matcher(m.times, m.log + LostExits(tid, c))
    decreases c
  {
    if c.NoCalls? {
      assert m.log + [] == m.log;
    } else {
      assert Advance(m, Enter(tid, c.entry)) == m;
      NestedCallsLostWhenFull(m, tid, c.inner);
      var m1 := Match(m, StepsOf(tid, c.inner));
      ReturnEffect(m1, tid, c);
      var m2 := Return(m1, tid, c);
      assert m2.times == m.times;
      NestedCallsLostWhenFull(m2, tid, c.rest);
      CallSteps(m, tid, c);
      LogOfCall(m.log, LostExits(tid, c.inner), ExitOf(tid, c, None), LostExits(tid, c.rest));
    }
  }

  /** Both results together: a thread whose own steps are a forest of calls gets the exits of
      the leaves, however the steps of the other threads are interleaved with its own. */
  lemma {:induction false} NestedUnderInterleaving(steps: seq<Step>, tid: u64, c: Calls)
    requires Fits(steps) && Project(steps, tid) == StepsOf(tid, c)
    ensures ExitsOf(Match(FRESH, steps).log, tid) == LeafExits(tid, c)
    ensures tid !in Match(FRESH, steps).times
  {
    NonInterference(steps, tid);
    StepsAreOwn(tid, c);
    AloneIsMatch(StepsOf(tid, c), tid);
    assert FRESH.times - {tid} == FRESH.times;
    NestedCallsMatchLeaves(FRESH, tid, c);
  }

  lemma {:induction false} StepsAreOwn(tid: u64, c: Calls)
    ensures forall s :: s in StepsOf(tid, c) ==> s.tid == tid
  {
    if c.Call? {
      StepsAreOwn(tid, c.inner);
      StepsAreOwn(tid, c.rest);
    }
  }

  /** A single thread on the shared map behaves as on its private slot. */
  lemma {:induction false} AloneIsMatch(steps: seq<Step>, tid: u64)
    requires forall s :: s in steps ==> s.tid == tid
    ensures Match(FRESH, steps).log == RunAlone(steps).log
    ensures Match(FRESH, steps).times
         == if RunAlone(steps).start.Some? then map[tid := RunAlone(steps).start.value] else map[]
  {
    if steps != [] {
      AloneIsMatch(steps[..|steps| - 1], tid);
    }
  }
}
