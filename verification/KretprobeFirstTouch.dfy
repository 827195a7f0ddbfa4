/** The first returns of a process, interleaved: exactly when the look-up-then-insert of the
    kretprobe statistics loses what was counted. */
module KretprobeFirstTouch {
  import opened Words
  import opened BoundedTable
  import opened Sums
  import opened Kretprobe
  import opened KretprobeRace

  /** A handler of the process inserts zeros over an entry whose counter is not 0. */
  ghost predicate Overwrites(m: Machine, a: Act, p: u32, k: Counter) {
    && a.Step? && a.i < |m.handlers| && m.handlers[a.i].pid == p && m.handlers[a.i].pc == Insert
    && p in m.stats && Value(m.stats[p], k) > 0
  }

  /** Some step of the run does so. */
  ghost predicate LateInsert(s: Machine, acts: seq<Act>, p: u32, k: Counter)
    requires Valid(s)
  {
    acts != []
    && (LateInsert(s, acts[..|acts| - 1], p, k) || Overwrites(Exec(s, acts[..|acts| - 1]), acts[|acts| - 1], p, k))
  }

  /** No handler of the process has got past the insert. */
  ghost predicate NonePastInsert(handlers: seq<Handler>, p: u32) {
    forall h :: h in handlers && h.pid == p ==> Order(h.pc) <= 1
  }

  /** What a run from a missing entry leaves.  A stored counter holds at most what the handlers have
      added, and all of it iff no insert was late; if the entry is not stored, handlers got past
      the insert only because the table is full. */
  ghost predicate FirstTouched(m: Machine, p: u32, k: Counter, late: bool) {
    if p in m.stats then
      Value(m.stats[p], k) <= AllAdded(m.handlers, p, k)
      && (Value(m.stats[p], k) == AllAdded(m.handlers, p, k) <==> !late)
    else
      !late && (|m.stats| >= STATS_CAP || NonePastInsert(m.handlers, p))
  }

  lemma {:induction false} AddedIsNatural(handlers: seq<Handler>, p: u32, k: Counter)
    ensures AllAdded(handlers, p, k) >= 0
    ensures NonePastInsert(handlers, p) ==> AllAdded(handlers, p, k) == 0
  {
    if handlers != [] {
      AddedIsNatural(handlers[..|handlers| - 1], p, k);
      assert handlers[|handlers| - 1] in handlers;
    }
  }

  /** A step of a handler, in terms of what it adds; only an insert does anything else. */
  lemma {:induction false} AddedByStep(m: Machine, i: nat, p: u32, k: Counter)
    requires Valid(m) && i < |m.handlers|
    ensures var h, h' := m.handlers[i], Next(m, i).handlers[i];
            && AllAdded(Next(m, i).handlers, p, k) == AllAdded(m.handlers, p, k) + (Added(p, k, h') - Added(p, k, h))
            && Added(p, k, h') >= Added(p, k, h)
  {
    SumUpdate(m.handlers, i, Next(m, i).handlers[i], (h: Handler) => Added(p, k, h));
  }

  lemma {:induction false} OthersLeave(m: Machine, i: nat, p: u32)
    requires Valid(m) && i < |m.handlers| && m.handlers[i].pid != p
    ensures p in Next(m, i).stats <==> p in m.stats
    ensures p in m.stats ==> Next(m, i).stats[p] == m.stats[p]
    ensures |Next(m, i).stats| >= |m.stats|
  {
    KeysGrow(m, i);
  }

  lemma {:induction false} KeysGrow(m: Machine, i: nat)
    requires Valid(m) && i < |m.handlers|
    ensures |Next(m, i).stats| >= |m.stats|
  {
    NextValid(m, i);
    SubsetOfSameSize(m.stats.Keys, Next(m, i).stats.Keys);
    assert |m.stats.Keys| == |m.stats| && |Next(m, i).stats.Keys| == |Next(m, i).stats|;
  }

  lemma {:induction false} NoneMoves(m: Machine, i: nat, p: u32)
    requires Valid(m) && i < |m.handlers| && NonePastInsert(m.handlers, p)
    requires m.handlers[i].pid == p ==> m.handlers[i].pc == Lookup && p !in m.stats
    ensures NonePastInsert(Next(m, i).handlers, p)
  {
    var r := Next(m, i);
    forall h | h in r.handlers && h.pid == p
      ensures Order(h.pc) <= 1
    {
      var j :| 0 <= j < |r.handlers| && r.handlers[j] == h;
      assert m.handlers[j] in m.handlers;
    }
  }

  /** An add to a stored counter. */
  lemma {:induction false} AddedToStored(m: Machine, i: nat, p: u32, k: Counter)
    requires Valid(m) && i < |m.handlers| && m.handlers[i].pid == p && m.handlers[i].pc != Insert && p in m.stats
    ensures p in Next(m, i).stats
    ensures Value(Next(m, i).stats[p], k)
         == Wrap64(Value(m.stats[p], k) + (Added(p, k, Next(m, i).handlers[i]) - Added(p, k, m.handlers[i])))
  {
    assert m.handlers[i] in m.handlers;
  }

  lemma {:induction false} StepFirstTouched(m: Machine, i: nat, p: u32, k: Counter, late: bool)
    requires Valid(m) && i < |m.handlers| && FirstTouched(m, p, k, late)
    requires AllAdded(Next(m, i).handlers, p, k) < 0x1_0000_0000_0000_0000
    ensures FirstTouched(Next(m, i), p, k, late || Overwrites(m, Step(i), p, k))
  {
    var h := m.handlers[i];
    assert h in m.handlers;
    AddedByStep(m, i, p, k);
    if h.pid != p {
      OthersLeave(m, i, p);
      if p !in m.stats && NonePastInsert(m.handlers, p) {
        NoneMoves(m, i, p);
      }
    } else if p in m.stats {
      if h.pc == Insert {
        AddedIsNatural(m.handlers, p, k);
      } else {
        AddedToStored(m, i, p, k);
        NoWrap(Value(m.stats[p], k) + (Added(p, k, Next(m, i).handlers[i]) - Added(p, k, h)));
      }
    } else {
      AbsentStep(m, i, p, k);
    }
  }

  lemma {:induction false} AbsentStep(m: Machine, i: nat, p: u32, k: Counter)
    requires Valid(m) && i < |m.handlers| && m.handlers[i].pid == p && p !in m.stats && FirstTouched(m, p, k, false)
    ensures FirstTouched(Next(m, i), p, k, false)
  {
    var h := m.handlers[i];
    assert h in m.handlers;
    KeysGrow(m, i);
    AddedByStep(m, i, p, k);
    AddedIsNatural(m.handlers, p, k);
    if h.pc == Lookup && NonePastInsert(m.handlers, p) {
      NoneMoves(m, i, p);
    }
  }

  lemma {:induction false} ActAdds(m: Machine, a: Act, p: u32, k: Counter)
    requires Valid(m)
    ensures AllAdded(Do(m, a).handlers, p, k) >= AllAdded(m.handlers, p, k)
    ensures a.Arrive? ==> AllAdded(Do(m, a).handlers, p, k) == AllAdded(m.handlers, p, k)
  {
    if a.Arrive? {
      SumSnoc(m.handlers, Handler(a.pid, a.sample, Lookup), (h: Handler) => Added(p, k, h));
    } else if a.i < |m.handlers| {
      AddedByStep(m, a.i, p, k);
    }
  }

  lemma {:induction false} RunFirstTouched(s: Machine, acts: seq<Act>, p: u32, k: Counter)
    requires Valid(s) && p !in s.stats && forall h :: h in s.handlers ==> h.pid != p
    requires AllAdded(Exec(s, acts).handlers, p, k) < 0x1_0000_0000_0000_0000
    ensures FirstTouched(Exec(s, acts), p, k, LateInsert(s, acts, p, k))
  {
    if acts != [] {
      var m, a := Exec(s, acts[..|acts| - 1]), acts[|acts| - 1];
      ActAdds(m, a, p, k);
      RunFirstTouched(s, acts[..|acts| - 1], p, k);
      if a.Step? && a.i < |m.handlers| {
        StepFirstTouched(m, a.i, p, k, LateInsert(s, acts[..|acts| - 1], p, k));
      }
    }
  }

  /** First touch, exactly: on every run from a state without the entry and without handlers of the
      process, each of the four counters of a stored entry holds at most what the handlers have
      added to it, and holds all of it if and only if no handler inserted the zeros while the
      entry was stored with that counter above 0. */
  lemma {:induction false} NothingLostIff(s: Machine, acts: seq<Act>, r: Machine, p: u32, k: Counter, added: int)
    requires Valid(s) && p !in s.stats && (forall h :: h in s.handlers ==> h.pid != p) && Exec(s, acts) == r
    requires p in r.stats && AllAdded(r.handlers, p, k) == added < 0x1_0000_0000_0000_0000
    ensures Value(r.stats[p], k) <= added
    ensures Value(r.stats[p], k) == added <==> !LateInsert(s, acts, p, k)
  {
    RunFirstTouched(s, acts, p, k);
    assert FirstTouched(r, p, k, LateInsert(s, acts, p, k));
  }

  // ---------------------------------------------------------------- a first return that is lost

  /** Two first returns that both miss the lookup; the first inserts, the second is about to. */
  function BothMissed(p: u32, x: Sample, y: Sample): Machine {
    Machine(map[p := ZERO], [Handler(p, x, Relookup), Handler(p, y, Insert)])
  }

  const NO_ENTRY := Machine(map[], [])

  lemma {:induction false} BothMiss(p: u32, x: Sample, y: Sample)
    ensures Exec(NO_ENTRY, [Arrive(p, x)] + ([Arrive(p, y)] + ([Step(0)] + ([Step(1)] + [Step(0)]))))
         == BothMissed(p, x, y)
  {
    var a := Machine(map[], [Handler(p, x, Lookup)]);
    var b := Machine(map[], [Handler(p, x, Lookup), Handler(p, y, Lookup)]);
    ExecFront(NO_ENTRY, Arrive(p, x), [Arrive(p, y)] + ([Step(0)] + ([Step(1)] + [Step(0)])));
    assert Do(NO_ENTRY, Arrive(p, x)) == a;
    ExecFront(a, Arrive(p, y), [Step(0)] + ([Step(1)] + [Step(0)]));
    assert Do(a, Arrive(p, y)) == b;
    BothStep(b, p, x, y);
  }

  lemma {:induction false} BothStep(b: Machine, p: u32, x: Sample, y: Sample)
    requires b == Machine(map[], [Handler(p, x, Lookup), Handler(p, y, Lookup)])
    ensures Valid(b) && Exec(b, [Step(0)] + ([Step(1)] + [Step(0)])) == BothMissed(p, x, y)
  {
    var c := Machine(map[], [Handler(p, x, Insert), Handler(p, y, Lookup)]);
    var d := Machine(map[], [Handler(p, x, Insert), Handler(p, y, Insert)]);
    ExecFront(b, Step(0), [Step(1)] + [Step(0)]);
    assert Do(b, Step(0)) == c;
    ExecFront(c, Step(1), [Step(0)]);
    assert Do(c, Step(1)) == d;
    ExecSnoc(d, [], Step(0));
    assert [] + [Step(0)] == [Step(0)] && |d.stats| == 0;
  }

  /** A handler alone on a fresh entry of zeros runs to its end. */
  lemma {:induction false} EndsOnZeros(m: Machine, i: nat, p: u32, x: Sample, n: nat)
    requires Valid(m) && m.stats == map[p := ZERO] && i < |m.handlers| && m.handlers[i] == Handler(p, x, AddTotal)
    requires n >= 9
    ensures Advance(m, i, n) == Machine(map[p := Record(ZERO, x)], m.handlers[i := Handler(p, x, Done)])
  {
    RunToEnd(m, i, n);
    EndedOnZeros(m, i, p, x);
  }

  lemma {:induction false} EndedOnZeros(m: Machine, i: nat, p: u32, x: Sample)
    requires m.stats == map[p := ZERO] && i < |m.handlers| && m.handlers[i] == Handler(p, x, AddTotal)
    ensures Ended(m, i) == Machine(map[p := Record(ZERO, x)], m.handlers[i := Handler(p, x, Done)])
  {
    UndisturbedIsRecord(ZERO, p, x);
    assert map[p := ZERO][p := Record(ZERO, x)] == map[p := Record(ZERO, x)];
  }

  lemma {:induction false} FoundAgain(m: Machine, i: nat, p: u32, x: Sample)
    requires Valid(m) && p in m.stats && i < |m.handlers| && m.handlers[i] == Handler(p, x, Relookup)
    ensures Do(m, Step(i)) == Machine(m.stats, m.handlers[i := Handler(p, x, AddTotal)])
  {
  }

  lemma {:induction false} InsertsAgain(m: Machine, i: nat, p: u32, x: Sample)
    requires Valid(m) && p in m.stats && i < |m.handlers| && m.handlers[i] == Handler(p, x, Insert)
    ensures Do(m, Step(i)) == Machine(m.stats[p := ZERO], m.handlers[i := Handler(p, x, Relookup)])
  {
  }

  /** A handler that finds the entry again runs to its end. */
  lemma {:induction false} EndsFromRelookup(m: Machine, i: nat, p: u32, x: Sample, n: nat)
    requires Valid(m) && m.stats == map[p := ZERO] && i < |m.handlers| && m.handlers[i] == Handler(p, x, Relookup)
    requires n >= 10
    ensures Advance(m, i, n) == Machine(map[p := Record(ZERO, x)], m.handlers[i := Handler(p, x, Done)])
  {
    FoundAgain(m, i, p, x);
    var r := Do(m, Step(i));
    EndsOnZeros(r, i, p, x, n - 1);
    assert r.handlers[i := Handler(p, x, Done)] == m.handlers[i := Handler(p, x, Done)];
  }

  /** A handler that inserts its zeros over an entry runs to its end. */
  lemma {:induction false} EndsFromInsert(m: Machine, i: nat, p: u32, x: Sample, n: nat)
    requires Valid(m) && m.stats.Keys == {p} && i < |m.handlers| && m.handlers[i] == Handler(p, x, Insert)
    requires n >= 11
    ensures Advance(m, i, n) == Machine(map[p := Record(ZERO, x)], m.handlers[i := Handler(p, x, Done)])
  {
    InsertsAgain(m, i, p, x);
    var r := Do(m, Step(i));
    assert r.stats == map[p := ZERO];
    EndsFromRelookup(r, i, p, x, n - 1);
    assert r.handlers[i := Handler(p, x, Done)] == m.handlers[i := Handler(p, x, Done)];
  }

  lemma {:induction false} RelookupEnds(m: Machine, i: nat, p: u32, x: Sample)
    requires Valid(m) && m.stats == map[p := ZERO] && i < |m.handlers| && m.handlers[i] == Handler(p, x, Relookup)
    ensures Exec(m, Steps(i, 12)) == Machine(map[p := Record(ZERO, x)], m.handlers[i := Handler(p, x, Done)])
  {
    StepsAdvance(m, i, 12);
    EndsFromRelookup(m, i, p, x, 12);
  }

  lemma {:induction false} InsertEnds(m: Machine, i: nat, p: u32, x: Sample)
    requires Valid(m) && m.stats.Keys == {p} && i < |m.handlers| && m.handlers[i] == Handler(p, x, Insert)
    ensures Exec(m, Steps(i, 12)) == Machine(map[p := Record(ZERO, x)], m.handlers[i := Handler(p, x, Done)])
  {
    StepsAdvance(m, i, 12);
    EndsFromInsert(m, i, p, x, 12);
  }

  /** The state between the two ends. */
  function FirstEnded(p: u32, x: Sample, y: Sample): Machine {
    Machine(map[p := Record(ZERO, x)], [Handler(p, x, Done), Handler(p, y, Insert)])
  }

  lemma {:induction false} FirstEnds(s: Machine, p: u32, x: Sample, y: Sample)
    requires s == BothMissed(p, x, y)
    ensures Valid(s) && Exec(s, Steps(0, 12)) == FirstEnded(p, x, y)
  {
    RelookupEnds(s, 0, p, x);
    assert s.handlers[0 := Handler(p, x, Done)] == FirstEnded(p, x, y).handlers;
  }

  lemma {:induction false} SecondEnds(m: Machine, p: u32, x: Sample, y: Sample)
    requires m == FirstEnded(p, x, y)
    ensures Valid(m)
    ensures Exec(m, Steps(1, 12)) == Machine(map[p := Record(ZERO, y)], [Handler(p, x, Done), Handler(p, y, Done)])
  {
    InsertEnds(m, 1, p, y);
    assert m.handlers[1 := Handler(p, y, Done)] == [Handler(p, x, Done), Handler(p, y, Done)];
  }

  lemma {:induction false} BothEnd(s: Machine, m: Machine, p: u32, x: Sample, y: Sample)
    requires s == BothMissed(p, x, y) && m == FirstEnded(p, x, y)
    ensures Valid(s)
    ensures Exec(s, Steps(0, 12) + Steps(1, 12))
         == Machine(map[p := Record(ZERO, y)], [Handler(p, x, Done), Handler(p, y, Done)])
  {
    FirstEnds(s, p, x, y);
    SecondEnds(m, p, x, y);
    ExecConcat(s, Steps(0, 12), Steps(1, 12));
  }

  lemma {:induction false} BothAdded(p: u32, x: Sample, y: Sample)
    ensures AllAdded([Handler(p, x, Done), Handler(p, y, Done)], p, Total) == 2
  {
    var f := (h: Handler) => Added(p, Total, h);
    assert [Handler(p, x, Done), Handler(p, y, Done)] == [] + [Handler(p, x, Done)] + [Handler(p, y, Done)];
    SumSnoc([] + [Handler(p, x, Done)], Handler(p, y, Done), f);
    SumSnoc([], Handler(p, x, Done), f);
  }

  /** A first return can vanish altogether: for any process and any two returns, some schedule of
      both to their ends leaves the summary of the second alone.  By the exact condition its
      insert came late. */
  lemma {:induction false} FirstTouchLosesACall(p: u32, x: Sample, y: Sample) returns (acts: seq<Act>)
    ensures Exec(NO_ENTRY, acts) == Machine(map[p := Record(ZERO, y)], [Handler(p, x, Done), Handler(p, y, Done)])
    ensures Record(ZERO, y).totalCalls == 1 && LateInsert(NO_ENTRY, acts, p, Total)
  {
    var prefix := [Arrive(p, x)] + ([Arrive(p, y)] + ([Step(0)] + ([Step(1)] + [Step(0)])));
    BothMiss(p, x, y);
    BothEnd(BothMissed(p, x, y), FirstEnded(p, x, y), p, x, y);
    acts := prefix + (Steps(0, 12) + Steps(1, 12));
    ExecConcat(NO_ENTRY, prefix, Steps(0, 12) + Steps(1, 12));
    OnlySecondCounted(acts, Exec(NO_ENTRY, acts), p, x, y);
  }

  lemma {:induction false} OnlySecondCounted(acts: seq<Act>, r: Machine, p: u32, x: Sample, y: Sample)
    requires Exec(NO_ENTRY, acts) == r
    requires r == Machine(map[p := Record(ZERO, y)], [Handler(p, x, Done), Handler(p, y, Done)])
    ensures Record(ZERO, y).totalCalls == 1 && LateInsert(NO_ENTRY, acts, p, Total)
  {
    RecordCountsOne(y);
    BothAdded(p, x, y);
    LostMeansLate(NO_ENTRY, acts, r, p, Total);
  }

  lemma {:induction false} RecordCountsOne(x: Sample)
    ensures Record(ZERO, x).totalCalls == 1
  {
  }

  lemma {:induction false} LostMeansLate(s: Machine, acts: seq<Act>, r: Machine, p: u32, k: Counter)
    requires Valid(s) && p !in s.stats && (forall h :: h in s.handlers ==> h.pid != p) && Exec(s, acts) == r
    requires p in r.stats && Value(r.stats[p], k) < AllAdded(r.handlers, p, k) < 0x1_0000_0000_0000_0000
    ensures LateInsert(s, acts, p, k)
  {
    NothingLostIff(s, acts, r, p, k, AllAdded(r.handlers, p, k));
  }
}
