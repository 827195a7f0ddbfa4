/** The ticket counter of the socket filter and of the perf-event program under every
    interleaving of any number of hits: one step for the lookup, one for the insert of a
    missing key, one for the atomic add. */
module TicketRace {
  import opened Words
  import opened BoundedTable
  import opened Sums
  import opened Tickets

  datatype Pc =
    | Lookup   // bpf_map_lookup_elem
    | Insert   // bpf_map_update_elem(.., &one, BPF_ANY)
    | FetchAdd // __sync_fetch_and_add
    | Drawn    // the hit has its number

  /** One hit.  `ticket` is its `new_count` once it is drawn. */
  datatype Hit = Hit(key: u32, pc: Pc, ticket: u64)

  datatype Machine = Machine(counts: map<u32, u64>, hits: seq<Hit>)

  datatype Act = Arrive(key: u32) | Step(i: nat)

  ghost predicate Valid(s: Machine) {
    forall h :: h in s.hits && h.pc == FetchAdd ==> h.key in s.counts
  }

  function NextHit(counts: map<u32, u64>, h: Hit): Hit
    requires h.pc == FetchAdd ==> h.key in counts
  {
    match h.pc
    case Lookup => h.(pc := if h.key in counts then FetchAdd else Insert)
    case Insert => h.(pc := Drawn, ticket := 1)
    case FetchAdd => h.(pc := Drawn, ticket := Add64(counts[h.key], 1))
    case Drawn => h
  }

  function NextCounts(counts: map<u32, u64>, h: Hit): map<u32, u64>
    requires h.pc == FetchAdd ==> h.key in counts
  {
    match h.pc
    case Insert => Put(counts, COUNTS_CAP, h.key, 1)
    case FetchAdd => counts[h.key := Add64(counts[h.key], 1)]
    case _ => counts
  }

  function Next(s: Machine, i: nat): Machine
    requires Valid(s) && i < |s.hits|
  {
    var h := s.hits[i];
    Machine(NextCounts(s.counts, h), s.hits[i := NextHit(s.counts, h)])
  }

  lemma {:induction false} NextValid(s: Machine, i: nat)
    requires Valid(s) && i < |s.hits|
    ensures Valid(Next(s, i))
  {
    var s', h := Next(s, i), s.hits[i];
    PutKeys(s.counts, COUNTS_CAP, h.key, 1);
    assert s.counts.Keys <= s'.counts.Keys;
    forall g | g in s'.hits && g.pc == FetchAdd
      ensures g.key in s'.counts
    {
      var j :| 0 <= j < |s'.hits| && s'.hits[j] == g;
      assert s.hits[j] in s.hits;
    }
  }

  function Do(s: Machine, a: Act): (r: Machine)
    requires Valid(s)
    ensures Valid(r)
  {
    match a
    case Arrive(key) => s.(hits := s.hits + [Hit(key, Lookup, 0)])
    case Step(i) =>
      if i < |s.hits| then
        NextValid(s, i);
        Next(s, i)
      else s
  }

  /** A schedule: arrivals and steps in any order. */
  function Exec(s: Machine, acts: seq<Act>): (r: Machine)
    requires Valid(s)
    ensures Valid(r)
  {
    if acts == [] then s else Do(Exec(s, acts[..|acts| - 1]), acts[|acts| - 1])
  }

  /** The key is stored and no hit is about to overwrite its count with 1. */
  ghost predicate Settled(s: Machine, k: u32) {
    k in s.counts && forall h :: h in s.hits && h.key == k ==> h.pc != Insert
  }

  /** A settled key before its first hit. */
  ghost predicate Fresh(s: Machine, k: u32) {
    k in s.counts && forall h :: h in s.hits ==> h.key != k
  }

  /** What a hit weighs in the account of key `k`, if a number `t` weighs `f(t)`. */
  function Weight(k: u32, f: u64 -> int, h: Hit): int {
    if h.key == k && h.pc == Drawn then f(h.ticket) else 0
  }

  ghost function Account(hits: seq<Hit>, k: u32, f: u64 -> int): int {
    Sum(hits, (h: Hit) => Weight(k, f, h))
  }

  /** The hits of a key that have drawn a number. */
  ghost function DrawnOf(hits: seq<Hit>, k: u32): nat {
    if hits == [] then 0
    else
      var h := hits[|hits| - 1];
      DrawnOf(hits[..|hits| - 1], k) + if h.key == k && h.pc == Drawn then 1 else 0
  }

  lemma {:induction false} DrawnOfUpdate(hits: seq<Hit>, i: nat, h: Hit, k: u32)
    requires i < |hits| && h.key == hits[i].key && (hits[i].pc == Drawn ==> h.pc == Drawn)
    ensures DrawnOf(hits[i := h], k)
         == if hits[i].key == k && hits[i].pc != Drawn && h.pc == Drawn then DrawnOf(hits, k) + 1 else DrawnOf(hits, k)
  {
    var n := |hits| - 1;
    if i == n {
      assert hits[i := h][..n] == hits[..n];
    } else {
      assert hits[i := h][..n] == hits[..n][i := h];
      DrawnOfUpdate(hits[..n], i, h, k);
    }
  }

  /** The weight of the numbers n0 + 1, ..., n0 + n, as `__u64`. */
  ghost function Consecutive(n0: u64, n: nat, f: u64 -> int): int {
    if n == 0 then 0 else Consecutive(n0, n - 1, f) + f(Wrap64(n0 + n))
  }

  lemma {:induction false} StepStaysSettled(s: Machine, i: nat, k: u32)
    requires Valid(s) && Settled(s, k) && i < |s.hits|
    ensures Settled(Next(s, i), k)
  {
    var s' := Next(s, i);
    PutKeys(s.counts, COUNTS_CAP, s.hits[i].key, 1);
    forall g | g in s'.hits && g.key == k
      ensures g.pc != Insert
    {
      var j :| 0 <= j < |s'.hits| && s'.hits[j] == g;
      assert s.hits[j] in s.hits;
    }
  }

  /** What every state satisfies: the count is n0 plus the number of drawn hits, and the
      numbers drawn weigh what the consecutive numbers from n0 + 1 weigh. */
  ghost predicate Balanced(s: Machine, k: u32, n0: u64, f: u64 -> int) {
    && k in s.counts
    && s.counts[k] == Wrap64(n0 + DrawnOf(s.hits, k))
    && Account(s.hits, k, f) == Consecutive(n0, DrawnOf(s.hits, k), f)
  }

  lemma {:induction false} CountAfterStep(s: Machine, i: nat, k: u32)
    requires Valid(s) && Settled(s, k) && i < |s.hits|
    ensures k in Next(s, i).counts
    ensures Next(s, i).counts[k]
         == if s.hits[i].key == k && s.hits[i].pc == FetchAdd then Add64(s.counts[k], 1) else s.counts[k]
  {
    assert s.hits[i] in s.hits;
  }

  lemma {:induction false} DrawEffect(hits: seq<Hit>, i: nat, t: u64, k: u32, f: u64 -> int)
    requires i < |hits| && hits[i].key == k && hits[i].pc != Drawn
    ensures var hits' := hits[i := hits[i].(pc := Drawn, ticket := t)];
            DrawnOf(hits', k) == DrawnOf(hits, k) + 1 && Account(hits', k, f) == Account(hits, k, f) + f(t)
  {
    var h' := hits[i].(pc := Drawn, ticket := t);
    SumUpdate(hits, i, h', (h: Hit) => Weight(k, f, h));
    DrawnOfUpdate(hits, i, h', k);
  }

  /** A hit that draws the number after n0 + n moves a balanced account from n to n + 1. */
  lemma {:induction false} DrawKeepsBalance(hits: seq<Hit>, i: nat, k: u32, n0: u64, c: u64, f: u64 -> int)
    requires i < |hits| && hits[i].key == k && hits[i].pc != Drawn
    requires c == Wrap64(n0 + DrawnOf(hits, k)) && Account(hits, k, f) == Consecutive(n0, DrawnOf(hits, k), f)
    ensures var hits' := hits[i := hits[i].(pc := Drawn, ticket := Add64(c, 1))];
            && Add64(c, 1) == Wrap64(n0 + DrawnOf(hits', k))
            && Account(hits', k, f) == Consecutive(n0, DrawnOf(hits', k), f)
  {
    DrawEffect(hits, i, Add64(c, 1), k, f);
    AddWrapped(n0 + DrawnOf(hits, k), 1);
    ConsecutiveNext(n0, DrawnOf(hits, k), f);
  }

  lemma {:induction false} ConsecutiveNext(n0: u64, n: nat, f: u64 -> int)
    ensures Consecutive(n0, n + 1, f) == Consecutive(n0, n, f) + f(Add64(Wrap64(n0 + n), 1))
  {
    AddWrapped(n0 + n, 1);
  }

  lemma {:induction false} OtherKeepsAccount(hits: seq<Hit>, i: nat, h': Hit, k: u32, f: u64 -> int)
    requires i < |hits| && h'.key == hits[i].key && (hits[i].pc == Drawn ==> h' == hits[i])
    requires h'.key == k ==> h' == hits[i] || h'.pc != Drawn
    ensures DrawnOf(hits[i := h'], k) == DrawnOf(hits, k) && Account(hits[i := h'], k, f) == Account(hits, k, f)
  {
    SumUpdate(hits, i, h', (h: Hit) => Weight(k, f, h));
    DrawnOfUpdate(hits, i, h', k);
  }

  lemma {:induction false} StepKeepsBalance(s: Machine, i: nat, k: u32, n0: u64, f: u64 -> int)
    requires Valid(s) && Settled(s, k) && i < |s.hits| && Balanced(s, k, n0, f)
    ensures Balanced(Next(s, i), k, n0, f)
  {
    CountAfterStep(s, i, k);
    assert s.hits[i] in s.hits;
    if s.hits[i].key == k && s.hits[i].pc == FetchAdd {
      DrawKeepsBalance(s.hits, i, k, n0, s.counts[k], f);
    } else {
      OtherKeepsAccount(s.hits, i, NextHit(s.counts, s.hits[i]), k, f);
    }
  }

  lemma {:induction false} ActKeepsBalance(s: Machine, a: Act, k: u32, n0: u64, f: u64 -> int)
    requires Valid(s) && Settled(s, k) && Balanced(s, k, n0, f)
    ensures Settled(Do(s, a), k) && Balanced(Do(s, a), k, n0, f)
  {
    if a.Arrive? {
      var h := Hit(a.key, Lookup, 0);
      SumSnoc(s.hits, h, (h: Hit) => Weight(k, f, h));
      assert (s.hits + [h])[..|s.hits|] == s.hits;
    } else if a.i < |s.hits| {
      StepStaysSettled(s, a.i, k);
      StepKeepsBalance(s, a.i, k, n0, f);
    }
  }

  lemma {:induction false} FreshIsBalanced(hits: seq<Hit>, k: u32, f: u64 -> int)
    requires forall h :: h in hits ==> h.key != k
    ensures DrawnOf(hits, k) == 0 && Account(hits, k, f) == 0
  {
    if hits != [] {
      FreshIsBalanced(hits[..|hits| - 1], k, f);
      assert hits[|hits| - 1] in hits;
    }
  }

  /** Under every schedule the hits of a stored key draw consecutive numbers: whatever weight
      numbers are given, those drawn weigh exactly what n0 + 1, ..., n0 + n weigh (modulo
      2^64), n being the number of hits that have drawn, and the count is n0 + n. */
  lemma {:induction false} ConsecutiveTickets(s: Machine, acts: seq<Act>, k: u32, f: u64 -> int)
    requires Valid(s) && Fresh(s, k)
    ensures Settled(Exec(s, acts), k) && Balanced(Exec(s, acts), k, s.counts[k], f)
  {
    if acts == [] {
      FreshIsBalanced(s.hits, k, f);
      NoWrap(s.counts[k]);
    } else {
      ConsecutiveTickets(s, acts[..|acts| - 1], k, f);
      ActKeepsBalance(Exec(s, acts[..|acts| - 1]), acts[|acts| - 1], k, s.counts[k], f);
    }
  }

  // ---------------------------------------------------------------- below 2^64

  function Equals(t: u64): u64 -> int {
    (u: u64) => if u == t then 1 else 0
  }

  lemma {:induction false} CountInConsecutive(n0: u64, n: nat, t: u64)
    requires n0 + n < 0x1_0000_0000_0000_0000
    ensures Consecutive(n0, n, Equals(t)) == if n0 < t <= n0 + n then 1 else 0
  {
    if n > 0 {
      CountInConsecutive(n0, n - 1, t);
      NoWrap(n0 + n);
    }
  }

  /** Distinct and contiguous: as long as the count stays below 2^64, every number from n0 + 1
      to n0 + n is drawn by exactly one hit, and no other number by any. */
  lemma {:induction false} TicketsAreDistinct(s: Machine, acts: seq<Act>, r: Machine, k: u32, t: u64)
    requires Valid(s) && Fresh(s, k) && Exec(s, acts) == r
    requires s.counts[k] + DrawnOf(r.hits, k) < 0x1_0000_0000_0000_0000
    ensures k in r.counts && r.counts[k] == s.counts[k] + DrawnOf(r.hits, k)
    ensures Account(r.hits, k, Equals(t)) == if s.counts[k] < t <= r.counts[k] then 1 else 0
  {
    ConsecutiveTickets(s, acts, k, Equals(t));
    CountInConsecutive(s.counts[k], DrawnOf(r.hits, k), t);
    NoWrap(s.counts[k] + DrawnOf(r.hits, k));
  }

  /** The sampling test. */
  const IS_SAMPLE: u64 -> int := (u: u64) => if u % SAMPLING == 0 then 1 else 0

  lemma {:induction false} SamplesInConsecutive(n0: u64, n: nat)
    requires n0 + n < 0x1_0000_0000_0000_0000
    ensures Consecutive(n0, n, IS_SAMPLE) == (n0 + n) / 100 - n0 / 100
  {
    if n > 0 {
      SamplesInConsecutive(n0, n - 1);
      NoWrap(n0 + n);
      assert (n0 + n) / 100 == (n0 + n - 1) / 100 + if (n0 + n) % 100 == 0 then 1 else 0;
    }
  }

  /** Sampling under every schedule: the hits that pass the test number exactly
      (n0 + n) / 100 - n0 / 100. */
  lemma {:induction false} SamplesUnderInterleaving(s: Machine, acts: seq<Act>, r: Machine, k: u32)
    requires Valid(s) && Fresh(s, k) && Exec(s, acts) == r
    requires s.counts[k] + DrawnOf(r.hits, k) < 0x1_0000_0000_0000_0000
    ensures Account(r.hits, k, IS_SAMPLE) == (s.counts[k] + DrawnOf(r.hits, k)) / 100 - s.counts[k] / 100
  {
    ConsecutiveTickets(s, acts, k, IS_SAMPLE);
    SamplesInConsecutive(s.counts[k], DrawnOf(r.hits, k));
  }

  // ---------------------------------------------------------------- first touch

  /** What a run from a missing key leaves.  A stored count is at most the number of hits that
      have drawn, and it is that number iff exactly one hit drew 1, that is, inserted the key.
      If the key is not stored, hits have drawn only from a full table. */
  ghost predicate FirstTouched(s: Machine, k: u32) {
    var drawn, inserts := DrawnOf(s.hits, k), Account(s.hits, k, Equals(1));
    if k in s.counts then 1 <= s.counts[k] <= drawn && inserts >= 1 && (s.counts[k] == drawn <==> inserts == 1)
    else drawn == inserts && (drawn == 0 || |s.counts| >= COUNTS_CAP)
  }

  lemma {:induction false} TableGrows(counts: map<u32, u64>, h: Hit, k: u32)
    requires h.key != k && (h.pc == FetchAdd ==> h.key in counts)
    ensures k in NextCounts(counts, h) <==> k in counts
    ensures k in counts ==> NextCounts(counts, h)[k] == counts[k]
    ensures |counts| >= COUNTS_CAP ==> |NextCounts(counts, h)| >= COUNTS_CAP
  {
    if h.pc == FetchAdd {
      assert NextCounts(counts, h).Keys == counts.Keys;
    }
  }

  lemma {:induction false} StepFirstTouched(s: Machine, i: nat, k: u32)
    requires Valid(s) && i < |s.hits| && FirstTouched(s, k)
    requires DrawnOf(Next(s, i).hits, k) < 0x1_0000_0000_0000_0000
    ensures FirstTouched(Next(s, i), k)
  {
    var h := s.hits[i];
    assert h in s.hits;
    if h.key == k && h.pc == Insert {
      InsertFirstTouched(s, i, k);
    } else if h.key == k && h.pc == FetchAdd {
      DrawEffect(s.hits, i, Add64(s.counts[k], 1), k, Equals(1));
      AddFirstTouched(s, i, k);
    } else {
      OtherKeepsAccount(s.hits, i, NextHit(s.counts, h), k, Equals(1));
      if h.key != k {
        TableGrows(s.counts, h, k);
      }
    }
  }

  lemma {:induction false} InsertFirstTouched(s: Machine, i: nat, k: u32)
    requires Valid(s) && i < |s.hits| && FirstTouched(s, k) && s.hits[i].key == k && s.hits[i].pc == Insert
    ensures FirstTouched(Next(s, i), k)
  {
    DrawEffect(s.hits, i, 1, k, Equals(1));
  }

  lemma {:induction false} AddFirstTouched(s: Machine, i: nat, k: u32)
    requires Valid(s) && i < |s.hits| && FirstTouched(s, k) && s.hits[i].key == k && s.hits[i].pc == FetchAdd
    requires DrawnOf(s.hits, k) + 1 < 0x1_0000_0000_0000_0000
    ensures FirstTouched(Next(s, i), k)
  {
    assert s.hits[i] in s.hits;
    NoWrap(s.counts[k] + 1);
    DrawEffect(s.hits, i, Add64(s.counts[k], 1), k, Equals(1));
  }

  lemma {:induction false} DrawnGrows(s: Machine, a: Act, k: u32)
    requires Valid(s)
    ensures DrawnOf(s.hits, k) <= DrawnOf(Do(s, a).hits, k)
  {
    if a.Step? && a.i < |s.hits| {
      DrawnOfUpdate(s.hits, a.i, NextHit(s.counts, s.hits[a.i]), k);
    } else if a.Arrive? {
      assert (s.hits + [Hit(a.key, Lookup, 0)])[..|s.hits|] == s.hits;
    }
  }

  lemma {:induction false} RunFirstTouched(s: Machine, acts: seq<Act>, k: u32)
    requires Valid(s) && k !in s.counts && forall h :: h in s.hits ==> h.key != k
    requires DrawnOf(Exec(s, acts).hits, k) < 0x1_0000_0000_0000_0000
    ensures FirstTouched(Exec(s, acts), k)
  {
    if acts == [] {
      FreshIsBalanced(s.hits, k, Equals(1));
    } else {
      var m, a := Exec(s, acts[..|acts| - 1]), acts[|acts| - 1];
      DrawnGrows(m, a, k);
      RunFirstTouched(s, acts[..|acts| - 1], k);
      if a.Step? && a.i < |m.hits| {
        StepFirstTouched(m, a.i, k);
      } else if a.Arrive? {
        SumSnoc(m.hits, Hit(a.key, Lookup, 0), (h: Hit) => Weight(k, Equals(1), h));
        assert (m.hits + [Hit(a.key, Lookup, 0)])[..|m.hits|] == m.hits;
      }
    }
  }

  /** Without the premise that the key is stored, exactly: in every state reachable from one
      without the key, a stored count is the number of hits that have drawn iff only one hit
      drew the number 1, and otherwise it is smaller. */
  lemma {:induction false} CountIsExactIffOneInsert(s: Machine, acts: seq<Act>, r: Machine, k: u32)
    requires Valid(s) && k !in s.counts && (forall h :: h in s.hits ==> h.key != k) && Exec(s, acts) == r
    requires k in r.counts && DrawnOf(r.hits, k) < 0x1_0000_0000_0000_0000
    ensures r.counts[k] <= DrawnOf(r.hits, k)
    ensures r.counts[k] == DrawnOf(r.hits, k) <==> Account(r.hits, k, Equals(1)) == 1
  {
    RunFirstTouched(s, acts, k);
    assert FirstTouched(r, k);
  }

  const NO_HITS := Machine(map[], [])

  /** Some schedule leads from one state to another. */
  ghost predicate Reaches(s: Machine, r: Machine)
    requires Valid(s)
  {
    exists acts :: Exec(s, acts) == r
  }

  lemma {:induction false} Leads(s: Machine, m: Machine, a: Act, r: Machine)
    requires Valid(s) && Valid(m) && Reaches(s, m) && Do(m, a) == r
    ensures Reaches(s, r)
  {
    var acts :| Exec(s, acts) == m;
    assert (acts + [a])[..|acts|] == acts;
    assert Exec(s, acts + [a]) == r;
  }

  /** The premise that the key is stored is needed: two first hits that both miss the lookup
      both draw 1, and one of them is not counted. */
  lemma {:induction false} FirstTouchDrawsTwice(k: u32)
    ensures Reaches(NO_HITS, Machine(map[k := 1], [Hit(k, Drawn, 1), Hit(k, Drawn, 1)]))
  {
    var s, a, b, c, d := NO_HITS, Hit(k, Lookup, 0), Hit(k, Insert, 0), Hit(k, Drawn, 1), map[k := 1 as u64];
    BothMiss(k, a, b);
    var m1, m2, m3 := Machine(map[], [b, b]), Machine(d, [c, b]), Machine(d, [c, c]);
    assert |m1.counts| == 0;
    Leads(s, m1, Step(0), m2);
    Leads(s, m2, Step(1), m3);
  }

  lemma {:induction false} BothMiss(k: u32, a: Hit, b: Hit)
    requires a == Hit(k, Lookup, 0) && b == Hit(k, Insert, 0)
    ensures Reaches(NO_HITS, Machine(map[], [b, b]))
  {
    var s := NO_HITS;
    assert Exec(s, []) == s;
    Leads(s, s, Arrive(k), Machine(map[], [a]));
    Leads(s, Machine(map[], [a]), Arrive(k), Machine(map[], [a, a]));
    Leads(s, Machine(map[], [a, a]), Step(0), Machine(map[], [b, a]));
    Leads(s, Machine(map[], [b, a]), Step(1), Machine(map[], [b, b]));
  }
}
