/** The S1 BPF-LSM program: per-CPU counters of classified bpf() commands, and the user-space
    loop that adds them up. */
module BpfCommands {
  import opened Words
  import opened Sums

  const COUNTER_MAX := 5
  const MAX_CPUS := 128

  // Values of `enum bpf_cmd`.
  const BPF_MAP_CREATE := 0
  const BPF_PROG_LOAD := 5
  const BPF_PROG_ATTACH := 8
  const BPF_PROG_DETACH := 9

  function Class(cmd: int): (k: nat)
    ensures k < COUNTER_MAX
  {
    if cmd == BPF_PROG_LOAD then 0
    else if cmd == BPF_MAP_CREATE then 1
    else if cmd == BPF_PROG_ATTACH then 2
    else if cmd == BPF_PROG_DETACH then 3
    else 4
  }

  /** The commands that have a counter of their own, in the order of the counters. */
  const NAMED := [BPF_PROG_LOAD, BPF_MAP_CREATE, BPF_PROG_ATTACH, BPF_PROG_DETACH]

  /** Counter `k` is the one for a command. */
  predicate IsFor(k: nat, cmd: int) {
    if k < |NAMED| then cmd == NAMED[k] else k == |NAMED| && cmd !in NAMED
  }

  /** Every command has exactly one counter. */
  lemma {:induction false} ClassIsFor(cmd: int, k: nat)
    ensures Class(cmd) == k <==> IsFor(k, cmd)
    ensures NAMED == [5, 0, 8, 9]
  {
    assert NAMED[0] == BPF_PROG_LOAD && NAMED[1] == BPF_MAP_CREATE;
    assert NAMED[2] == BPF_PROG_ATTACH && NAMED[3] == BPF_PROG_DETACH;
  }

  /** A command, and the CPU it runs on. */
  datatype Command = Command(cmd: int, cpu: nat)

  type Table = seq<seq<u64>>

  ghost predicate Shaped(t: Table, cpus: nat) {
    |t| == COUNTER_MAX && forall k :: 0 <= k < COUNTER_MAX ==> |t[k]| == cpus
  }

  function ZeroRow(n: nat): seq<u64> {
    seq(n, _ => 0)
  }

  function Zeros(cpus: nat): Table {
    seq(COUNTER_MAX, _ => ZeroRow(cpus))
  }

  function BumpedRow(row: seq<u64>, cpu: nat): seq<u64> {
    if cpu < |row| then row[cpu := Add64(row[cpu], 1)] else row
  }

  /** At most the slot of one CPU differs; if the row is `chosen` and the CPU exists, that slot and
      the sum of the row are one more than before (modulo 2^64), otherwise all is as before. */
  ghost predicate OneMore(before: seq<u64>, after: seq<u64>, cpu: nat, chosen: bool) {
    && |after| == |before|
    && (forall c :: 0 <= c < |before| && c != cpu ==> after[c] == before[c])
    && if chosen && cpu < |before|
       then after[cpu] == Add64(before[cpu], 1)
            && Wrap64(Sum(after, COUNT_OF)) == Add64(Wrap64(Sum(before, COUNT_OF)), 1)
       else after == before
  }

  function Bumped(t: Table, k: nat, cpu: nat): Table {
    if k < |t| then t[k := BumpedRow(t[k], cpu)] else t
  }

  class Program {
    var counts: Table

    constructor (cpus: nat)
      ensures counts == Zeros(cpus)
    {
      counts := seq(COUNTER_MAX, _ => ZeroRow(cpus));
    }

    method OnCommand(cmd: int, cpu: nat)
      modifies this
      ensures counts == Bumped(old(counts), Class(cmd), cpu)
      ensures |counts| == |old(counts)|
      ensures forall k :: 0 <= k < |counts| ==> OneMore(old(counts)[k], counts[k], cpu, IsFor(k, cmd))
    {
      var idx: nat;
      if cmd == BPF_PROG_LOAD {
        idx := 0;
      } else if cmd == BPF_MAP_CREATE {
        idx := 1;
      } else if cmd == BPF_PROG_ATTACH {
        idx := 2;
      } else if cmd == BPF_PROG_DETACH {
        idx := 3;
      } else {
        idx := 4;
      }
      Bump(idx, cpu);
      forall k: nat
        ensures k == idx <==> IsFor(k, cmd)
      {
        ClassIsFor(cmd, k);
      }
    }

    /** The slot of the current CPU, if the key exists, is incremented in place. */
    method Bump(idx: nat, cpu: nat)
      modifies this
      ensures counts == Bumped(old(counts), idx, cpu)
      ensures |counts| == |old(counts)|
      ensures forall k :: 0 <= k < |counts| ==> OneMore(old(counts)[k], counts[k], cpu, k == idx)
    {
      forall k | 0 <= k < |counts|
        ensures OneMore(counts[k], Bumped(counts, idx, cpu)[k], cpu, k == idx)
      {
        if k == idx && cpu < |counts[k]| {
          SlotSum(counts[k], cpu);
        }
      }
      if idx < |counts| && cpu < |counts[idx]| {
        var perCpu: seq<u64> := counts[idx];
        perCpu := perCpu[cpu := Add64(perCpu[cpu], 1)];
        counts := counts[idx := perCpu];
      }
    }
  }

  const COUNT_OF: u64 -> int := (c: u64) => c

  /** The sum loops: for each key, look up its per-CPU values and add up those of the CPUs. */
  method Totals(counts: Table, possibleCpus: nat) returns (totals: seq<u64>)
    requires Shaped(counts, possibleCpus)
    ensures |totals| == 5
    ensures forall k :: 0 <= k < 5 ==>
              totals[k]
              == Wrap64(Sum(counts[k][..if possibleCpus <= 128 then possibleCpus else 128], COUNT_OF))
  {
    var numCpus := possibleCpus;
    if numCpus > MAX_CPUS {
      numCpus := MAX_CPUS;
    }
    totals := [];
    for key := 0 to COUNTER_MAX
      invariant |totals| == key
      invariant forall k :: 0 <= k < key ==> totals[k] == Wrap64(Sum(counts[k][..numCpus], COUNT_OF))
    {
      var total: u64 := 0;
      var values := counts[key];
      for i := 0 to numCpus
        invariant total == Wrap64(Sum(values[..i], COUNT_OF))
      {
        AddWrapped(Sum(values[..i], COUNT_OF), values[i]);
        assert values[..i + 1] == values[..i] + [values[i]];
        SumSnoc(values[..i], values[i], COUNT_OF);
        total := Add64(total, values[i]);
      }
      totals := totals + [total];
    }
  }

  // ---------------------------------------------------------------- one classified counter

  function Run(cpus: nat, xs: seq<Command>): Table {
    if xs == [] then Zeros(cpus)
    else Bumped(Run(cpus, xs[..|xs| - 1]), Class(xs[|xs| - 1].cmd), xs[|xs| - 1].cpu)
  }

  /** The reference: one counter per class, whatever the CPU. */
  function Single(xs: seq<Command>, k: nat): u64 {
    if xs == [] then 0
    else
      var before := Single(xs[..|xs| - 1], k);
      if Class(xs[|xs| - 1].cmd) == k then Add64(before, 1) else before
  }

  lemma {:induction false} RunShaped(cpus: nat, xs: seq<Command>)
    ensures Shaped(Run(cpus, xs), cpus)
  {
    if xs != [] {
      RunShaped(cpus, xs[..|xs| - 1]);
    }
  }

  lemma {:induction false} ZeroSum(n: nat)
    ensures Sum(ZeroRow(n), COUNT_OF) == 0
  {
    if n > 0 {
      ZeroSum(n - 1);
      assert ZeroRow(n)[..n - 1] == ZeroRow(n - 1);
    }
  }

  /** One increment of one slot is one increment of the total, modulo 2^64. */
  lemma {:induction false} SlotSum(row: seq<u64>, cpu: nat)
    requires cpu < |row|
    ensures Wrap64(Sum(BumpedRow(row, cpu), COUNT_OF)) == Add64(Wrap64(Sum(row, COUNT_OF)), 1)
  {
    SumUpdate(row, cpu, Add64(row[cpu], 1), COUNT_OF);
    var slot: int := row[cpu];
    var rest := Sum(row, COUNT_OF) - slot;
    WrapAdd(slot + 1, rest);
    AddWrapped(Sum(row, COUNT_OF), 1);
  }

  /** For every sequence of commands and every assignment of them to the first `n` CPUs, the
      totals over these CPUs are the counts of the single classified counter.  (The sum loop
      takes `n` to be the number of CPUs, or 128 if there are more.) */
  lemma {:induction false} TotalsAreSingle(cpus: nat, n: nat, xs: seq<Command>, k: nat)
    requires k < COUNTER_MAX && n <= cpus && forall x :: x in xs ==> x.cpu < n
    ensures Shaped(Run(cpus, xs), cpus)
    ensures Wrap64(Sum(Run(cpus, xs)[k][..n], COUNT_OF)) == Single(xs, k)
  {
    RunShaped(cpus, xs);
    if xs == [] {
      assert Zeros(cpus)[k] == ZeroRow(cpus);
      assert ZeroRow(cpus)[..n] == ZeroRow(n);
      ZeroSum(n);
    } else {
      var last := xs[|xs| - 1];
      var row := Run(cpus, xs[..|xs| - 1])[k];
      TotalsAreSingle(cpus, n, xs[..|xs| - 1], k);
      assert last in xs;
      RunShaped(cpus, xs[..|xs| - 1]);
      if Class(last.cmd) == k {
        SlotSum(row[..n], last.cpu);
        assert BumpedRow(row, last.cpu)[..n] == BumpedRow(row[..n], last.cpu);
      }
    }
  }

  lemma {:induction false} AddBothWrapped(x: int, y: int)
    ensures Add64(Wrap64(x), Wrap64(y)) == Wrap64(x + y)
  {
    WrapAdd(x, y);
  }

  /** The five totals add up to the number of commands. */
  lemma {:induction false} TotalsAddUp(xs: seq<Command>)
    ensures Add64(Add64(Add64(Add64(Single(xs, 0), Single(xs, 1)), Single(xs, 2)), Single(xs, 3)), Single(xs, 4))
         == Wrap64(|xs|)
  {
    var a, b, c, d, e := OfClass(xs, 0), OfClass(xs, 1), OfClass(xs, 2), OfClass(xs, 3), OfClass(xs, 4);
    calc {
      Add64(Add64(Add64(Add64(Single(xs, 0), Single(xs, 1)), Single(xs, 2)), Single(xs, 3)), Single(xs, 4));
      { SingleCounts(xs, 0); SingleCounts(xs, 1); AddBothWrapped(a, b); }
      Add64(Add64(Add64(Wrap64(a + b), Single(xs, 2)), Single(xs, 3)), Single(xs, 4));
      { SingleCounts(xs, 2); AddBothWrapped(a + b, c); }
      Add64(Add64(Wrap64(a + b + c), Single(xs, 3)), Single(xs, 4));
      { SingleCounts(xs, 3); AddBothWrapped(a + b + c, d); }
      Add64(Wrap64(a + b + c + d), Single(xs, 4));
      { SingleCounts(xs, 4); AddBothWrapped(a + b + c + d, e); }
      Wrap64(a + b + c + d + e);
      { ClassesAddUp(xs); }
      Wrap64(|xs|);
    }
  }

  ghost function OfClass(xs: seq<Command>, k: nat): nat {
    if xs == [] then 0 else OfClass(xs[..|xs| - 1], k) + if Class(xs[|xs| - 1].cmd) == k then 1 else 0
  }

  lemma {:induction false} SingleCounts(xs: seq<Command>, k: nat)
    ensures Single(xs, k) == Wrap64(OfClass(xs, k))
  {
    if xs != [] {
      SingleCounts(xs[..|xs| - 1], k);
      AddWrapped(OfClass(xs[..|xs| - 1], k), 1);
    }
  }

  lemma {:induction false} ClassesAddUp(xs: seq<Command>)
    ensures OfClass(xs, 0) + OfClass(xs, 1) + OfClass(xs, 2) + OfClass(xs, 3) + OfClass(xs, 4) == |xs|
  {
    if xs != [] {
      ClassesAddUp(xs[..|xs| - 1]);
    }
  }
}
