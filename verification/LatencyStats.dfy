/** The `struct latency_stats` that the uretprobe and fentry/fexit programs keep per process. */
module LatencyStats {
  import opened Words
  import opened BoundedTable
  import opened Sums

  /** `max_entries` of `uret_latency_stats` and `fentry_latency_stats`. */
  const STATS_CAP: nat := 1024

  datatype Stats = Stats(count: u64, total: u64, min: u64, max: u64)

  function First(latency: u64): Stats {
    Stats(1, latency, latency, latency)
  }

  function Record(st: Stats, latency: u64): Stats {
    Stats(Add64(st.count, 1),
          Add64(st.total, latency),
          if latency < st.min then latency else st.min,
          if latency > st.max then latency else st.max)
  }

  /** The four in-place updates through a pointer to the entry of a process. */
  method RecordInPlace(stats: map<u32, Stats>, pid: u32, latency: u64) returns (updated: map<u32, Stats>)
    requires pid in stats
    ensures updated == stats[pid := Record(stats[pid], latency)]
  {
    updated := stats;
    updated := updated[pid := updated[pid].(count := Add64(updated[pid].count, 1))];
    updated := updated[pid := updated[pid].(total := Add64(updated[pid].total, latency))];
    if latency < updated[pid].min {
      updated := updated[pid := updated[pid].(min := latency)];
    }
    if latency > updated[pid].max {
      updated := updated[pid := updated[pid].(max := latency)];
    }
  }

  /** What the four fields are meant to say about the latencies recorded so far. */
  ghost predicate Summarises(st: Stats, latencies: seq<u64>) {
    && st.count == Wrap64(|latencies|)
    && st.total == Wrap64(Sum(latencies, (l: u64) => l as int))
    && st.min in latencies && st.max in latencies
    && forall l :: l in latencies ==> st.min <= l <= st.max
  }

  lemma {:induction false} FoldSummarises(latencies: seq<u64>)
    requires latencies != []
    ensures Summarises(Fold(latencies, First, Record), latencies)
  {
    var f := (l: u64) => l as int;
    var n := |latencies| - 1;
    if n == 0 {
      assert Sum(latencies[..0], f) == 0;
    } else {
      FoldSummarises(latencies[..n]);
      var st := Fold(latencies[..n], First, Record);
      AddWrapped(n, 1);
      AddWrapped(Sum(latencies[..n], f), latencies[n]);
      forall l | l in latencies
        ensures l in latencies[..n] || l == latencies[n]
      {
        var i :| 0 <= i < |latencies| && latencies[i] == l;
        if i < n {
          assert latencies[..n][i] == l;
        }
      }
    }
  }
}
