/** The S2 perf-event program: a ticket counter keyed by process. */
module PerfEvent {
  import opened Words
  import opened BoundedTable
  import opened Tickets
  import opened Traces

  /** One firing of the perf event. */
  datatype Firing = Firing(pidTgid: u64, cpu: u32, period: u64, now: u64, reserveOk: bool)

  datatype Event = Event(timestamp: u64, pid: u32, tid: u32, cpu: u32, period: u64, count: u64)

  datatype State = State(counts: map<u32, u64>, ring: seq<Attempt<Event>>)

  const LOADED := State(map[], [])

  function After(s: State, x: Firing): State {
    var pid := PidOf(x.pidTgid);
    var count := Draw(s.counts, pid);
    State(Put(s.counts, COUNTS_CAP, pid, count),
          if count % SAMPLING == 0
          then s.ring + [Attempt(Event(x.now, pid, TidOf(x.pidTgid), x.cpu, x.period, count), x.reserveOk)]
          else s.ring)
  }

  class Program {
    var counts: map<u32, u64>
    var ring: seq<Attempt<Event>>

    ghost function Maps(): State
      reads this
    {
      State(counts, ring)
    }

    constructor ()
      ensures Maps() == LOADED
    {
      counts, ring := map[], [];
    }

    method OnEvent(x: Firing)
      modifies this
      ensures Maps() == After(old(Maps()), x)
    {
      var pid := PidOf(x.pidTgid);
      var newCount: u64;
      if pid !in counts {
        counts := Put(counts, COUNTS_CAP, pid, 1);
        newCount := 1;
      } else {
        newCount := Add64(counts[pid], 1);
        counts := counts[pid := newCount];
      }
      if newCount % SAMPLING != 0 {
        return;
      }
      ring := ring + [Attempt(Event(x.now, pid, TidOf(x.pidTgid), x.cpu, x.period, newCount), x.reserveOk)];
    }
  }

  function Run(xs: seq<Firing>): State {
    if xs == [] then LOADED else After(Run(xs[..|xs| - 1]), xs[|xs| - 1])
  }

  function Hits(xs: seq<Firing>): seq<(u32, ())> {
    seq(|xs|, i requires 0 <= i < |xs| => (PidOf(xs[i].pidTgid), ()))
  }

  function OfProcess(pid: u32): Event -> bool {
    (e: Event) => e.pid == pid
  }

  const COUNT: Event -> u64 := (e: Event) => e.count

  /** The counts in the reservation attempts of one process. */
  ghost function AttemptedCounts(ring: seq<Attempt<Event>>, pid: u32): seq<u64> {
    CountsWhere(ring, OfProcess(pid), COUNT)
  }

  lemma {:induction false} RunDrawsTickets(xs: seq<Firing>, pid: u32)
    ensures Run(xs).counts == Counts(Hits(xs))
    ensures AttemptedCounts(Run(xs).ring, pid) == Sampled(TicketsOf(Hits(xs), pid))
  {
    if xs != [] {
      var n := |xs| - 1;
      RunDrawsTickets(xs[..n], pid);
      assert Hits(xs) == Hits(xs[..n]) + [(PidOf(xs[n].pidTgid), ())];
      HitSnoc(Hits(xs[..n]), PidOf(xs[n].pidTgid), pid);
      var s, x := Run(xs[..n]), xs[n];
      var p, count := PidOf(x.pidTgid), Draw(s.counts, PidOf(x.pidTgid));
      var e := Event(x.now, p, TidOf(x.pidTgid), x.cpu, x.period, count);
      CountsWhereSnoc(s.ring, Attempt(e, x.reserveOk), OfProcess(pid), COUNT);
      SampledSnoc(TicketsOf(Hits(xs[..n]), pid), count);
    }
  }

  /** How often the event fired in a thread of a process. */
  function FiringsIn(xs: seq<Firing>, pid: u32): nat {
    if xs == [] then 0
    else
      var id := xs[|xs| - 1].pidTgid;
      FiringsIn(xs[..|xs| - 1], pid)
      + if pid * 0x1_0000_0000 <= id < (pid + 1) * 0x1_0000_0000 then 1 else 0
  }

  lemma {:induction false} HitsAreFirings(xs: seq<Firing>, pid: u32)
    ensures HitsOf(Hits(xs), pid) == FiringsIn(xs, pid)
  {
    if xs != [] {
      HitsAreFirings(xs[..|xs| - 1], pid);
      InProcessIs(xs[|xs| - 1].pidTgid, pid);
      assert Hits(xs)[..|xs| - 1] == Hits(xs[..|xs| - 1]);
    }
  }

  /** In every serial run a stored process with n firings has count n and has attempted exactly
      the samples 100, 200, ..., n / 100 of them; a process without a slot attempts none. */
  lemma {:induction false} SampledEvents(xs: seq<Firing>, pid: u32)
    requires |xs| < 0x1_0000_0000_0000_0000
    ensures pid in Run(xs).counts <==> Admitted(Hits(xs), 10240, pid)
    ensures Sampling(Run(xs).counts, AttemptedCounts(Run(xs).ring, pid), pid, FiringsIn(xs, pid))
  {
    RunDrawsTickets(xs, pid);
    HitsAreSampled(Hits(xs), pid);
    HitsAreFirings(xs, pid);
  }

  /** A firing whose process has a slot and has fired a multiple of 100 times with it. */
  ghost function Samples(xs: seq<Firing>): nat -> bool {
    (i: nat) =>
      i < |xs|
      && PidOf(xs[i].pidTgid) in Run(xs[..i + 1]).counts && FiringsIn(xs[..i + 1], PidOf(xs[i].pidTgid)) % 100 == 0
  }

  /** An attempt carries the time, the halves of the thread key, the CPU and the period of its
      firing and the number of firings of the process up to it; it is granted iff its
      reservation is. */
  ghost function TellsOf(xs: seq<Firing>): (Attempt<Event>, nat) -> bool {
    (a: Attempt<Event>, i: nat) =>
      i < |xs| && a.granted == xs[i].reserveOk
      && a.event.timestamp == xs[i].now && a.event.cpu == xs[i].cpu && a.event.period == xs[i].period
      && xs[i].pidTgid == a.event.pid * 0x1_0000_0000 + a.event.tid
      && a.event.count == FiringsIn(xs[..i + 1], a.event.pid)
  }

  /** What one firing appends. */
  function Appended(s: State, x: Firing): seq<Attempt<Event>> {
    var count := Draw(s.counts, PidOf(x.pidTgid));
    if count % SAMPLING != 0 then []
    else [Attempt(Event(x.now, PidOf(x.pidTgid), TidOf(x.pidTgid), x.cpu, x.period, count), x.reserveOk)]
  }

  /** The number a firing draws: the firings of its process if it has a slot, and 1 if not. */
  lemma {:induction false} DrawnCount(xs: seq<Firing>)
    requires xs != [] && |xs| < 0x1_0000_0000_0000_0000
    ensures var pid, draw := PidOf(xs[|xs| - 1].pidTgid), Draw(Run(xs[..|xs| - 1]).counts, PidOf(xs[|xs| - 1].pidTgid));
            if pid in Run(xs).counts then draw == FiringsIn(xs, pid) else draw == 1
  {
    var pid := PidOf(xs[|xs| - 1].pidTgid);
    SampledEvents(xs, pid);
    SampledEvents(xs[..|xs| - 1], pid);
  }

  lemma {:induction false} AttemptTells(xs: seq<Firing>, i: nat)
    requires i < |xs| < 0x1_0000_0000_0000_0000
    ensures var more := Appended(Run(xs[..i]), xs[i]);
            if Samples(xs)(i) then |more| == 1 && TellsOf(xs)(more[0], i) else more == []
  {
    var id := xs[i].pidTgid;
    assert xs[..i + 1][..i] == xs[..i];
    DrawnCount(xs[..i + 1]);
    KeyParts(id, PidOf(id), TidOf(id));
  }

  /** The attempts of every run of fewer than 2^64 firings, exactly: one for each hundredth firing of
      a process with a slot, in order, each saying what its own firing was. */
  lemma {:induction false} AttemptsTell(xs: seq<Firing>, n: nat)
    requires n <= |xs| < 0x1_0000_0000_0000_0000
    ensures Faithful(Run(xs[..n]).ring, n, Samples(xs), TellsOf(xs))
  {
    if n > 0 {
      AttemptsTell(xs, n - 1);
      assert xs[..n][..n - 1] == xs[..n - 1];
      var s, x := Run(xs[..n - 1]), xs[n - 1];
      assert Run(xs[..n]) == After(s, x);
      assert Run(xs[..n]).ring == s.ring + Appended(s, x);
      AttemptTells(xs, n - 1);
      FaithfulNext(s.ring, Appended(s, x), n - 1, Samples(xs), TellsOf(xs));
    }
  }
}
