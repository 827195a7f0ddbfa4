/** Ticket counters: a bounded hash map of counts in which every hit draws the next number of
    its key, and one ring-buffer reservation is attempted for every hundredth number. */
module Tickets {
  import opened Words
  import opened BoundedTable

  /** `max_entries` of `sf_counts` and `perf_counts`. */
  const COUNTS_CAP: nat := 10240
  const SAMPLING := 100

  /** An attempt to reserve ring-buffer space for an event; it is submitted iff granted. */
  datatype Attempt<E> = Attempt(event: E, granted: bool)

  function One(u: ()): u64 {
    1
  }

  function PlusOne(c: u64, u: ()): u64 {
    Add64(c, 1)
  }

  /** The number a hit draws: 1 if its key is missing, else one more than the stored count. */
  function Draw<K>(counts: map<K, u64>, k: K): u64 {
    if k in counts then Add64(counts[k], 1) else 1
  }

  function Counts<K>(hits: seq<(K, ())>): map<K, u64> {
    Build(hits, COUNTS_CAP, One, PlusOne)
  }

  ghost function HitsOf<K>(hits: seq<(K, ())>, k: K): nat {
    |ValuesOf(hits, k)|
  }

  /** The numbers drawn by the hits of one key, in order. */
  ghost function TicketsOf<K>(hits: seq<(K, ())>, k: K): seq<u64> {
    if hits == [] then []
    else
      var n := |hits| - 1;
      TicketsOf(hits[..n], k) + if hits[n].0 == k then [Draw(Counts(hits[..n]), k)] else []
  }

  lemma {:induction false} HitSnoc<K>(hits: seq<(K, ())>, j: K, k: K)
    ensures Counts(hits + [(j, ())]) == Put(Counts(hits), COUNTS_CAP, j, Draw(Counts(hits), j))
    ensures TicketsOf(hits + [(j, ())], k)
         == if j == k then TicketsOf(hits, k) + [Draw(Counts(hits), k)] else TicketsOf(hits, k)
  {
    assert (hits + [(j, ())])[..|hits|] == hits;
  }

  function Range(n: nat): seq<u64>
    requires n < 0x1_0000_0000_0000_0000
  {
    if n == 0 then [] else Range(n - 1) + [n]
  }

  function Ones(n: nat): seq<u64> {
    if n == 0 then [] else Ones(n - 1) + [1]
  }

  /** In every serial run with fewer than 2^64 hits, an admitted key holds its number of hits
      and has drawn 1, 2, 3, ... without gaps; any other key is never stored and draws 1 each
      time. */
  lemma {:induction false} TicketNumbers<K>(hits: seq<(K, ())>, k: K)
    requires |hits| < 0x1_0000_0000_0000_0000
    ensures k in Counts(hits) <==> Admitted(hits, COUNTS_CAP, k)
    ensures HitsOf(hits, k) <= |hits|
    ensures k in Counts(hits) ==> Counts(hits)[k] == HitsOf(hits, k) && TicketsOf(hits, k) == Range(HitsOf(hits, k))
    ensures k !in Counts(hits) ==> TicketsOf(hits, k) == Ones(HitsOf(hits, k))
  {
    BuildAdmits(hits, COUNTS_CAP, One, PlusOne, k);
    if hits != [] {
      var n := |hits| - 1;
      TicketNumbers(hits[..n], k);
      if k in Counts(hits) && k !in Counts(hits[..n]) {
        NewlyAdmitted(hits, k);
      }
    }
  }

  lemma {:induction false} NewlyAdmitted<K>(hits: seq<(K, ())>, k: K)
    requires hits != [] && k in Counts(hits) && k !in Counts(hits[..|hits| - 1])
    ensures HitsOf(hits[..|hits| - 1], k) == 0 && HitsOf(hits, k) == 1
    ensures TicketsOf(hits[..|hits| - 1], k) == []
  {
    var n := |hits| - 1;
    BuildSize(hits[..n], COUNTS_CAP, One, PlusOne);
    SubsetOfSameSize(Counts(hits[..n]).Keys, KeysOf(hits[..n]));
    assert |Counts(hits[..n])| == |Counts(hits[..n]).Keys|;
    ValuesOfSeen(hits[..n], k);
    NoHitsNoTickets(hits[..n], k);
  }

  lemma {:induction false} NoHitsNoTickets<K>(hits: seq<(K, ())>, k: K)
    ensures |TicketsOf(hits, k)| == HitsOf(hits, k)
  {
    if hits != [] {
      NoHitsNoTickets(hits[..|hits| - 1], k);
    }
  }

  /** The numbers that pass the sampling test. */
  function Sampled(tickets: seq<u64>): seq<u64> {
    if tickets == [] then []
    else
      var last := tickets[|tickets| - 1];
      Sampled(tickets[..|tickets| - 1]) + if last % SAMPLING == 0 then [last] else []
  }

  lemma {:induction false} SampledSnoc(tickets: seq<u64>, t: u64)
    ensures Sampled(tickets + [t]) == if t % SAMPLING == 0 then Sampled(tickets) + [t] else Sampled(tickets)
  {
    assert (tickets + [t])[..|tickets|] == tickets;
  }

  /** 100, 200, ..., 100 * m. */
  function Hundreds(m: nat): seq<u64>
    requires 100 * m < 0x1_0000_0000_0000_0000
  {
    if m == 0 then [] else Hundreds(m - 1) + [100 * m]
  }

  lemma {:induction false} SampledRange(n: nat)
    requires n < 0x1_0000_0000_0000_0000
    ensures Sampled(Range(n)) == Hundreds(n / 100)
  {
    if n > 0 {
      SampledRange(n - 1);
      SampledSnoc(Range(n - 1), n);
      assert n / 100 == (n - 1) / 100 + if n % 100 == 0 then 1 else 0;
    }
  }

  lemma {:induction false} SampledOnes(n: nat)
    ensures Sampled(Ones(n)) == []
  {
    if n > 0 {
      SampledOnes(n - 1);
      SampledSnoc(Ones(n - 1), 1);
    }
  }

  /** Sampling: an admitted key with n hits is sampled at 100, 200, ..., so n / 100 times, and
      a key without a slot is never sampled. */
  lemma {:induction false} SampledTickets<K>(hits: seq<(K, ())>, k: K)
    requires |hits| < 0x1_0000_0000_0000_0000
    ensures HitsOf(hits, k) <= |hits|
    ensures Sampled(TicketsOf(hits, k)) == if Admitted(hits, COUNTS_CAP, k) then Hundreds(HitsOf(hits, k) / 100) else []
  {
    TicketNumbers(hits, k);
    if k in Counts(hits) {
      SampledRange(HitsOf(hits, k));
    } else {
      SampledOnes(HitsOf(hits, k));
    }
  }

  lemma {:induction false} HundredsLength(m: nat)
    requires 100 * m < 0x1_0000_0000_0000_0000
    ensures |Hundreds(m)| == m
  {
    if m > 0 {
      HundredsLength(m - 1);
    }
  }

  /** The counts in some of the reservation attempts, in order. */
  ghost function CountsWhere<E>(ring: seq<Attempt<E>>, chosen: E -> bool, count: E -> u64): seq<u64> {
    if ring == [] then []
    else
      var e := ring[|ring| - 1].event;
      CountsWhere(ring[..|ring| - 1], chosen, count) + if chosen(e) then [count(e)] else []
  }

  lemma {:induction false} CountsWhereSnoc<E>(ring: seq<Attempt<E>>, a: Attempt<E>, chosen: E -> bool, count: E -> u64)
    ensures CountsWhere(ring + [a], chosen, count)
         == if chosen(a.event) then CountsWhere(ring, chosen, count) + [count(a.event)]
            else CountsWhere(ring, chosen, count)
  {
    assert (ring + [a])[..|ring|] == ring;
  }

  /** What a ticket counter has stored for a key after `n` hits, and which of them it samples. */
  ghost predicate Sampling<K>(counts: map<K, u64>, sampled: seq<u64>, k: K, n: nat) {
    && n < 0x1_0000_0000_0000_0000
    && (k in counts ==> counts[k] == n)
    && sampled == (if k in counts then Hundreds(n / 100) else [])
    && |sampled| == (if k in counts then n / 100 else 0)
  }

  /** In every serial run with fewer than 2^64 hits: an admitted key holds its number of hits and
      samples 100, 200, ..., n / 100 times; a key without a slot is never sampled. */
  lemma {:induction false} HitsAreSampled<K>(hits: seq<(K, ())>, k: K)
    requires |hits| < 0x1_0000_0000_0000_0000
    ensures k in Counts(hits) <==> Admitted(hits, COUNTS_CAP, k)
    ensures Sampling(Counts(hits), Sampled(TicketsOf(hits, k)), k, HitsOf(hits, k))
  {
    TicketNumbers(hits, k);
    SampledTickets(hits, k);
    HundredsLength(HitsOf(hits, k) / 100);
  }
}
