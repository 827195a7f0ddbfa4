/** Entry and return probes, fired one after another, and the well-bracketed runs of nested
    calls they come from.  Shared by the three S2 latency trackers. */
module Probes {
  import opened Words
  import opened BoundedTable
  import opened CallMatching

  /** One firing of a probe, with the clock and the ring buffer's answer as inputs. */
  datatype Probe =
    | Entry(pidTgid: u64, now: u64)
    | Return(pidTgid: u64, now: u64, retval: s64, reserveOk: bool)

  /** The map accesses of a probe. */
  function StepsOfProbe(p: Probe): seq<Step> {
    match p
    case Entry(id, now) => [Enter(id, now)]
    case Return(id, now, retval, ok) => [Look(id, now, retval, ok), Drop(id)]
  }

  function AllSteps(probes: seq<Probe>): seq<Step> {
    if probes == [] then []
    else AllSteps(probes[..|probes| - 1]) + StepsOfProbe(probes[|probes| - 1])
  }

  lemma {:induction false} StepsOfReturn(m: Matcher, id: u64, now: u64, retval: s64, ok: bool)
    ensures Match(m, [Look(id, now, retval, ok), Drop(id)])
         == Matcher(m.times - {id}, m.log + [Exit(id, now, Find(m.times, id), retval, ok)])
  {
    var look, drop := Look(id, now, retval, ok), Drop(id);
    assert [look, drop] == [] + [look] + [drop];
    MatchSnoc(m, [] + [look], drop);
    MatchSnoc(m, [], look);
  }

  /** The probes of a forest of calls of one thread. */
  function ProbesOf(id: u64, c: Calls): seq<Probe> {
    match c
    case NoCalls => []
    case Call(entry, inner, exit, retval, ok, rest) =>
      [Entry(id, entry)] + ProbesOf(id, inner) + [Return(id, exit, retval, ok)] + ProbesOf(id, rest)
  }

  lemma {:induction false} AllStepsConcat(a: seq<Probe>, b: seq<Probe>)
    ensures AllSteps(a + b) == AllSteps(a) + AllSteps(b)
  {
    if b == [] {
      assert a + b == a;
    } else {
      var b', x := b[..|b| - 1], b[|b| - 1];
      calc {
        AllSteps(a + b);
        { assert (a + b)[..|a + b| - 1] == a + b'; }
        AllSteps(a + b') + StepsOfProbe(x);
        { AllStepsConcat(a, b'); }
        AllSteps(a) + AllSteps(b') + StepsOfProbe(x);
        AllSteps(a) + AllSteps(b);
      }
    }
  }

  lemma {:induction false} AllStepsOne(p: Probe)
    ensures AllSteps([p]) == StepsOfProbe(p)
  {
    assert [p][..0] == [];
  }

  lemma {:induction false} ProbesAreSteps(id: u64, c: Calls)
    ensures AllSteps(ProbesOf(id, c)) == StepsOf(id, c)
  {
    if c.Call? {
      var a, x := [Entry(id, c.entry)], [Return(id, c.exit, c.retval, c.reserveOk)];
      ProbesAreSteps(id, c.inner);
      ProbesAreSteps(id, c.rest);
      AllStepsConcat(a, ProbesOf(id, c.inner));
      AllStepsConcat(a + ProbesOf(id, c.inner), x);
      AllStepsConcat(a + ProbesOf(id, c.inner) + x, ProbesOf(id, c.rest));
      AllStepsOne(a[0]);
      AllStepsOne(x[0]);
    }
  }

  lemma {:induction false} FullOfOthers(times: map<u64, u64>, id: u64)
    requires |times| <= START_CAP <= |times - {id}|
    ensures id !in times && |times| == START_CAP
  {
    assert (times - {id}).Keys == times.Keys - {id};
    assert |(times - {id}).Keys| == |times - {id}| && |times.Keys| == |times|;
    SubsetOfSameSize(times.Keys - {id}, times.Keys);
  }

  /** Number of calls, number of leaf calls, and the sum of the leaf durations of a forest. */
  function CallCount(c: Calls): nat {
    if c.NoCalls? then 0 else CallCount(c.inner) + 1 + CallCount(c.rest)
  }

  function LeafCount(c: Calls): nat {
    if c.NoCalls? then 0
    else (if c.inner.NoCalls? then 1 else LeafCount(c.inner)) + LeafCount(c.rest)
  }

  function LeafTime(c: Calls): int {
    if c.NoCalls? then 0
    else (if c.inner.NoCalls? then Sub64(c.exit, c.entry) else LeafTime(c.inner)) + LeafTime(c.rest)
  }

  /** The same for the leaf calls whose reservation was granted. */
  function GrantedLeaves(c: Calls): nat {
    if c.NoCalls? then 0
    else (if c.inner.Call? then GrantedLeaves(c.inner) else if c.reserveOk then 1 else 0) + GrantedLeaves(c.rest)
  }

  function GrantedTime(c: Calls): int {
    if c.NoCalls? then 0
    else
      (if c.inner.Call? then GrantedTime(c.inner) else if c.reserveOk then Sub64(c.exit, c.entry) else 0)
      + GrantedTime(c.rest)
  }

  /** No call is nested inside another one. */
  predicate Flat(c: Calls) {
    c.Call? ==> c.inner.NoCalls? && Flat(c.rest)
  }

  predicate AllReserved(c: Calls) {
    c.Call? ==> c.reserveOk && AllReserved(c.inner) && AllReserved(c.rest)
  }

  /** Every call is a granted leaf iff no call is nested and no reservation refused. */
  lemma {:induction false} GrantedIffFlat(c: Calls)
    ensures GrantedLeaves(c) <= LeafCount(c) <= CallCount(c)
    ensures GrantedLeaves(c) == CallCount(c) <==> Flat(c) && AllReserved(c)
  {
    if c.Call? {
      GrantedIffFlat(c.inner);
      GrantedIffFlat(c.rest);
    }
  }
}
