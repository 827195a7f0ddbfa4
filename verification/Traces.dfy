/** What a program reports of its inputs: which of them lead to a record, in order, and what each
    record says about its own input. */
module Traces {

  /** The positions below `n` that lead to a record, in order. */
  ghost function Positions(n: nat, emits: nat -> bool): seq<nat> {
    if n == 0 then [] else Positions(n - 1, emits) + if emits(n - 1) then [n - 1] else []
  }

  /** One record for each position that leads to one, in order and without others, and each of
      them as its position demands. */
  ghost predicate Faithful<E>(records: seq<E>, n: nat, emits: nat -> bool, tells: (E, nat) -> bool) {
    && |records| == |Positions(n, emits)|
    && forall k :: 0 <= k < |records| ==> tells(records[k], Positions(n, emits)[k])
  }

  /** A position with its record, or a silent one, at the end of a faithful list. */
  lemma {:induction false} FaithfulNext<E>(
    records: seq<E>, more: seq<E>, n: nat, emits: nat -> bool, tells: (E, nat) -> bool)
    requires Faithful(records, n, emits, tells)
    requires if emits(n) then |more| == 1 && tells(more[0], n) else more == []
    ensures Faithful(records + more, n + 1, emits, tells)
  {
  }

  ghost predicate Increasing(ps: seq<nat>) {
    forall j, k :: 0 <= j < k < |ps| ==> ps[j] < ps[k]
  }

  /** The positions are those that lead to a record, in increasing order. */
  lemma {:induction false} PositionsAre(n: nat, emits: nat -> bool)
    ensures forall i: nat :: i in Positions(n, emits) <==> i < n && emits(i)
    ensures Increasing(Positions(n, emits))
  {
    if n > 0 {
      var before := Positions(n - 1, emits);
      PositionsAre(n - 1, emits);
      forall j | 0 <= j < |before|
        ensures before[j] < n - 1
      {
        assert before[j] in before;
      }
    }
  }
}
