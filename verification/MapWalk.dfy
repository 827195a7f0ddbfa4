/** `dump_map` of the S1 kretprobe reader: a walk over a hash map with `get_next_key`, starting
    from key 0 whether or not the map holds that key. */
module MapWalk {
  import opened Words

  /** A map that does not change during the walk, with the kernel's iteration order. */
  datatype HashMap = HashMap(order: seq<u32>, values: map<u32, s64>) {
    ghost predicate Valid() {
      && (forall i, j :: 0 <= i < j < |order| ==> order[i] != order[j])
      && (forall k :: k in order ==> k in values)
    }
  }

  function IndexOf(order: seq<u32>, key: u32): (i: nat)
    requires key in order
    ensures i < |order| && order[i] == key
    ensures key !in order[..i]
  {
    if order[0] == key then 0
    else
      assert key in order[1..];
      var i := 1 + IndexOf(order[1..], key);
      assert order[..i] == [order[0]] + order[1..][..i - 1];
      i
  }

  /** `bpf_map_get_next_key`: the key after `key`, the first key if `key` is not in the map, and
      ENOENT at the end. */
  function NextKey(order: seq<u32>, key: u32): Option<u32> {
    if key in order then
      if IndexOf(order, key) + 1 < |order| then Some(order[IndexOf(order, key) + 1]) else None
    else if order != [] then Some(order[0])
    else None
  }

  /** Where a walk from key 0 begins. */
  function WalkFrom(order: seq<u32>): nat {
    if 0 in order then IndexOf(order, 0) + 1 else 0
  }

  function Listing(m: HashMap, from: nat, to: nat): seq<(u32, s64)>
    requires from <= to <= |m.order| && forall k :: k in m.order ==> k in m.values
  {
    seq(to - from, i requires 0 <= i < to - from => (m.order[from + i], m.values[m.order[from + i]]))
  }

  /** The walk.  `fault`, if any, is the number of the `get_next_key` call that fails with an
      error other than ENOENT. */
  method DumpMap(m: HashMap, fault: Option<nat>) returns (printed: seq<(u32, s64)>, rc: int)
    requires m.Valid()
    ensures var from := WalkFrom(m.order);
            var all := |m.order| - from;
            && from <= |m.order|
            && (rc == 0 || rc == -1)
            && (rc == -1 <==> fault.Some? && fault.value <= all)
            && printed == Listing(m, from, from + if rc == -1 then fault.value else all)
    ensures forall i :: 0 <= i < |printed| ==>
              var (key, value) := printed[i]; key in m.values && value == m.values[key]
  {
    var key: u32 := 0;
    var calls := 0;
    var from := WalkFrom(m.order);
    printed := [];
    ghost var all := |m.order| - from;
    while true
      invariant 0 <= calls <= all
      invariant fault.Some? ==> calls <= fault.value
      invariant printed == Listing(m, from, from + calls)
      invariant from + calls == 0 ==> key == 0 && key !in m.order
      invariant from + calls > 0 ==> key == m.order[from + calls - 1]
      decreases all - calls
    {
      if fault == Some(calls) {
        return printed, -1;
      }
      NextOf(m, key, from + calls);
      var next := NextKey(m.order, key);
      if next.None? {
        return printed, 0;
      }
      printed := printed + [(next.value, m.values[next.value])];
      key := next.value;
      calls := calls + 1;
    }
  }

  /** The successor of the key before position `i` is the key at position `i`. */
  lemma {:induction false} NextOf(m: HashMap, key: u32, i: nat)
    requires m.Valid() && i <= |m.order|
    requires if i == 0 then key !in m.order else key == m.order[i - 1]
    ensures NextKey(m.order, key) == if i < |m.order| then Some(m.order[i]) else None
  {
    if i > 0 {
      var j := IndexOf(m.order, key);
      assert j == i - 1;
    }
  }

  /** The keys printed by a walk without a fault, from what `DumpMap` ensures. */
  function Walked(m: HashMap): (keys: seq<u32>)
    requires m.Valid()
    ensures |keys| == |m.order| - WalkFrom(m.order)
  {
    var printed := Listing(m, WalkFrom(m.order), |m.order|);
    seq(|printed|, i requires 0 <= i < |printed| => printed[i].0)
  }

  /** A walk without a fault prints every key exactly once iff key 0 is not in the map; if it
      is, each key up to and including key 0 is missing and each key after it is printed once. */
  lemma {:induction false} CompleteIffNoZeroKey(m: HashMap)
    requires m.Valid()
    ensures Walked(m) == m.order <==> 0 !in m.order
    ensures forall k :: k in m.order ==>
              multiset(Walked(m))[k] == if k in m.order[..WalkFrom(m.order)] then 0 else 1
    ensures 0 in m.order ==> m.order[WalkFrom(m.order) - 1] == 0
  {
    var from := WalkFrom(m.order);
    assert Walked(m) == m.order[from..];
    forall k | k in m.order
      ensures multiset(m.order[from..])[k] == if k in m.order[..from] then 0 else 1
    {
      OnceAfter(m.order, from, k);
    }
  }

  lemma {:induction false} OnceAfter(order: seq<u32>, from: nat, k: u32)
    requires k in order && from <= |order|
    requires forall i, j :: 0 <= i < j < |order| ==> order[i] != order[j]
    ensures multiset(order[from..])[k] == if k in order[..from] then 0 else 1
  {
    OnceEach(order, k);
    assert order == order[..from] + order[from..];
    assert multiset(order) == multiset(order[..from]) + multiset(order[from..]);
    if k in order[..from] {
      OnceEach(order[..from], k);
    } else {
      assert k !in multiset(order[..from]);
    }
  }

  lemma {:induction false} OnceEach(order: seq<u32>, k: u32)
    requires k in order && forall i, j :: 0 <= i < j < |order| ==> order[i] != order[j]
    ensures multiset(order)[k] == 1
  {
    var n := |order| - 1;
    assert order == order[..n] + [order[n]];
    if k == order[n] {
      assert k !in order[..n];
      assert k !in multiset(order[..n]);
    } else {
      OnceEach(order[..n], k);
    }
  }
}
