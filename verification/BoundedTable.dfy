/** Bounded hash maps.  An update of a present key always succeeds; an update of a
    new key silently fails once the map holds `cap` entries.  Tables that are only
    ever folded into and never deleted from are `Build`s of the items offered to them. */
module BoundedTable {
  import opened Words

  /** `bpf_map_update_elem(..., BPF_ANY)` on a hash map with `max_entries == cap`. */
  function Put<K, V>(m: map<K, V>, cap: nat, k: K, v: V): map<K, V> {
    if k in m || |m| < cap then m[k := v] else m
  }

  lemma {:induction false} PutKeys<K, V>(m: map<K, V>, cap: nat, k: K, v: V)
    ensures Put(m, cap, k, v).Keys == if k in m || |m| < cap then m.Keys + {k} else m.Keys
    ensures |m| <= cap ==> |Put(m, cap, k, v)| <= cap
  {
    assert m[k := v].Keys == m.Keys + {k};
  }

  /** Offer one item: fold it into the entry of its key, or start that entry if there is room. */
  function Offer<K, V, S>(m: map<K, S>, cap: nat, k: K, v: V, first: V -> S, next: (S, V) -> S): map<K, S> {
    Put(m, cap, k, if k in m then next(m[k], v) else first(v))
  }

  function Build<K, V, S>(items: seq<(K, V)>, cap: nat, first: V -> S, next: (S, V) -> S): map<K, S> {
    if items == [] then map[]
    else
      var last := items[|items| - 1];
      Offer(Build(items[..|items| - 1], cap, first, next), cap, last.0, last.1, first, next)
  }

  function KeysOf<K, V>(items: seq<(K, V)>): set<K> {
    set i | 0 <= i < |items| :: items[i].0
  }

  /** The values offered under one key, in order. */
  ghost function ValuesOf<K, V>(items: seq<(K, V)>, k: K): seq<V> {
    if items == [] then []
    else
      var last := items[|items| - 1];
      ValuesOf(items[..|items| - 1], k) + if last.0 == k then [last.1] else []
  }

  function Fold<V, S>(vs: seq<V>, first: V -> S, next: (S, V) -> S): S
    requires vs != []
  {
    if |vs| == 1 then first(vs[0])
    else next(Fold(vs[..|vs| - 1], first, next), vs[|vs| - 1])
  }

  /** A key is admitted iff fewer than `cap` other keys were seen before its first item. */
  ghost predicate Admitted<K, V>(items: seq<(K, V)>, cap: nat, k: K) {
    exists i :: 0 <= i < |items| && FirstSeenAt(items, k, i) && |KeysOf(items[..i])| < cap
  }

  ghost predicate FirstSeenAt<K, V>(items: seq<(K, V)>, k: K, i: int)
    requires 0 <= i < |items|
  {
    items[i].0 == k && k !in KeysOf(items[..i])
  }

  lemma {:induction false} KeysOfSnoc<K, V>(items: seq<(K, V)>)
    requires items != []
    ensures KeysOf(items) == KeysOf(items[..|items| - 1]) + {items[|items| - 1].0}
  {
    var n := |items| - 1;
    forall k
      ensures k in KeysOf(items) <==> k in KeysOf(items[..n]) || k == items[n].0
    {
      if k in KeysOf(items) {
        var i :| 0 <= i < |items| && items[i].0 == k;
        if i < n {
          assert items[..n][i].0 == k;
        }
      }
      if k in KeysOf(items[..n]) {
        var i :| 0 <= i < n && items[..n][i].0 == k;
        assert items[i].0 == k;
      }
    }
  }

  lemma {:induction false} AdmittedSnoc<K, V>(items: seq<(K, V)>, cap: nat, k: K)
    requires items != []
    ensures var n := |items| - 1;
            Admitted(items, cap, k) <==>
            Admitted(items[..n], cap, k) || (FirstSeenAt(items, k, n) && |KeysOf(items[..n])| < cap)
  {
    var n := |items| - 1;
    forall i | 0 <= i < n
      ensures items[..n][..i] == items[..i]
      ensures FirstSeenAt(items[..n], k, i) <==> FirstSeenAt(items, k, i)
    {
      assert items[..n][..i] == items[..i];
    }
    if Admitted(items, cap, k) {
      var i :| 0 <= i < |items| && FirstSeenAt(items, k, i) && |KeysOf(items[..i])| < cap;
      if i < n {
        assert FirstSeenAt(items[..n], k, i) && |KeysOf(items[..n][..i])| < cap;
      }
    }
    if Admitted(items[..n], cap, k) {
      var i :| 0 <= i < |items[..n]| && FirstSeenAt(items[..n], k, i) && |KeysOf(items[..n][..i])| < cap;
      assert FirstSeenAt(items, k, i) && |KeysOf(items[..i])| < cap;
    }
  }

  lemma {:induction false} ValuesOfSeen<K, V>(items: seq<(K, V)>, k: K)
    ensures k in KeysOf(items) <==> ValuesOf(items, k) != []
  {
    if items != [] {
      KeysOfSnoc(items);
      ValuesOfSeen(items[..|items| - 1], k);
    }
  }

  lemma {:induction false} AdmittedWasSeen<K, V>(items: seq<(K, V)>, cap: nat, k: K)
    ensures Admitted(items, cap, k) ==> k in KeysOf(items)
  {
  }

  /** How many keys a table holds: all that were seen, or exactly `cap` of them. */
  lemma {:induction false} BuildSize<K, V, S>(items: seq<(K, V)>, cap: nat, first: V -> S, next: (S, V) -> S)
    ensures Build(items, cap, first, next).Keys <= KeysOf(items)
    ensures |Build(items, cap, first, next)| == if |KeysOf(items)| <= cap then |KeysOf(items)| else cap
  {
    if items != [] {
      var n := |items| - 1;
      BuildSize(items[..n], cap, first, next);
      KeysOfSnoc(items);
      SizeStep(Build(items[..n], cap, first, next).Keys, KeysOf(items[..n]), cap, items[n].0);
      var m := Build(items[..n], cap, first, next);
      var m' := Build(items, cap, first, next);
      assert |m| == |m.Keys| && |m'| == |m'.Keys|;
      assert m'.Keys == Grow(m.Keys, cap, items[n].0);
    }
  }

  ghost function Grow<K>(keys: set<K>, cap: nat, k: K): set<K> {
    if k in keys || |keys| < cap then keys + {k} else keys
  }

  lemma {:induction false} SizeStep<K>(keys: set<K>, seen: set<K>, cap: nat, k: K)
    requires keys <= seen
    requires |keys| == if |seen| <= cap then |seen| else cap
    ensures Grow(keys, cap, k) <= seen + {k}
    ensures |Grow(keys, cap, k)| == if |seen + {k}| <= cap then |seen + {k}| else cap
  {
    SubsetOfSameSize(keys, seen);
    assert k in seen ==> seen + {k} == seen;
    assert k in keys ==> keys + {k} == keys;
  }

  lemma {:induction false} SubsetOfSameSize<K>(a: set<K>, b: set<K>)
    requires a <= b
    ensures |a| <= |b|
    ensures |a| == |b| ==> a == b
    decreases |b|
  {
    if x :| x in a {
      SubsetOfSameSize(a - {x}, b - {x});
      assert a == (a - {x}) + {x} && b == (b - {x}) + {x};
    }
  }

  /** The table holds exactly the admitted keys ... */
  lemma {:induction false} BuildAdmits<K, V, S>(items: seq<(K, V)>, cap: nat, first: V -> S, next: (S, V) -> S, k: K)
    ensures k in Build(items, cap, first, next) <==> Admitted(items, cap, k)
  {
    if items != [] {
      var n := |items| - 1;
      var m := Build(items[..n], cap, first, next);
      BuildAdmits(items[..n], cap, first, next, k);
      AdmittedSnoc(items, cap, k);
      BuildSize(items[..n], cap, first, next);
      SubsetOfSameSize(m.Keys, KeysOf(items[..n]));
      assert |m| == |m.Keys|;
    }
  }

  /** ... each with the fold of all the values offered under it. */
  lemma {:induction false} BuildIsFold<K, V, S>(items: seq<(K, V)>, cap: nat, first: V -> S, next: (S, V) -> S, k: K)
    requires k in Build(items, cap, first, next)
    ensures ValuesOf(items, k) != []
    ensures Build(items, cap, first, next)[k] == Fold(ValuesOf(items, k), first, next)
  {
    var n := |items| - 1;
    var m, vs := Build(items[..n], cap, first, next), ValuesOf(items[..n], k);
    if k in m {
      BuildIsFold(items[..n], cap, first, next, k);
      if items[n].0 == k {
        assert ValuesOf(items, k) == vs + [items[n].1] && (vs + [items[n].1])[..|vs|] == vs;
      } else {
        assert ValuesOf(items, k) == vs;
      }
    } else {
      assert k == items[n].0 && |m| < cap;
      BuildSize(items[..n], cap, first, next);
      SubsetOfSameSize(m.Keys, KeysOf(items[..n]));
      assert |m| == |m.Keys|;
      ValuesOfSeen(items[..n], k);
    }
  }

  // ---------------------------------------------------------------- a run of items of one key

  function Lookup<K, S>(m: map<K, S>, k: K): Option<S> {
    if k in m then Some(m[k]) else None
  }

  /** The same key offered with each of the values. */
  function Tagged<K, V>(k: K, vs: seq<V>): seq<(K, V)> {
    seq(|vs|, i requires 0 <= i < |vs| => (k, vs[i]))
  }

  /** An entry that may be missing, folded with some values. */
  function FoldFrom<V, S>(st: Option<S>, vs: seq<V>, first: V -> S, next: (S, V) -> S): Option<S> {
    if vs == [] then st
    else
      match FoldFrom(st, vs[..|vs| - 1], first, next)
      case None => Some(first(vs[|vs| - 1]))
      case Some(before) => Some(next(before, vs[|vs| - 1]))
  }

  /** Whether an item of the key would be stored. */
  predicate HasSlot<K, S>(m: map<K, S>, cap: nat, k: K) {
    k in m || |m| < cap
  }

  /** Offering values under one key, after any items: if the key has or gets a slot, they are
      folded into its entry and nothing else changes; if not, nothing changes at all. */
  lemma {:induction false} BuildExtend<K, V, S>(
    items: seq<(K, V)>, k: K, vs: seq<V>, cap: nat, first: V -> S, next: (S, V) -> S)
    ensures var m, m' := Build(items, cap, first, next), Build(items + Tagged(k, vs), cap, first, next);
            if HasSlot(m, cap, k)
            then Lookup(m', k) == FoldFrom(Lookup(m, k), vs, first, next) && m' - {k} == m - {k}
            else m' == m
  {
    if vs == [] {
      assert items + Tagged(k, vs) == items;
    } else {
      var n := |vs| - 1;
      BuildExtend(items, k, vs[..n], cap, first, next);
      ExtendHasSlot(items, k, vs[..n], cap, first, next);
      assert (items + Tagged(k, vs))[..|items| + n] == items + Tagged(k, vs[..n]);
      ExtendStep(Build(items, cap, first, next), Build(items + Tagged(k, vs[..n]), cap, first, next),
                 k, vs, cap, first, next);
    }
  }

  lemma {:induction false} ExtendStep<K, V, S>(
    m: map<K, S>, m': map<K, S>, k: K, vs: seq<V>, cap: nat, first: V -> S, next: (S, V) -> S)
    requires vs != [] && (HasSlot(m', cap, k) <==> HasSlot(m, cap, k))
    requires if HasSlot(m, cap, k)
             then Lookup(m', k) == FoldFrom(Lookup(m, k), vs[..|vs| - 1], first, next) && m' - {k} == m - {k}
             else m' == m
    ensures var m'' := Offer(m', cap, k, vs[|vs| - 1], first, next);
            if HasSlot(m, cap, k)
            then Lookup(m'', k) == FoldFrom(Lookup(m, k), vs, first, next) && m'' - {k} == m - {k}
            else m'' == m
  {
    OfferEffect(m', cap, k, vs[|vs| - 1], first, next);
  }

  lemma {:induction false} OfferEffect<K, V, S>(m: map<K, S>, cap: nat, k: K, v: V, first: V -> S, next: (S, V) -> S)
    ensures Offer(m, cap, k, v, first, next) - {k} == m - {k}
    ensures Lookup(Offer(m, cap, k, v, first, next), k)
         == if !HasSlot(m, cap, k) then None else if k in m then Some(next(m[k], v)) else Some(first(v))
  {
  }

  lemma {:induction false} ExtendHasSlot<K, V, S>(
    items: seq<(K, V)>, k: K, vs: seq<V>, cap: nat, first: V -> S, next: (S, V) -> S)
    ensures HasSlot(Build(items + Tagged(k, vs), cap, first, next), cap, k)
       <==> HasSlot(Build(items, cap, first, next), cap, k)
  {
    if vs == [] {
      assert items + Tagged(k, vs) == items;
    } else {
      var n := |vs| - 1;
      ExtendHasSlot(items, k, vs[..n], cap, first, next);
      assert (items + Tagged(k, vs))[..|items| + n] == items + Tagged(k, vs[..n]);
    }
  }
}
