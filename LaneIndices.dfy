/** The lane index inverter: a dict from index to lane id becomes a dict from
    lane id to index. A Python dict keeps its keys in first-insertion order,
    so it is modelled as the sequence of its items. */
module LaneIndices {
  import opened Wrappers

  /** Pairs with pairwise different keys, in insertion order. */
  predicate DistinctKeys<K(==), V(==)>(items: seq<(K, V)>)
  {
    forall i, j | 0 <= i < j < |items| :: items[i].0 != items[j].0
  }

  predicate DistinctValues<K(==), V(==)>(items: seq<(K, V)>)
  {
    forall i, j | 0 <= i < j < |items| :: items[i].1 != items[j].1
  }

  function Keys<K(==), V(==)>(items: seq<(K, V)>): set<K>
  {
    set i | 0 <= i < |items| :: items[i].0
  }

  function Values<K(==), V(==)>(items: seq<(K, V)>): set<V>
  {
    set i | 0 <= i < |items| :: items[i].1
  }

  /** `d[k] = v`: an existing key keeps its place and takes the new value; a new
      key is appended. */
  function Put<K(==), V(==)>(d: seq<(K, V)>, k: K, v: V): (r: seq<(K, V)>)
    ensures Keys(r) == Keys(d) + {k}
    ensures k in Keys(d) ==> |r| == |d|
    ensures k in Keys(d) ==> forall i | 0 <= i < |d| :: r[i].0 == d[i].0 && (d[i].0 != k ==> r[i] == d[i])
    ensures k !in Keys(d) ==> r == d + [(k, v)]
  {
    if d == [] then
      KeysCons((k, v), d);
      assert [(k, v)] + d == [(k, v)];
      [(k, v)]
    else
      assert d == [d[0]] + d[1..];
      KeysCons(d[0], d[1..]);
      if d[0].0 == k then
        KeysCons((k, v), d[1..]);
        [(k, v)] + d[1..]
      else
        var rest := Put(d[1..], k, v);
        KeysCons(d[0], rest);
        [d[0]] + rest
  }

  /** Storing under a key keeps the keys of a dict distinct. */
  lemma PutDistinctKeys<K, V>(d: seq<(K, V)>, k: K, v: V)
    requires DistinctKeys(d)
    ensures DistinctKeys(Put(d, k, v))
  {
    var r := Put(d, k, v);
    if k !in Keys(d) {
      forall i, j | 0 <= i < j < |r| ensures r[i].0 != r[j].0 {
        if j < |d| {
          assert r[i] == d[i] && r[j] == d[j];
        } else {
          assert r[i] == d[i] && r[j] == (k, v);
        }
      }
    }
  }

  lemma KeysCons<K, V>(x: (K, V), rest: seq<(K, V)>)
    ensures Keys([x] + rest) == {x.0} + Keys(rest)
  {
    var d := [x] + rest;
    assert d[0] == x;
    forall y | y in Keys(d) ensures y in {x.0} + Keys(rest) {
      var i :| 0 <= i < |d| && d[i].0 == y;
      if i > 0 { assert d[i] == rest[i - 1]; }
    }
    forall y | y in Keys(rest) ensures y in Keys(d) {
      var i :| 0 <= i < |rest| && rest[i].0 == y;
      assert d[i + 1] == rest[i];
    }
  }

  lemma ValuesSnoc<K, V>(init: seq<(K, V)>, x: (K, V))
    ensures Values(init + [x]) == Values(init) + {x.1}
  {
    var d := init + [x];
    assert d[|init|] == x;
    forall y | y in Values(d) ensures y in Values(init) + {x.1} {
      var i :| 0 <= i < |d| && d[i].1 == y;
      if i < |init| { assert d[i] == init[i]; }
    }
    forall y | y in Values(init) ensures y in Values(d) {
      var i :| 0 <= i < |init| && init[i].1 == y;
      assert d[i] == init[i];
    }
  }

  /** `d[k]`, or `None` when `k` is not a key. */
  function Lookup<K(==), V(==)>(d: seq<(K, V)>, k: K): Option<V>
  {
    if d == [] then None
    else if d[0].0 == k then Some(d[0].1)
    else Lookup(d[1..], k)
  }

  /** `{index: ix for ix, index in index_to_id.items()}` */
  function Invert<K(==), V(==)>(items: seq<(K, V)>): (inv: seq<(V, K)>)
    ensures Keys(inv) == Values(items)
  {
    if items == [] then []
    else
      var last := items[|items| - 1];
      var init := items[..|items| - 1];
      assert items == init + [last];
      ValuesSnoc(init, last);
      var inv := Put(Invert(init), last.1, last.0);
      inv
  }

  function Swap<K(==), V(==)>(items: seq<(K, V)>): (r: seq<(V, K)>)
    ensures |r| == |items|
    ensures forall i | 0 <= i < |items| :: r[i] == (items[i].1, items[i].0)
  {
    seq(|items|, i requires 0 <= i < |items| => (items[i].1, items[i].0))
  }

  lemma {:induction false} LookupPut<K, V>(d: seq<(K, V)>, k: K, v: V, x: K)
    ensures Lookup(Put(d, k, v), x) == if x == k then Some(v) else Lookup(d, x)
  {
    if d != [] && d[0].0 != k {
      LookupPut(d[1..], k, v, x);
      assert ([d[0]] + Put(d[1..], k, v))[1..] == Put(d[1..], k, v);
    } else if d != [] {
      assert ([(k, v)] + d[1..])[1..] == d[1..];
    }
  }

  /** The index stored under a lane id is the one of the last item holding
      that id: when two indices share an id, the later one wins. */
  lemma {:induction false} InvertLastWins<K, V>(items: seq<(K, V)>, i: nat)
    requires i < |items|
    requires forall j | i < j < |items| :: items[j].1 != items[i].1
    ensures Lookup(Invert(items), items[i].1) == Some(items[i].0)
  {
    var init := items[..|items| - 1];
    var last := items[|items| - 1];
    LookupPut(Invert(init), last.1, last.0, items[i].1);
    if i < |items| - 1 {
      assert init[i] == items[i];
      InvertLastWins(init, i);
    }
  }

  /** An id that is no item's value has no index. */
  lemma {:induction false} InvertMissing<K, V>(items: seq<(K, V)>, x: V)
    requires x !in Values(items)
    ensures Lookup(Invert(items), x) == None
  {
    if items != [] {
      var init := items[..|items| - 1];
      var last := items[|items| - 1];
      LookupPut(Invert(init), last.1, last.0, x);
      assert items == init + [last];
      ValuesSnoc(init, last);
      InvertMissing(init, x);
    }
  }

  /** The items before the last one keep distinct values, and none of them
      holds the last one's value. */
  lemma DistinctValuesInit<K, V>(items: seq<(K, V)>)
    requires items != [] && DistinctValues(items)
    ensures DistinctValues(items[..|items| - 1])
    ensures items[|items| - 1].1 !in Values(items[..|items| - 1])
  {
    var init := items[..|items| - 1];
    forall i, j | 0 <= i < j < |init| ensures init[i].1 != init[j].1 {
      assert init[i] == items[i] && init[j] == items[j];
    }
    forall i | 0 <= i < |init| ensures init[i].1 != items[|items| - 1].1 {
      assert init[i] == items[i];
    }
  }

  /** The inverted dict never holds a lane id twice. */
  lemma {:induction false} InvertDistinctKeys<K, V>(items: seq<(K, V)>)
    ensures DistinctKeys(Invert(items))
  {
    if items != [] {
      var init := items[..|items| - 1];
      var last := items[|items| - 1];
      InvertDistinctKeys(init);
      PutDistinctKeys(Invert(init), last.1, last.0);
    }
  }

  /** The keys of a dict, in order. */
  function KeySeq<K, V>(d: seq<(K, V)>): (ks: seq<K>)
    ensures |ks| == |d| && forall i | 0 <= i < |d| :: ks[i] == d[i].0
  {
    seq(|d|, i requires 0 <= i < |d| => d[i].0)
  }

  /** The values of a dict, in order. */
  function ValueSeq<K, V>(d: seq<(K, V)>): (vs: seq<V>)
    ensures |vs| == |d| && forall i | 0 <= i < |d| :: vs[i] == d[i].1
  {
    seq(|d|, i requires 0 <= i < |d| => d[i].1)
  }

  /** `vs` with every element after its first occurrence dropped. */
  function FirstOccurrences<V(==)>(vs: seq<V>): seq<V>
  {
    if vs == [] then []
    else
      var seen := FirstOccurrences(vs[..|vs| - 1]);
      if vs[|vs| - 1] in seen then seen else seen + [vs[|vs| - 1]]
  }

  /** The lane ids of the inverted dict come in the order of their first
      occurrence among the values: a later duplicate changes the index stored
      under an id, never its place. */
  lemma {:induction false} InvertKeyOrder<K, V>(items: seq<(K, V)>)
    ensures KeySeq(Invert(items)) == FirstOccurrences(ValueSeq(items))
  {
    if items != [] {
      var init := items[..|items| - 1];
      var last := items[|items| - 1];
      InvertKeyOrder(init);
      var before := Invert(init);
      assert ValueSeq(items)[..|items| - 1] == ValueSeq(init);
      assert last.1 in Keys(before) <==> last.1 in KeySeq(before) by {
        if last.1 in Keys(before) {
          var i :| 0 <= i < |before| && before[i].0 == last.1;
          assert KeySeq(before)[i] == last.1;
        }
      }
    }
  }

  /** When no two indices share a lane id, the inverted dict lists the
      swapped items in their original order. */
  lemma {:induction false} InvertInjective<K, V>(items: seq<(K, V)>)
    requires DistinctValues(items)
    ensures Invert(items) == Swap(items)
  {
    if items != [] {
      var init := items[..|items| - 1];
      var last := items[|items| - 1];
      DistinctValuesInit(items);
      InvertInjective(init);
      assert Swap(init) + [(last.1, last.0)] == Swap(items);
    }
  }

  /** When no two indices share a lane id, every id maps back to its index. */
  lemma InvertInjectiveLookup<K, V>(items: seq<(K, V)>)
    requires DistinctValues(items)
    ensures forall i | 0 <= i < |items| :: Lookup(Invert(items), items[i].1) == Some(items[i].0)
  {
    forall i | 0 <= i < |items| ensures Lookup(Invert(items), items[i].1) == Some(items[i].0) {
      InvertLastWins(items, i);
    }
  }

  /** Inverting a dict without shared values twice gives back the dict, items
      and order included. */
  lemma InvertTwice<K, V>(items: seq<(K, V)>)
    requires DistinctKeys(items) && DistinctValues(items)
    ensures Invert(Invert(items)) == items
  {
    InvertInjective(items);
    var swapped := Swap(items);
    assert DistinctValues(swapped) by {
      forall i, j | 0 <= i < j < |swapped| ensures swapped[i].1 != swapped[j].1 {
      }
    }
    InvertInjective(swapped);
    assert Swap(swapped) == items;
  }
}
