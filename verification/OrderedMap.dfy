/**
 * The runtime's Map: keys remembered in the order of their first insertion.  Overwriting a key
 * keeps its place; deleting it forgets the place.
 */
module OrderedMaps {
  datatype OrderedMap<K(==, !new), V> = OrderedMap(keys: seq<K>, values: map<K, V>) {
    ghost predicate Valid() {
      && Distinct(keys)
      && (forall k :: k in keys <==> k in values)
    }

    function Size(): nat { |keys| }

    function Set(k: K, v: V): (m: OrderedMap<K, V>)
      ensures Valid() ==> m.Valid()
    {
      OrderedMap(if k in values then keys else keys + [k], values[k := v])
    }

    /** Drops every key outside `live`. */
    function Keep(live: set<K>): OrderedMap<K, V> {
      OrderedMap(Filter(keys, live), map k | k in values && k in live :: values[k])
    }

    function Delete(k: K): OrderedMap<K, V> { Keep(values.Keys - {k}) }

    /** Drops the `n` oldest keys. */
    function DropOldest(n: nat): OrderedMap<K, V>
      requires n <= Size()
    {
      OrderedMap(keys[n..], map k | k in values && k !in keys[..n] :: values[k])
    }

    lemma DropOldestValid(n: nat)
      requires Valid() && n <= Size()
      ensures DropOldest(n).Valid() && DropOldest(n).SubmapOf(this)
    {
      assert keys == keys[..n] + keys[n..];
    }

    lemma DropNextValues(n: nat)
      requires n < Size()
      ensures DropOldest(n + 1).values == map k | k in DropOldest(n).values && k != keys[n] :: DropOldest(n).values[k]
    {
      assert keys[..n + 1] == keys[..n] + [keys[n]];
    }

    /** Deleting the first remaining key drops one more. */
    lemma DropNext(n: nat)
      requires Valid() && n < Size()
      ensures DropOldest(n).Delete(keys[n]) == DropOldest(n + 1)
    {
      DropOldestValid(n);
      DropNextValues(n);
      DropOldest(n).DeleteFirst();
    }

    lemma DeleteFirst()
      requires Valid() && Size() > 0
      ensures Delete(keys[0]) == OrderedMap(keys[1..], map k | k in values && k != keys[0] :: values[k])
    {
      FilterTail(keys, values.Keys - {keys[0]});
    }

    /** Every entry also sits in `other`, unchanged. */
    ghost predicate SubmapOf(other: OrderedMap<K, V>) {
      forall k :: k in values ==> k in other.values && values[k] == other.values[k]
    }

    lemma KeepValid(live: set<K>)
      requires Valid()
      ensures Keep(live).Valid() && Keep(live).SubmapOf(this)
    {
      FilterDistinct(keys, live);
      FilterMembers(keys, live);
    }

    lemma KeepTwice(a: set<K>, b: set<K>)
      ensures Keep(a).Keep(b) == Keep(a * b)
    {
      FilterTwice(keys, a, b);
    }

    lemma DeleteKept(live: set<K>, k: K)
      requires Valid()
      ensures Keep(live).Delete(k) == Keep(live - {k})
    {
      KeepTwice(live, Keep(live).values.Keys - {k});
      assert Keep(live).values.Keys == values.Keys * live;
      SameFilter(keys, live * (values.Keys * live - {k}), live - {k});
    }

    lemma KeepAll()
      requires Valid()
      ensures Keep(values.Keys) == this
    {
      FilterAll(keys, values.Keys);
    }
  }

  function Empty<K(==, !new), V>(): (m: OrderedMap<K, V>)
    ensures m.Valid()
  {
    OrderedMap([], map[])
  }

  ghost predicate Distinct<K>(keys: seq<K>) {
    forall i, j :: 0 <= i < j < |keys| ==> keys[i] != keys[j]
  }

  function Filter<K(==)>(keys: seq<K>, live: set<K>): seq<K> {
    if keys == [] then []
    else
      var n := |keys| - 1;
      Filter(keys[..n], live) + if keys[n] in live then [keys[n]] else []
  }

  lemma {:induction false} FilterIn<K>(keys: seq<K>, live: set<K>, k: K)
    ensures k in Filter(keys, live) <==> k in keys && k in live
  {
    if keys != [] {
      var n := |keys| - 1;
      FilterIn(keys[..n], live, k);
      assert keys == keys[..n] + [keys[n]];
    }
  }

  lemma FilterMembers<K(!new)>(keys: seq<K>, live: set<K>)
    ensures forall k :: k in Filter(keys, live) <==> k in keys && k in live
  {
    forall k {
      FilterIn(keys, live, k);
    }
  }

  lemma {:induction false} FilterDistinct<K>(keys: seq<K>, live: set<K>)
    requires Distinct(keys)
    ensures Distinct(Filter(keys, live))
  {
    if keys != [] {
      var n := |keys| - 1;
      FilterDistinct(keys[..n], live);
      var f := Filter(keys[..n], live);
      forall i | 0 <= i < |f|
        ensures f[i] != keys[n]
      {
        FilterIn(keys[..n], live, f[i]);
      }
    }
  }

  lemma {:induction false} FilterAll<K>(keys: seq<K>, live: set<K>)
    requires forall i :: 0 <= i < |keys| ==> keys[i] in live
    ensures Filter(keys, live) == keys
  {
    if keys != [] {
      FilterAll(keys[..|keys| - 1], live);
    }
  }

  lemma {:induction false} FilterTail<K>(keys: seq<K>, live: set<K>)
    requires keys != [] && keys[0] !in live
    requires forall i :: 1 <= i < |keys| ==> keys[i] in live
    ensures Filter(keys, live) == keys[1..]
  {
    if |keys| > 1 {
      FilterTail(keys[..|keys| - 1], live);
    }
  }

  lemma {:induction false} FilterTwice<K>(keys: seq<K>, a: set<K>, b: set<K>)
    ensures Filter(Filter(keys, a), b) == Filter(keys, a * b)
  {
    if keys != [] {
      var n := |keys| - 1;
      FilterTwice(keys[..n], a, b);
      if keys[n] in a {
        var f := Filter(keys, a);
        assert f[..|f| - 1] == Filter(keys[..n], a);
      } else {
        assert Filter(keys, a) == Filter(keys[..n], a);
      }
    }
  }

  lemma {:induction false} SameFilter<K>(keys: seq<K>, a: set<K>, b: set<K>)
    requires forall k :: k in keys ==> (k in a <==> k in b)
    ensures Filter(keys, a) == Filter(keys, b)
  {
    if keys != [] {
      SameFilter(keys[..|keys| - 1], a, b);
    }
  }
}
