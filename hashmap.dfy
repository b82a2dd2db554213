// The string-keyed map of src/features/hashmap.h. The unordered_map's
// iteration order is unspecified but fixed while the map is unchanged, so
// it is kept as part of the state: getKeys and getValues walk the same
// order and their positions correspond.
module HashMaps {
  import opened Values

  /** No key occurs twice. */
  predicate Distinct(keys: seq<string>)
  {
    forall i, j :: 0 <= i < j < |keys| ==> keys[i] != keys[j]
  }

  /** The sequence with the element at position `i` left out. */
  function Without(keys: seq<string>, i: nat): seq<string>
    requires i < |keys|
  {
    keys[..i] + keys[i + 1..]
  }

  lemma WithoutDistinct(keys: seq<string>, i: nat)
    requires i < |keys| && Distinct(keys)
    ensures Distinct(Without(keys, i))
    ensures forall k :: k in Without(keys, i) <==> k in keys && k != keys[i]
  {
    var w := Without(keys, i);
    forall a, b | 0 <= a < b < |w|
      ensures w[a] != w[b]
    {
      var a' := if a < i then a else a + 1;
      var b' := if b < i then b else b + 1;
      assert w[a] == keys[a'] && w[b] == keys[b'];
    }
    forall k
      ensures k in w <==> k in keys && k != keys[i]
    {
      if k in w {
        var a :| 0 <= a < |w| && w[a] == k;
        var a' := if a < i then a else a + 1;
        assert keys[a'] == k && a' != i;
      }
      if k in keys && k != keys[i] {
        var a :| 0 <= a < |keys| && keys[a] == k;
        assert a != i;
        if a < i { assert w[a] == k; } else { assert w[a - 1] == k; }
      }
    }
  }

  /** A distinct list of keys has exactly as many entries as the set of its keys. */
  lemma {:induction false} DistinctCardinality(keys: seq<string>)
    requires Distinct(keys)
    ensures |set k | k in keys| == |keys|
    decreases |keys|
  {
    if keys != [] {
      var last := keys[|keys| - 1];
      var init := keys[..|keys| - 1];
      assert Distinct(init);
      DistinctCardinality(init);
      assert (set k | k in keys) == (set k | k in init) + {last};
      assert last !in init;
    }
  }

  class VoltHashMap {
    var data: map<string, Value>
    /** The order in which iteration visits the keys. */
    var order: seq<string>

    ghost predicate Valid()
      reads this
    {
      Distinct(order) && forall k :: k in data <==> k in order
    }

    constructor()
      ensures Valid() && data == map[] && order == []
    {
      data := map[];
      order := [];
    }

    /** size(): the number of distinct keys, which is also the length of the iteration. */
    function Size(): (n: nat)
      requires Valid()
      reads this
      ensures n == |data| == |order|
    {
      assert data.Keys == set k | k in order;
      DistinctCardinality(order);
      |data|
    }

    /** empty(): no entry at all. */
    function Empty(): (b: bool)
      requires Valid()
      reads this
      ensures b <==> Size() == 0
      ensures b <==> order == []
    {
      data == map[]
    }

    predicate Contains(key: string)
      reads this
    {
      key in data
    }

    /** get(key): the stored value, or nil when the key is absent. */
    function Get(key: string): (v: Value)
      reads this
      ensures !Contains(key) ==> v == Nil
      ensures Contains(key) ==> v == data[key]
    {
      if key in data then data[key] else Nil
    }

    /**
     * set(key, v): after it get(key) is v; other keys keep their values,
     * and the size grows by one exactly when the key was new. A new key
     * takes some place in the iteration order; the others keep theirs.
     */
    method Set(key: string, v: Value)
      requires Valid()
      modifies this
      ensures Valid()
      ensures data == old(data)[key := v]
      ensures old(Contains(key)) ==> order == old(order)
      ensures !old(Contains(key)) ==> exists p :: 0 <= p < |order| && order[p] == key && Without(order, p) == old(order)
    {
      if key !in data {
        var p :| 0 <= p <= |order|;
        var next := order[..p] + [key] + order[p..];
        assert next[p] == key;
        assert Without(next, p) == order;
        forall a, b | 0 <= a < b < |next|
          ensures next[a] != next[b]
        {
          if a != p && b != p {
            var a' := if a < p then a else a - 1;
            var b' := if b < p then b else b - 1;
            assert next[a] == order[a'] && next[b] == order[b'];
          } else if a == p {
            assert next[b] == order[b - 1];
          } else {
            assert next[a] == order[a];
          }
        }
        forall k
          ensures k in next <==> k in order || k == key
        {
          if k in order {
            var a :| 0 <= a < |order| && order[a] == k;
            if a < p { assert next[a] == k; } else { assert next[a + 1] == k; }
          }
        }
        order := next;
      }
      data := data[key := v];
    }

    /**
     * remove(key): true exactly when the key was present; afterwards it is
     * absent, and the other keys keep their relative iteration order.
     */
    method Remove(key: string) returns (removed: bool)
      requires Valid()
      modifies this
      ensures Valid()
      ensures removed <==> old(Contains(key))
      ensures data == old(data) - {key} && !Contains(key)
      ensures old(Contains(key)) ==>
        exists p :: 0 <= p < |old(order)| && old(order)[p] == key && order == Without(old(order), p)
      ensures !old(Contains(key)) ==> order == old(order)
    {
      removed := key in data;
      if removed {
        var p :| 0 <= p < |order| && order[p] == key;
        WithoutDistinct(order, p);
        order := Without(order, p);
        data := data - {key};
      }
    }

    /** getKeys(): every key once, in iteration order. */
    method GetKeys() returns (keys: seq<string>)
      requires Valid()
      ensures keys == order
      ensures |keys| == Size() && Distinct(keys)
      ensures forall k :: k in keys <==> Contains(k)
    {
      keys := [];
      var i := 0;
      while i < |order|
        invariant 0 <= i <= |order| && keys == order[..i]
      {
        keys := keys + [order[i]];
        i := i + 1;
      }
    }

    /** getValues(): the value of every entry, in the same iteration order as getKeys(). */
    method GetValues() returns (values: seq<Value>)
      requires Valid()
      ensures |values| == Size()
      ensures forall i :: 0 <= i < |values| ==> values[i] == data[order[i]]
    {
      values := [];
      var i := 0;
      while i < |order|
        invariant 0 <= i <= |order| && |values| == i
        invariant forall j :: 0 <= j < i ==> values[j] == data[order[j]]
      {
        values := values + [data[order[i]]];
        i := i + 1;
      }
    }

    /** clear(): no entries remain. */
    method Clear()
      modifies this
      ensures Valid() && data == map[] && Size() == 0
    {
      data := map[];
      order := [];
    }

    /** operator==: the same keys with the same values; iteration order plays no part. */
    predicate Equals(other: VoltHashMap)
      reads this, other
    {
      data == other.data
    }
  }

  /**
   * Two maps given the same entries in different orders are equal, and a
   * key's value is found whatever the order.
   */
  lemma EqualityIgnoresOrder(m: VoltHashMap, n: VoltHashMap, key: string)
    requires m.data == n.data && m.order != n.order
    ensures m.Equals(n) && n.Equals(m)
    ensures m.Get(key) == n.Get(key)
  {
  }

  /** Maps that differ in one key's value are unequal. */
  lemma EqualityNeedsSameValues(m: VoltHashMap, n: VoltHashMap, key: string)
    requires key in m.data && key in n.data && m.data[key] != n.data[key]
    ensures !m.Equals(n)
  {
  }
}
