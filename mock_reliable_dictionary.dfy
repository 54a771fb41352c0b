/** MockReliableDictionary (CareOtter.ServiceFabricUtilities.Mocks/StateManager/MockReliableDictionary.cs):
    a reliable dictionary double backed by a plain concurrent dictionary. The
    transaction argument of every operation is ignored, so it is not a
    parameter here; the timeout and cancellation overloads only forward. */
module MockReliableDictionaries {
  import opened Wrappers
  import opened MockAsyncEnumerables

  datatype KeyValuePair<K, V> = KeyValuePair(Key: K, Value: V)

  class MockReliableDictionary<K(==), V(==)> {
    var items: map<K, V>

    constructor ()
      ensures items == map[]
    {
      items := map[];
    }

    method GetCountAsync() returns (n: int)
      ensures n == |items.Keys|
    {
      n := |items.Keys|;
    }

    method ClearAsync()
      modifies this
      ensures items == map[]
    {
      items := map[];
    }

    /** TryAdd underneath: a key already present keeps its value and the call
        does not fail. */
    method AddAsync(key: K, value: V)
      modifies this
      ensures items == if key in old(items) then old(items) else old(items)[key := value]
    {
      if key !in items {
        items := items[key := value];
      }
    }

    /** Stores update(key, current) when the key is present, add(key) when not,
        and returns what it stored. */
    method AddOrUpdateAsync(key: K, addValueFactory: K -> V, updateValueFactory: (K, V) -> V) returns (stored: V)
      modifies this
      ensures stored == if key in old(items) then updateValueFactory(key, old(items)[key]) else addValueFactory(key)
      ensures items == old(items)[key := stored]
    {
      if key in items {
        items := items[key := updateValueFactory(key, items[key])];
        return items[key];
      }
      items := items[key := addValueFactory(key)];
      return items[key];
    }

    /** The overload with a value to add: the factory `k => addValue`. */
    method AddOrUpdateValueAsync(key: K, addValue: V, updateValueFactory: (K, V) -> V) returns (stored: V)
      modifies this
      ensures stored == if key in old(items) then updateValueFactory(key, old(items)[key]) else addValue
      ensures items == old(items)[key := stored]
    {
      stored := AddOrUpdateAsync(key, k => addValue, updateValueFactory);
    }

    method ContainsKeyAsync(key: K) returns (present: bool)
      ensures present <==> key in items
    {
      present := key in items;
    }

    /** The stored value when the key is present (nothing changes), else the
        factory's value, which is added. */
    method GetOrAddAsync(key: K, valueFactory: K -> V) returns (v: V)
      modifies this
      ensures key in old(items) ==> v == old(items)[key] && items == old(items)
      ensures key !in old(items) ==> v == valueFactory(key) && items == old(items)[key := v]
    {
      var present := ContainsKeyAsync(key);
      if !present {
        items := items[key := valueFactory(key)];
      }
      return items[key];
    }

    method GetOrAddValueAsync(key: K, value: V) returns (v: V)
      modifies this
      ensures key in old(items) ==> v == old(items)[key] && items == old(items)
      ensures key !in old(items) ==> v == value && items == old(items)[key := value]
    {
      v := GetOrAddAsync(key, k => value);
    }

    /** False, changing nothing, when the key is present; otherwise adds. */
    method TryAddAsync(key: K, value: V) returns (added: bool)
      modifies this
      ensures added <==> key !in old(items)
      ensures items == if added then old(items)[key := value] else old(items)
    {
      var present := ContainsKeyAsync(key);
      if present {
        return false;
      }
      items := items[key := value];
      return true;
    }

    method TryGetValueAsync(key: K) returns (r: Option<V>)
      ensures r.Some? <==> key in items
      ensures r.Some? ==> r.value == items[key]
    {
      var present := ContainsKeyAsync(key);
      if !present {
        return None;
      }
      return Some(items[key]);
    }

    /** Removes the key and hands back its value; an absent key gives nothing
        and changes nothing. */
    method TryRemoveAsync(key: K) returns (r: Option<V>)
      modifies this
      ensures r.Some? <==> key in old(items)
      ensures r.Some? ==> r.value == old(items)[key]
      ensures items == old(items) - {key}
    {
      var present := ContainsKeyAsync(key);
      if !present {
        return None;
      }
      r := Some(items[key]);
      items := items - {key};
    }

    /** Compare-and-set: writes `newValue` only when the key holds
        `comparisonValue`. */
    method TryUpdateAsync(key: K, newValue: V, comparisonValue: V) returns (updated: bool)
      modifies this
      ensures updated <==> key in old(items) && old(items)[key] == comparisonValue
      ensures items == if updated then old(items)[key := newValue] else old(items)
    {
      var present := ContainsKeyAsync(key);
      if !present {
        return false;
      }
      if items[key] == comparisonValue {
        items := items[key := newValue];
        return true;
      }
      return false;
    }

    /** Unconditional overwrite. */
    method SetAsync(key: K, value: V)
      modifies this
      ensures items == old(items)[key := value]
    {
      items := items[key := value];
    }

    /** A snapshot of the entries as a list, one pair per key, in an order the
        dictionary does not specify. */
    method CreateEnumerableAsync() returns (e: MockAsyncEnumerable<KeyValuePair<K, V>>)
      ensures !e.hasMoveNextAction && |e.sourceList| == |items.Keys|
      ensures forall i :: 0 <= i < |e.sourceList| ==>
        e.sourceList[i].Key in items && items[e.sourceList[i].Key] == e.sourceList[i].Value
      ensures forall i, j :: 0 <= i < j < |e.sourceList| ==> e.sourceList[i].Key != e.sourceList[j].Key
      ensures forall k :: k in items ==> exists i :: 0 <= i < |e.sourceList| && e.sourceList[i].Key == k
    {
      var rest := items;
      var list: seq<KeyValuePair<K, V>> := [];
      while rest != map[]
        invariant rest.Keys <= items.Keys && forall k :: k in rest ==> rest[k] == items[k]
        invariant |list| + |rest.Keys| == |items.Keys|
        invariant forall i :: 0 <= i < |list| ==>
          list[i].Key in items && list[i].Key !in rest && items[list[i].Key] == list[i].Value
        invariant forall i, j :: 0 <= i < j < |list| ==> list[i].Key != list[j].Key
        invariant forall k :: k in items ==> k in rest || exists i :: 0 <= i < |list| && list[i].Key == k
        decreases |rest.Keys|
      {
        var k :| k in rest;
        ghost var before := list;
        list := list + [KeyValuePair(k, rest[k])];
        assert list[|before|].Key == k;
        forall k' | k' in items && k' !in rest
          ensures exists i :: 0 <= i < |list| && list[i].Key == k'
        {
          var i :| 0 <= i < |before| && before[i].Key == k';
          assert list[i] == before[i];
        }
        rest := rest - {k};
      }
      e := MockAsyncEnumerable(list, false);
    }
  }
}
