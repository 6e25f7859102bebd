/** A map together with a queue of its keys, oldest first: the bookkeeping behind the capture list and the highlight cache. */
module KeyedQueue {
  import opened Wrappers

  datatype Item<K, V> = Item(key: K, value: V)

  predicate Absent<K(==), V>(items: seq<Item<K, V>>, key: K) {
    forall k | 0 <= k < |items| :: items[k].key != key
  }

  function Lookup<K(==), V>(items: seq<Item<K, V>>, key: K): Option<V> {
    if items == [] then None else if items[0].key == key then Some(items[0].value) else Lookup(items[1..], key)
  }

  /** The map and the queue list exactly these items, oldest first, each key once. */
  predicate Holds<K(==), V(==)>(entries: map<K, V>, order: seq<K>, items: seq<Item<K, V>>)
    decreases |items|
  {
    if items == [] then entries == map[] && order == []
    else
      && order != [] && order[0] == items[0].key
      && order[0] in entries && entries[order[0]] == items[0].value
      && Holds(entries - {order[0]}, order[1..], items[1..])
  }

  lemma {:induction false} HoldsCount<K, V>(entries: map<K, V>, order: seq<K>, items: seq<Item<K, V>>)
    requires Holds(entries, order, items)
    ensures |entries| == |order| == |items|
    decreases |items|
  {
    if items != [] {
      var rest := entries - {order[0]};
      HoldsCount(rest, order[1..], items[1..]);
      assert rest.Keys == entries.Keys - {order[0]};
    }
  }

  lemma {:induction false} HoldsMore<K, V>(entries: map<K, V>, order: seq<K>, items: seq<Item<K, V>>, item: Item<K, V>)
    requires Holds(entries, order, items) && Absent(items, item.key)
    ensures Holds(entries[item.key := item.value], order + [item.key], items + [item])
    decreases |items|
  {
    if items == [] {
      assert entries[item.key := item.value] - {item.key} == map[];
      assert (order + [item.key])[1..] == [] && (items + [item])[1..] == [];
    } else {
      HoldsMore(entries - {order[0]}, order[1..], items[1..], item);
      assert (entries - {order[0]})[item.key := item.value] == entries[item.key := item.value] - {order[0]};
      assert (order + [item.key])[1..] == order[1..] + [item.key] && (items + [item])[1..] == items[1..] + [item];
    }
  }

  lemma {:induction false} HoldsFound<K, V>(entries: map<K, V>, order: seq<K>, items: seq<Item<K, V>>, key: K)
    requires Holds(entries, order, items)
    ensures Lookup(items, key) == if key in entries then Some(entries[key]) else None
    decreases |items|
  {
    if items != [] {
      HoldsFound(entries - {order[0]}, order[1..], items[1..], key);
    }
  }

  /* ---- Taking a key out ---- */

  function Without<K(==), V>(items: seq<Item<K, V>>, key: K): (rest: seq<Item<K, V>>)
    ensures Absent(rest, key)
  {
    if items == [] then [] else if items[0].key == key then
        Without(items[1..], key) else [items[0]] + Without(items[1..], key)
  }

  /** `retain` of every key but one. */
  function Retain<K(==)>(order: seq<K>, key: K): seq<K> {
    if order == [] then [] else if order[0] == key then Retain(order[1..], key) else [order[0]] + Retain(order[1..], key)
  }

  lemma {:induction false} HoldsWithout<K, V>(entries: map<K, V>, order: seq<K>, items: seq<Item<K, V>>, key: K)
    requires Holds(entries, order, items)
    ensures Holds(entries - {key}, Retain(order, key), Without(items, key))
    decreases |items|
  {
    if items != [] {
      var first := order[0];
      HoldsWithout(entries - {first}, order[1..], items[1..], key);
      if first == key {
        assert entries - {first} - {key} == entries - {key};
      } else {
        assert entries - {first} - {key} == entries - {key} - {first};
        assert ([first] + Retain(order[1..], key))[1..] == Retain(order[1..], key);
        assert ([items[0]] + Without(items[1..], key))[1..] == Without(items[1..], key);
      }
    } else {
      assert entries - {key} == map[];
    }
  }

  lemma {:induction false} WithoutFound<K, V>(items: seq<Item<K, V>>, key: K, other: K)
    ensures Lookup(Without(items, key), other) == if other == key then None else Lookup(items, other)
  {
    if items != [] {
      WithoutFound(items[1..], key, other);
      if items[0].key != key {
        assert ([items[0]] + Without(items[1..], key))[1..] == Without(items[1..], key);
      }
    }
  }

  /* ---- Lookups ---- */

  predicate Distinct<K(==), V>(items: seq<Item<K, V>>) {
    forall i, j | 0 <= i < j < |items| :: items[i].key != items[j].key
  }

  lemma {:induction false} LookupAt<K, V>(items: seq<Item<K, V>>, k: nat)
    requires Distinct(items) && k < |items|
    ensures Lookup(items, items[k].key) == Some(items[k].value)
  {
    if k > 0 {
      assert items[0].key != items[k].key;
      LookupAt(items[1..], k - 1);
    }
  }

  lemma {:induction false} LookupAbsent<K, V>(items: seq<Item<K, V>>, key: K)
    requires Absent(items, key)
    ensures Lookup(items, key).None?
  {
    if items != [] {
      LookupAbsent(items[1..], key);
    }
  }

  lemma {:induction false} LookupPresent<K, V>(items: seq<Item<K, V>>, key: K)
    requires Lookup(items, key).Some?
    ensures Item(key, Lookup(items, key).value) in items
  {
    if items[0].key != key {
      LookupPresent(items[1..], key);
    }
  }

  /** Taking out a key that is there closes the gap and leaves the other items in order. */
  lemma {:induction false} WithoutAt<K, V>(items: seq<Item<K, V>>, k: nat)
    requires Distinct(items) && k < |items|
    ensures Without(items, items[k].key) == items[..k] + items[k + 1..]
  {
    if k == 0 {
      WithoutAbsent(items[1..], items[0].key);
    } else {
      assert items[0].key != items[k].key;
      WithoutAt(items[1..], k - 1);
      assert items[..k] == [items[0]] + items[1..][..k - 1] && items[1..][k..] == items[k + 1..];
    }
  }

  lemma {:induction false} WithoutAbsent<K, V>(items: seq<Item<K, V>>, key: K)
    requires Absent(items, key)
    ensures Without(items, key) == items
  {
    if items != [] {
      WithoutAbsent(items[1..], key);
      assert items == [items[0]] + items[1..];
    }
  }
}
