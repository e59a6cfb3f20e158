/**
 Collecting items under keys in a dictionary that keeps insertion order: the
 `setdefault(key, []).append(item)` loop of backend/app/reporting.py and
 backend/app/vehicle_groups.py.
 */
module Grouping {

  /** The distinct keys, in the order in which they first occur. */
  function FirstKeys<K(==)>(keys: seq<K>): seq<K> {
    if keys == [] then []
    else
      var earlier := FirstKeys(keys[..|keys| - 1]);
      if keys[|keys| - 1] in earlier then earlier else earlier + [keys[|keys| - 1]]
  }

  /** The items with key `k`, in input order. */
  function Members<K(==), T>(items: seq<T>, keys: seq<K>, k: K): seq<T>
    requires |items| == |keys|
  {
    if items == [] then []
    else
      var last := |items| - 1;
      Members(items[..last], keys[..last], k) + if keys[last] == k then [items[last]] else []
  }

  method GroupBy<K(==), T>(items: seq<T>, keys: seq<K>) returns (order: seq<K>, groups: map<K, seq<T>>)
    requires |items| == |keys|
    ensures order == FirstKeys(keys)
    ensures forall k :: k in groups <==> k in order
    ensures forall k | k in groups :: groups[k] == Members(items, keys, k)
  {
    order, groups := [], map[];
    for i := 0 to |items|
      invariant order == FirstKeys(keys[..i])
      invariant forall k :: k in groups <==> k in order
      invariant forall k | k in groups :: groups[k] == Members(items[..i], keys[..i], k)
    {
      var key := keys[i];
      assert keys[..i + 1][..i] == keys[..i] && items[..i + 1][..i] == items[..i];
      KeyOccurs(keys[..i], key);
      NoMembers(items[..i], keys[..i], key);
      if key !in groups {
        groups := groups[key := []];
        order := order + [key];
      }
      groups := groups[key := groups[key] + [items[i]]];
    }
    assert keys[..|items|] == keys && items[..|items|] == items;
  }

  lemma {:induction false} KeyOccurs<K>(keys: seq<K>, k: K)
    ensures k in FirstKeys(keys) <==> k in keys
  {
    if keys != [] {
      KeyOccurs(keys[..|keys| - 1], k);
      assert keys == keys[..|keys| - 1] + [keys[|keys| - 1]];
      KeyOccurs(keys[..|keys| - 1], keys[|keys| - 1]);
    }
  }

  lemma {:induction false} NoMembers<K, T>(items: seq<T>, keys: seq<K>, k: K)
    requires |items| == |keys|
    ensures Members(items, keys, k) == [] <==> k !in keys
  {
    if items != [] {
      var last := |items| - 1;
      NoMembers(items[..last], keys[..last], k);
      assert keys == keys[..last] + [keys[last]];
    }
  }

  ghost predicate Distinct<K(!new)>(s: seq<K>) {
    forall i, j | 0 <= i < j < |s| :: s[i] != s[j]
  }

  lemma {:induction false} FirstKeysAreDistinct<K(!new)>(keys: seq<K>)
    ensures Distinct(FirstKeys(keys))
  {
    if keys != [] {
      FirstKeysAreDistinct(keys[..|keys| - 1]);
    }
  }

  /** Keys that are already distinct stay as they are. */
  lemma {:induction false} DistinctKeysStay<K(!new)>(keys: seq<K>)
    requires Distinct(keys)
    ensures FirstKeys(keys) == keys
  {
    if keys != [] {
      var front := keys[..|keys| - 1];
      DistinctKeysStay(front);
      assert keys == front + [keys[|keys| - 1]];
    }
  }

  /** An item is a member of exactly the group of its key. */
  lemma {:induction false} MembersAre<K, T>(items: seq<T>, keys: seq<K>, k: K, x: T)
    requires |items| == |keys|
    ensures x in Members(items, keys, k) <==> exists i :: 0 <= i < |items| && items[i] == x && keys[i] == k
  {
    if items != [] {
      var last := |items| - 1;
      MembersAre(items[..last], keys[..last], k, x);
    }
  }

  /** With distinct keys, the group of a key is its one item. */
  lemma {:induction false} OneMember<K(!new), T>(items: seq<T>, keys: seq<K>, i: nat)
    requires |items| == |keys| && i < |keys| && Distinct(keys)
    ensures Members(items, keys, keys[i]) == [items[i]]
  {
    var last := |items| - 1;
    if i < last {
      OneMember(items[..last], keys[..last], i);
    } else {
      NoMembers(items[..last], keys[..last], keys[last]);
    }
  }

  // --- the groups are a partition -------------------------------------------------

  /** The members of these groups, together. */
  function Gathered<K(==), T(==)>(items: seq<T>, keys: seq<K>, order: seq<K>): multiset<T>
    requires |items| == |keys|
  {
    if order == [] then multiset{}
    else Gathered(items, keys, order[..|order| - 1]) + multiset(Members(items, keys, order[|order| - 1]))
  }

  /** The last item, if it goes to one of these keys. */
  function Arrival<K(==), T(==)>(item: T, key: K, order: seq<K>): multiset<T> {
    if key in order then multiset{item} else multiset{}
  }

  lemma MembersGrow<K, T>(items: seq<T>, keys: seq<K>, k: K)
    requires |items| == |keys| && items != []
    ensures var last := |items| - 1;
            multiset(Members(items, keys, k))
            == multiset(Members(items[..last], keys[..last], k)) + Arrival(items[last], keys[last], [k])
  {
  }

  lemma ArrivalSplits<K(!new), T>(item: T, key: K, order: seq<K>)
    requires order != [] && Distinct(order)
    ensures var front := order[..|order| - 1];
            Distinct(front)
            && Arrival(item, key, order) == Arrival(item, key, front) + Arrival(item, key, [order[|order| - 1]])
  {
    assert order == order[..|order| - 1] + [order[|order| - 1]];
  }

  lemma {:induction false} GatheredGrows<K(!new), T>(items: seq<T>, keys: seq<K>, order: seq<K>)
    requires |items| == |keys| && items != [] && Distinct(order)
    ensures var last := |items| - 1;
            Gathered(items, keys, order)
            == Gathered(items[..last], keys[..last], order) + Arrival(items[last], keys[last], order)
  {
    hide Members, Arrival, Distinct;
    var last := |items| - 1;
    if order == [] {
      NoArrival(items[last], keys[last]);
    } else {
      var front := order[..|order| - 1];
      ArrivalSplits(items[last], keys[last], order);
      GatheredGrows(items, keys, front);
      MembersGrow(items, keys, order[|order| - 1]);
    }
  }

  lemma NoArrival<K, T>(item: T, key: K)
    ensures Arrival(item, key, []) == multiset{}
  {
  }

  lemma {:induction false} NothingGathered<K, T>(order: seq<K>)
    ensures Gathered<K, T>([], [], order) == multiset{}
  {
    if order != [] {
      NothingGathered<K, T>(order[..|order| - 1]);
    }
  }

  /** Every item is in exactly one group, as often as it occurs. */
  lemma {:induction false} GroupsPartition<K(!new), T>(items: seq<T>, keys: seq<K>, order: seq<K>)
    requires |items| == |keys| && Distinct(order) && forall k | k in keys :: k in order
    ensures Gathered(items, keys, order) == multiset(items)
  {
    hide Gathered, Distinct, Members;
    if items == [] {
      NothingGathered<K, T>(order);
    } else {
      var last := |items| - 1;
      assert forall k | k in keys[..last] :: k in keys;
      GroupsPartition(items[..last], keys[..last], order);
      GatheredGrows(items, keys, order);
      assert keys[last] in keys;
      assert items == items[..last] + [items[last]];
    }
  }
}
