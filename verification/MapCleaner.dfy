/** A BPF hash map as user space sees it through bpf_map_get_next_key, and the cleaner that empties it.

  Keys come in a fixed but unknown order. Asking for the successor of a key that is not in the map gives the first
  key. Insertions by the kernel during a call are not modelled here. */
module MapCleaner {
  import opened Common

  ghost predicate DistinctKeys(order: seq<IPv4>) {
    forall i, j :: 0 <= i < j < |order| ==> order[i] != order[j]
  }

  /** What bpf_map_get_next_key finds; None as the key stands for the null pointer. */
  ghost function Successor(order: seq<IPv4>, key: Option<IPv4>): Option<IPv4>
  {
    if key.Some? && key.value in order then
      var i := IndexOf(order, key.value);
      if i + 1 < |order| then Some(order[i + 1]) else None
    else if order == [] then None
    else Some(order[0])
  }

  ghost function IndexOf(order: seq<IPv4>, key: IPv4): (i: nat)
    requires key in order
    ensures i < |order| && order[i] == key
  {
    var i :| 0 <= i < |order| && order[i] == key;
    i
  }

  /** The order with one key taken out. */
  function Without(order: seq<IPv4>, key: IPv4): (r: seq<IPv4>)
    ensures key !in r
    ensures forall k :: k in r <==> k in order && k != key
    ensures key !in order ==> r == order
  {
    if order == [] then []
    else if order[0] == key then Without(order[1..], key)
    else [order[0]] + Without(order[1..], key)
  }

  lemma {:induction false} WithoutDistinct(order: seq<IPv4>, key: IPv4)
    requires DistinctKeys(order)
    ensures DistinctKeys(Without(order, key))
    ensures key in order ==> |Without(order, key)| == |order| - 1
  {
    if order != [] {
      var tail := order[1..];
      assert order[0] !in tail;
      WithoutDistinct(tail, key);
      assert order == [order[0]] + tail;
    }
  }

  /** The order with a list of keys taken out. */
  function WithoutAll(order: seq<IPv4>, keys: seq<IPv4>): (r: seq<IPv4>)
    ensures forall k :: k in r <==> k in order && k !in keys
  {
    if keys == [] then order else Without(WithoutAll(order, keys[..|keys| - 1]), keys[|keys| - 1])
  }

  lemma {:induction false} WithoutAllDistinct(order: seq<IPv4>, keys: seq<IPv4>)
    requires DistinctKeys(order)
    ensures DistinctKeys(WithoutAll(order, keys)) && |WithoutAll(order, keys)| <= |order|
    ensures forall k :: k in keys && k in order ==> |WithoutAll(order, keys)| < |order|
  {
    if keys != [] {
      var init, last := keys[..|keys| - 1], keys[|keys| - 1];
      WithoutAllDistinct(order, init);
      WithoutDistinct(WithoutAll(order, init), last);
    }
  }

  class HashMap<V> {
    var order: seq<IPv4>
    var entries: map<IPv4, V>

    ghost predicate Valid()
      reads this
    {
      DistinctKeys(order) && forall k :: k in order <==> k in entries
    }

    method NextKey(key: Option<IPv4>) returns (next: Option<IPv4>)
      requires Valid()
      ensures next == Successor(order, key)
    {
      if key.Some? {
        for i := 0 to |order|
          invariant forall j :: 0 <= j < i ==> order[j] != key.value
        {
          if order[i] == key.value {
            assert IndexOf(order, key.value) == i;
            return if i + 1 < |order| then Some(order[i + 1]) else None;
          }
        }
      }
      return if order == [] then None else Some(order[0]);
    }

    method DeleteElem(key: IPv4)
      requires Valid()
      modifies this
      ensures Valid() && order == Without(old(order), key) && entries == old(entries) - {key}
      ensures key in old(order) ==> |order| == |old(order)| - 1
    {
      WithoutDistinct(order, key);
      order, entries := Without(order, key), entries - {key};
    }

    /** What somebody else deletes in between. */
    method DeleteAll(keys: seq<IPv4>)
      requires Valid()
      modifies this
      ensures Valid() && order == WithoutAll(old(order), keys) && entries == old(entries) - SetOf(keys)
    {
      for i := 0 to |keys|
        invariant Valid() && order == WithoutAll(old(order), keys[..i])
        invariant entries == old(entries) - SetOf(keys[..i])
      {
        assert keys[..i + 1][..i] == keys[..i];
        assert SetOf(keys[..i + 1]) == SetOf(keys[..i]) + {keys[i]};
        DeleteElem(keys[i]);
      }
      assert keys[..|keys|] == keys;
    }
  }

  /** Key 0 closes the iteration order: the one shape of a non-empty map the cleaner does not get started on. */
  ghost predicate ZeroIsLast(order: seq<IPv4>) {
    order != [] && order[|order| - 1] == IPv4(0, 0, 0, 0)
  }

  /** The keys the cleaner deletes, in order: the successor of key 0, then whatever is first, until nothing is left. */
  ghost function DeletionOrder(order: seq<IPv4>): seq<IPv4> {
    var first := Successor(order, Some(ZERO_IP));
    if first.None? then [] else [first.value] + Without(order, first.value)
  }

  /** Every key is deleted once, unless 0.0.0.0 is last in iteration order: then none is. */
  lemma DeletionOrderIsAll(order: seq<IPv4>)
    requires DistinctKeys(order)
    ensures DistinctKeys(DeletionOrder(order))
    ensures !ZeroIsLast(order) ==> forall k :: k in DeletionOrder(order) <==> k in order
    ensures !ZeroIsLast(order) ==> |DeletionOrder(order)| == |order|
    ensures ZeroIsLast(order) ==> DeletionOrder(order) == []
  {
    FirstSuccessor(order);
    var first := Successor(order, Some(ZERO_IP));
    if first.Some? {
      WithoutDistinct(order, first.value);
    }
  }

  lemma DeletionStarts(order: seq<IPv4>)
    ensures var first := Successor(order, Some(ZERO_IP));
      && (first.Some? ==> first.value in order && DeletionOrder(order) == [first.value] + Without(order, first.value))
      && (first.None? ==> DeletionOrder(order) == [])
  {
  }

  lemma SuccessorOfAbsent(order: seq<IPv4>, key: IPv4)
    requires key !in order
    ensures Successor(order, Some(key)) == if order == [] then None else Some(order[0])
  {
  }

  lemma {:induction false} WithoutFirst(order: seq<IPv4>)
    requires order != [] && DistinctKeys(order)
    ensures Without(order, order[0]) == order[1..]
  {
    assert order[0] !in order[1..];
  }

  /** `clean_map`: deletes the successor of the key deleted last, starting from key 0. Terminates on every map.
    It empties the map and returns its size, unless 0.0.0.0 is last in iteration order: then it deletes nothing. */
  method CleanMap<V>(m: HashMap<V>) returns (count: nat, ghost deleted: seq<IPv4>)
    requires m.Valid()
    modifies m
    ensures m.Valid()
    ensures !ZeroIsLast(old(m.order)) ==> m.order == [] && m.entries == map[] && count == |old(m.entries)|
    ensures ZeroIsLast(old(m.order)) ==> m.order == old(m.order) && m.entries == old(m.entries) && count == 0
    ensures deleted == DeletionOrder(old(m.order))
  {
    hide Successor, DeletionOrder, Without, DistinctKeys, ZeroIsLast;
    OrderCounts(m.order, m.entries);
    DeletionStarts(m.order);
    var key := ZERO_IP;
    count, deleted := 0, [];
    var next := m.NextKey(Some(key));
    FirstSuccessor(m.order);
    while next.Some?
      invariant m.Valid() && next == Successor(m.order, Some(key))
      invariant count + |m.order| == |old(m.order)|
      invariant count == 0 ==> m.order == old(m.order) && m.entries == old(m.entries) && key == ZERO_IP
      invariant count > 0 ==> key !in m.order && !ZeroIsLast(old(m.order))
      invariant next.Some? ==> next.value in m.order && (count > 0 ==> next.value == m.order[0])
      invariant next.None? && count > 0 ==> m.order == []
      invariant if count == 0 then deleted == [] else deleted + m.order == DeletionOrder(old(m.order))
      decreases |m.order|
    {
      ghost var before := m.order;
      m.DeleteElem(next.value);
      key := next.value;
      if count > 0 {
        WithoutFirst(before);
        assert deleted + before == (deleted + [key]) + m.order;
      }
      deleted := deleted + [key];
      count := count + 1;
      SuccessorOfAbsent(m.order, key);
      next := m.NextKey(Some(key));
    }
    if m.order == [] {
      assert deleted + [] == deleted;
      NoKeys(m);
    }
  }

  lemma NoKeys<V>(m: HashMap<V>)
    requires m.Valid() && m.order == []
    ensures m.entries == map[]
  {
    assert m.entries.Keys == {};
  }

  lemma FirstSuccessor(order: seq<IPv4>)
    requires DistinctKeys(order)
    ensures Successor(order, Some(ZERO_IP)) == None <==> order == [] || ZeroIsLast(order)
  {
  }

  lemma {:induction false} OrderCounts<V>(order: seq<IPv4>, entries: map<IPv4, V>)
    requires DistinctKeys(order) && forall k :: k in order <==> k in entries
    ensures |order| == |entries|
  {
    if order == [] {
      assert entries.Keys == {};
    } else {
      var rest := entries - {order[0]};
      assert forall k :: k in order[1..] <==> k in rest;
      OrderCounts(order[1..], rest);
      assert rest.Keys == entries.Keys - {order[0]};
      assert |entries| == |entries.Keys| && |rest| == |rest.Keys|;
    }
  }
}
