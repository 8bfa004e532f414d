/** Walking a BPF hash map key by key while others delete from it: when the key the walk stands on is gone, asking for
  the next one starts over at the first. */
module ScanWalk {
  import opened Common
  import BpfMap
  import opened MapCleaner

  /** What is deleted around one step of the walk: before the key is looked up, and before the next one is asked for. */
  datatype Disturbance = Disturbance(beforeLookup: seq<IPv4>, beforeNext: seq<IPv4>)

  function Now(script: seq<Disturbance>): Disturbance {
    if script == [] then Disturbance([], []) else script[0]
  }

  function Later(script: seq<Disturbance>): seq<Disturbance> {
    if script == [] then [] else script[1..]
  }

  function AtLookup(order: seq<IPv4>, script: seq<Disturbance>): seq<IPv4> {
    WithoutAll(order, Now(script).beforeLookup)
  }

  function AtNext(order: seq<IPv4>, script: seq<Disturbance>): seq<IPv4> {
    WithoutAll(AtLookup(order, script), Now(script).beforeNext)
  }

  // ---- positions ----

  /** How many keys are still to come, the key itself included. */
  function ToCome(order: seq<IPv4>, key: IPv4): int {
    |order| - |Ahead(order, key)|
  }

  lemma {:induction false} SetOfSize<T>(s: seq<T>)
    ensures |SetOf(s)| <= |s|
  {
    if s == [] {
      assert SetOf(s) == {};
    } else {
      SetOfSize(Init(s));
      assert s == Init(s) + [Last(s)];
      assert SetOf(s) == SetOf(Init(s)) + {Last(s)};
    }
  }

  lemma SomeToCome(order: seq<IPv4>, key: IPv4)
    requires key in order
    ensures ToCome(order, key) >= 1
  {
    SetOfSize(order);
    BpfMap.SmallerSubset(Ahead(order, key), SetOf(order), key);
  }

  lemma {:induction false} AheadIsPrefix(order: seq<IPv4>, i: nat)
    requires DistinctKeys(order) && i < |order|
    ensures Ahead(order, order[i]) == SetOf(order[..i])
  {
    if i > 0 {
      assert order[1..][i - 1] == order[i];
      AheadIsPrefix(order[1..], i - 1);
      assert order[..i] == [order[0]] + order[1..][..i - 1];
      assert SetOf(order[..i]) == {order[0]} + SetOf(order[1..][..i - 1]);
    }
  }

  /** Asking for the next key moves on by one, or finds that all has been walked. */
  lemma AheadNext(order: seq<IPv4>, key: IPv4)
    requires DistinctKeys(order) && key in order
    ensures var next := Successor(order, Some(key));
      if next.Some? then next.value in order && Ahead(order, next.value) == Ahead(order, key) + {key}
      else SetOf(order) == Ahead(order, key) + {key}
  {
    hide Ahead, DistinctKeys;
    var i := IndexOf(order, key);
    AheadIsPrefix(order, i);
    assert order[..i + 1] == order[..i] + [key];
    assert SetOf(order[..i + 1]) == SetOf(order[..i]) + {key};
    if i + 1 < |order| {
      AheadIsPrefix(order, i + 1);
    } else {
      assert order[..i + 1] == order;
    }
  }

  /** From a key that is gone it starts over. */
  lemma StartsOver(order: seq<IPv4>, key: IPv4)
    requires key !in order
    ensures var next := Successor(order, Some(key));
      if next.Some? then next.value in order && Ahead(order, next.value) == {} else order == []
  {
  }

  lemma {:induction false} AheadWithout(order: seq<IPv4>, gone: IPv4, key: IPv4)
    requires DistinctKeys(order) && key in order && gone != key
    ensures Ahead(Without(order, gone), key) == Ahead(order, key) - {gone}
  {
    if order[0] != key {
      assert key in order[1..];
      AheadWithout(order[1..], gone, key);
      assert order[0] !in order[1..];
      assert gone == order[0] ==> gone !in Ahead(order[1..], key);
    }
  }

  /** Deleting other keys brings a key nothing but forward. */
  lemma {:induction false} AheadWithoutAll(order: seq<IPv4>, gone: seq<IPv4>, key: IPv4)
    requires DistinctKeys(order) && key in WithoutAll(order, gone)
    ensures Ahead(WithoutAll(order, gone), key) <= Ahead(order, key)
    ensures ToCome(WithoutAll(order, gone), key) <= ToCome(order, key)
  {
    if gone != [] {
      var init, last := gone[..|gone| - 1], gone[|gone| - 1];
      var before := WithoutAll(order, init);
      AheadWithoutAll(order, init, key);
      WithoutAllDistinct(order, init);
      WithoutDistinct(before, last);
      AheadWithout(before, last, key);
      hide WithoutAll, Ahead, Without;
      if last in Ahead(before, key) {
        assert |Ahead(before, key) - {last}| == |Ahead(before, key)| - 1;
        assert last in before;
      } else {
        assert Ahead(before, key) - {last} == Ahead(before, key);
      }
    }
  }

  /** One step of the walk either loses the key it stands on to a deletion, or comes closer to the end. */
  lemma StepShortens(order: seq<IPv4>, key: IPv4, script: seq<Disturbance>)
    requires DistinctKeys(order) && key in order
    ensures var rest, next := AtNext(order, script), Successor(AtNext(order, script), Some(key));
      && DistinctKeys(rest) && |rest| <= |order|
      && (forall k :: k in rest ==> k in AtLookup(order, script) && k in order)
      && (key !in rest ==> |rest| < |order|)
      && (key in rest ==> Ahead(rest, key) <= Ahead(order, key) && ToCome(rest, key) <= ToCome(order, key))
      && (next.Some? ==> next.value in rest)
      && (next.Some? && key in rest ==> ToCome(rest, next.value) < ToCome(order, key))
      && (next.Some? && key !in rest ==> ToCome(rest, next.value) == |rest|)
  {
    var one, rest := AtLookup(order, script), AtNext(order, script);
    WithoutAllDistinct(order, Now(script).beforeLookup);
    WithoutAllDistinct(one, Now(script).beforeNext);
    hide WithoutAll, Successor, Ahead;
    if key in rest {
      AheadWithoutAll(order, Now(script).beforeLookup, key);
      AheadWithoutAll(one, Now(script).beforeNext, key);
      AheadNext(rest, key);
    } else {
      StartsOver(rest, key);
    }
  }

  // ---- the walk ----

  /** What one step of the walk finds. */
  function Found(order: seq<IPv4>, key: IPv4, script: seq<Disturbance>): seq<IPv4> {
    if key in AtLookup(order, script) then [key] else []
  }

  /** The keys found, in order, from `key` on; and what is left in the map when the walk ends. */
  ghost function WalkFrom(order: seq<IPv4>, key: IPv4, script: seq<Disturbance>): (r: (seq<IPv4>, seq<IPv4>))
    requires DistinctKeys(order) && key in order
    ensures forall k :: k in r.0 || k in r.1 ==> k in order
    decreases |order|, ToCome(order, key)
  {
    StepShortens(order, key, script);
    SomeToCome(order, key);
    var rest := AtNext(order, script);
    var next := Successor(rest, Some(key));
    if next.None? then (Found(order, key, script), rest)
    else
      var (more, left) := WalkFrom(rest, next.value, Later(script));
      (Found(order, key, script) + more, left)
  }

  lemma WalkOnce(order: seq<IPv4>, key: IPv4, script: seq<Disturbance>)
    requires DistinctKeys(order) && key in order
    ensures var rest, next := AtNext(order, script), Successor(AtNext(order, script), Some(key));
      && DistinctKeys(rest) && (next.Some? ==> next.value in rest)
      && WalkFrom(order, key, script) ==
         if next.None? then (Found(order, key, script), rest)
         else
           var (more, left) := WalkFrom(rest, next.value, Later(script));
           (Found(order, key, script) + more, left)
  {
    StepShortens(order, key, script);
    hide AtNext, AtLookup, Successor, Ahead, ToCome, DistinctKeys, Found;
  }

  /** The whole walk, from the first key. */
  ghost function Walk(order: seq<IPv4>, script: seq<Disturbance>): (r: (seq<IPv4>, seq<IPv4>))
    requires DistinctKeys(order)
    ensures forall k :: k in r.0 || k in r.1 ==> k in order
  {
    if order == [] then ([], []) else WalkFrom(order, order[0], script)
  }

  /** No disturbance deletes the key. */
  ghost predicate Spared(script: seq<Disturbance>, key: IPv4) {
    forall d :: d in script ==> key !in d.beforeLookup && key !in d.beforeNext
  }

  lemma SparedStays(order: seq<IPv4>, script: seq<Disturbance>, k: IPv4)
    requires k in order && Spared(script, k)
    ensures k in AtNext(order, script) && Spared(Later(script), k)
  {
    assert script != [] ==> script[0] in script;
  }

  /** Every key still there at the end was found, or was passed before. */
  lemma {:induction false} WalkCovers(order: seq<IPv4>, key: IPv4, script: seq<Disturbance>)
    requires DistinctKeys(order) && key in order
    ensures var (found, left) := WalkFrom(order, key, script);
      forall k :: k in left ==> k in found || k in Ahead(order, key)
    decreases |order|, ToCome(order, key)
  {
    StepShortens(order, key, script);
    SomeToCome(order, key);
    var rest := AtNext(order, script);
    var next := Successor(rest, Some(key));
    if key in rest {
      AheadNext(rest, key);
    } else {
      StartsOver(rest, key);
    }
    hide AtNext, AtLookup, Successor, Ahead, ToCome, DistinctKeys;
    if next.Some? {
      WalkCovers(rest, next.value, Later(script));
    } else {
      assert key in rest ==> forall k :: k in rest ==> k in SetOf(rest);
    }
  }

  lemma {:induction false} WalkSpares(order: seq<IPv4>, key: IPv4, script: seq<Disturbance>, k: IPv4)
    requires DistinctKeys(order) && key in order && k in order && Spared(script, k)
    ensures k in WalkFrom(order, key, script).1
    decreases |order|, ToCome(order, key)
  {
    StepShortens(order, key, script);
    SomeToCome(order, key);
    SparedStays(order, script, k);
    var next := Successor(AtNext(order, script), Some(key));
    hide AtNext, AtLookup, Successor, ToCome, DistinctKeys, Spared;
    if next.Some? {
      WalkSpares(AtNext(order, script), next.value, Later(script), k);
    }
  }

  /** `passes` walks over n keys, by repeated addition. */
  function Passes(n: nat, passes: nat): nat {
    if passes == 0 then 0 else Passes(n, passes - 1) + n
  }

  lemma {:induction false} PassesIsProduct(n: nat, passes: nat)
    ensures Passes(n, passes) == passes * n
  {
    if passes > 0 {
      PassesIsProduct(n, passes - 1);
    }
  }

  lemma {:induction false} PassesGrow(n: nat, m: nat, a: nat, b: nat)
    requires n <= m && a <= b
    ensures Passes(n, a) <= Passes(m, b)
    decreases b
  {
    if a < b {
      PassesGrow(n, m, a, b - 1);
    } else if b > 0 {
      PassesGrow(n, m, a - 1, b - 1);
    }
  }

  /** What one step adds to the finds, within the bound: `n` keys before it and `m` after it, `left` at the end. */
  lemma BoundStep(n: nat, m: nat, left: nat, toCome: nat, after: nat, more: nat, lost: bool)
    requires left <= m <= n && toCome >= 1 && more <= after + Passes(m, m - left)
    requires if lost then m < n && after == m else after < toCome
    ensures 1 + more <= toCome + Passes(n, n - left)
  {
    if lost {
      PassesGrow(m, n, m - left, n - left - 1);
    } else {
      PassesGrow(m, n, m - left, n - left);
    }
  }

  /** Besides the rest of the first pass, at most one whole pass for each key deleted. */
  lemma {:induction false} WalkBound(order: seq<IPv4>, key: IPv4, script: seq<Disturbance>)
    requires DistinctKeys(order) && key in order
    ensures var (found, left) := WalkFrom(order, key, script);
      |left| <= |order| && |found| <= ToCome(order, key) + Passes(|order|, |order| - |left|)
    decreases |order|, ToCome(order, key)
  {
    hide *;
    StepShortens(order, key, script);
    SomeToCome(order, key);
    WalkOnce(order, key, script);
    FoundAtMostOne(order, key, script);
    var rest := AtNext(order, script);
    var next := Successor(rest, Some(key));
    if next.Some? {
      WalkBound(rest, next.value, Later(script));
      SomeToCome(rest, next.value);
      var (more, left) := WalkFrom(rest, next.value, Later(script));
      BoundStep(|order|, |rest|, |left|, ToCome(order, key), ToCome(rest, next.value), |more|, key !in rest);
    }
  }

  lemma FoundAtMostOne(order: seq<IPv4>, key: IPv4, script: seq<Disturbance>)
    ensures |Found(order, key, script)| <= 1
  {
  }

  /** A walk disturbed by deletions ends; it finds every key that is not deleted, and makes at most as many finds as
    there were keys, times one more than the number of keys deleted on the way. */
  lemma DisturbedWalk(order: seq<IPv4>, script: seq<Disturbance>)
    requires DistinctKeys(order)
    ensures var (found, left) := Walk(order, script);
      && (forall k :: k in order && Spared(script, k) ==> k in left)
      && (forall k :: k in left ==> k in found) && (forall k :: k in found || k in left ==> k in order)
      && |left| <= |order| && |found| <= (|order| - |left| + 1) * |order|
  {
    if order != [] {
      WalkCovers(order, order[0], script);
      WalkBound(order, order[0], script);
      forall k | k in order && Spared(script, k) ensures k in Walk(order, script).1 {
        WalkSpares(order, order[0], script, k);
      }
      hide WalkFrom, Spared;
      assert Ahead(order, order[0]) == {};
      PassesIsProduct(|order|, |order| - |Walk(order, script).1| + 1);
    }
  }

  /** Undisturbed, the walk is the iteration order. */
  lemma {:induction false} UndisturbedFrom(order: seq<IPv4>, i: nat)
    requires DistinctKeys(order) && i < |order|
    ensures WalkFrom(order, order[i], []) == (order[i..], order)
    decreases |order| - i
  {
    assert IndexOf(order, order[i]) == i;
    assert AtLookup(order, []) == AtNext(order, []) == order;
    if i + 1 < |order| {
      UndisturbedFrom(order, i + 1);
      assert order[i..] == [order[i]] + order[i + 1..];
    } else {
      assert order[i..] == [order[i]];
    }
  }

  lemma UndisturbedWalk(order: seq<IPv4>)
    requires DistinctKeys(order)
    ensures Walk(order, []) == (order, order)
  {
    if order != [] {
      UndisturbedFrom(order, 0);
    }
  }
}
