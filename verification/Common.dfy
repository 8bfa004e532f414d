/** Vocabulary shared by the models. */
module Common {
  datatype Option<+T> = None | Some(value: T)

  const U64: nat := 0x1_0000_0000_0000_0000

  type Byte = n: int | 0 <= n < 256

  /** An IPv4 address as the four bytes of the packet, in wire order. */
  datatype IPv4 = IPv4(b0: Byte, b1: Byte, b2: Byte, b3: Byte)

  const ZERO_IP := IPv4(0, 0, 0, 0)

  /** All of a sequence but its last element. */
  function Init<T>(s: seq<T>): seq<T>
    requires s != []
  {
    s[..|s| - 1]
  }

  function Last<T>(s: seq<T>): T
    requires s != []
  {
    s[|s| - 1]
  }

  function SetOf<T>(s: seq<T>): set<T> {
    set x | x in s
  }

  /** What comes in s before the first x; all of it when there is no x. */
  function Ahead<T>(s: seq<T>, x: T): (r: set<T>)
    ensures x !in r && r <= SetOf(s)
  {
    if s == [] || s[0] == x then {} else {s[0]} + Ahead(s[1..], x)
  }

  lemma {:induction false} AheadOfAbsent<T>(s: seq<T>, x: T)
    requires x !in s
    ensures Ahead(s, x) == SetOf(s)
  {
    if s != [] {
      AheadOfAbsent(s[1..], x);
      assert s == [s[0]] + s[1..];
    }
  }

  lemma {:induction false} AheadAppend<T>(s: seq<T>, y: T, x: T)
    ensures Ahead(s + [y], x) == if x in s || y == x then Ahead(s, x) else Ahead(s, x) + {y}
  {
    if s != [] && s[0] != x {
      AheadAppend(s[1..], y, x);
      assert (s + [y])[1..] == s[1..] + [y];
    }
  }
}

/** A BPF hash map with a fixed `max_entries`. `bpf_map_update_elem` with BPF_ANY replaces an existing value, and
  fails, leaving the map alone, when a new key meets a full map. */
module BpfMap {
  import opened Common

  function LookupElem<K, V>(m: map<K, V>, key: K): Option<V> {
    if key in m then Some(m[key]) else None
  }

  function Update<K, V>(m: map<K, V>, size: nat, key: K, value: V): map<K, V> {
    if key in m || |m| < size then m[key := value] else m
  }

  function Delete<K, V>(m: map<K, V>, key: K): map<K, V> {
    m - {key}
  }

  // ---- which keys a map that is never cleaned comes to hold ----

  function Touch<K>(keys: set<K>, size: nat, key: K): set<K> {
    if key in keys || |keys| < size then keys + {key} else keys
  }

  /** The key set after update attempts on `touched`, in order. */
  function Admit<K>(keys: set<K>, size: nat, touched: seq<K>): set<K> {
    if touched == [] then keys
    else Touch(Admit(keys, size, Init(touched)), size, Last(touched))
  }

  lemma UpdateKeys<K, V>(m: map<K, V>, size: nat, key: K, value: V)
    ensures Update(m, size, key, value).Keys == Touch(m.Keys, size, key)
  {
    assert |m| == |m.Keys|;
  }

  /** The key set only grows, stays within `size`, and is frozen once full. */
  lemma {:induction false} AdmitGrows<K>(keys: set<K>, size: nat, touched: seq<K>)
    ensures keys <= Admit(keys, size, touched)
    ensures |keys| <= size ==> |Admit(keys, size, touched)| <= size
    ensures |keys| >= size ==> Admit(keys, size, touched) == keys
  {
    if touched != [] {
      AdmitGrows(keys, size, touched[..|touched| - 1]);
    }
  }

  lemma {:induction false} AdmitAppend<K>(keys: set<K>, size: nat, touched: seq<K>, more: seq<K>)
    ensures Admit(keys, size, touched + more) == Admit(Admit(keys, size, touched), size, more)
  {
    if more == [] {
      assert touched + more == touched;
    } else {
      var init := more[..|more| - 1];
      AdmitAppend(keys, size, touched, init);
      assert (touched + more)[..|touched + more| - 1] == touched + init;
    }
  }

  /** A key is admitted on its first touch or never: one that was turned away stays out. */
  lemma {:induction false} AdmittedOnFirstTouch<K>(keys: set<K>, size: nat, touched: seq<K>, key: K)
    requires key in touched && key !in Admit(keys, size, touched)
    ensures |Admit(keys, size, touched)| >= size
  {
    var init, last := touched[..|touched| - 1], touched[|touched| - 1];
    var before := Admit(keys, size, init);
    assert touched == init + [last];
    if key in init {
      AdmittedOnFirstTouch(keys, size, init, key);
      assert last in before ==> before + {last} == before;
    }
  }

  /** Every key asked for is admitted until the map is full. */
  lemma {:induction false} AdmitsUntilFull<K>(keys: set<K>, size: nat, touched: seq<K>)
    ensures Admit(keys, size, touched) <= keys + SetOf(touched)
    ensures |Admit(keys, size, touched)| < size ==> Admit(keys, size, touched) == keys + SetOf(touched)
    ensures |keys + SetOf(touched)| < size ==> Admit(keys, size, touched) == keys + SetOf(touched)
  {
    if touched == [] {
      assert keys + SetOf(touched) == keys;
    } else {
      var init, last := Init(touched), Last(touched);
      assert touched == init + [last];
      assert keys + SetOf(touched) == keys + SetOf(init) + {last};
      AdmitsUntilFull(keys, size, init);
      SubsetSize(keys + SetOf(init), keys + SetOf(touched));
      SubsetSize(Admit(keys, size, init), Admit(keys, size, touched));
    }
  }

  /** A new key gets in exactly when it is asked for and the keys asked for before it leave room. */
  lemma {:induction false} AdmittedExactly<K>(keys: set<K>, size: nat, touched: seq<K>, key: K)
    requires key !in keys
    ensures key in Admit(keys, size, touched) <==> key in touched && |keys + Ahead(touched, key)| < size
  {
    if touched != [] {
      var init, last := Init(touched), Last(touched);
      assert touched == init + [last];
      AdmittedExactly(keys, size, init, key);
      AheadAppend(init, last, key);
      if key in init {
        if key !in Admit(keys, size, init) {
          AdmittedOnFirstTouch(keys, size, init, key);
          assert last in Admit(keys, size, init) ==> Admit(keys, size, init) + {last} == Admit(keys, size, init);
        }
      } else if last == key {
        AheadOfAbsent(init, key);
        AdmitsUntilFull(keys, size, init);
      }
    }
  }

  /** With room for every key concerned, every touch succeeds. */
  lemma TouchWithRoom<K>(keys: set<K>, size: nat, key: K, universe: set<K>)
    requires keys <= universe && key in universe && |universe| <= size
    ensures Touch(keys, size, key) == keys + {key} <= universe
  {
    if key !in keys {
      SmallerSubset(keys, universe, key);
    }
  }

  lemma SmallerSubset<K>(part: set<K>, whole: set<K>, extra: K)
    requires part <= whole && extra in whole && extra !in part
    ensures |part| < |whole|
  {
    SubsetSize(part, whole - {extra});
  }

  lemma SubsetSize<K>(part: set<K>, whole: set<K>)
    requires part <= whole
    ensures |part| <= |whole|
  {
    if part != {} {
      var x :| x in part;
      SubsetSize(part - {x}, whole - {x});
    }
  }
}

/** Division facts, kept apart from the models that use them. */
module Arith {
  import opened Common

  lemma SmallMultiple(d: int, m: int)
    requires m > 0 && -m < d * m < m
    ensures d == 0
  {
  }

  lemma DivModUnique(x: nat, m: nat, q: nat, r: nat)
    requires m > 0 && r < m && x == q * m + r
    ensures x / m == q && x % m == r
  {
    assert (x / m) * m + x % m == x;
    assert (x / m - q) * m == r - x % m;
    SmallMultiple(x / m - q, m);
  }

  lemma WrapLowers(x: nat)
    ensures x % U64 <= x && (x < U64 ==> x % U64 == x)
  {
  }

  /** Reducing a 64-bit counter before adding does not change the reduced sum. */
  lemma AddWraps(x: nat, y: nat)
    ensures (x % U64 + y) % U64 == (x + y) % U64
  {
  }
}
