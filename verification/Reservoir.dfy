/** Reservoir sampling of a row stream (Algorithm R), as `reservoir_sample` in my_detect.py does it.

  The random draws are an explicit input: `draws[t]` is what `np.random.randint(0, processed)` returns on
  its t-th call, so it lies in [0, processed). `Positions` follows stream positions instead of rows. */
module Reservoir {
  import opened Common
  import BpfMap

  function Min(a: nat, b: nat): nat {
    if a <= b then a else b
  }

  /** The number of draws made while the first n rows go through a reservoir of capacity k. */
  function DrawsNeeded(n: nat, k: nat): nat {
    if n <= k then 0 else n - k
  }

  /** The t-th draw is made for the (k+1+t)-th row, so it is one of 0..k+t. */
  ghost predicate ValidDraws(draws: seq<nat>, n: nat, k: nat) {
    && |draws| == DrawsNeeded(n, k)
    && forall t :: 0 <= t < |draws| ==> draws[t] < k + 1 + t
  }

  function Flatten<T>(chunks: seq<seq<T>>): seq<T> {
    if chunks == [] then [] else chunks[0] + Flatten(chunks[1..])
  }

  /** Stream positions held after the first n rows. */
  function Positions(draws: seq<nat>, n: nat, k: nat): (r: seq<nat>)
    requires |draws| >= DrawsNeeded(n, k)
    ensures |r| == Min(n, k)
    ensures forall t :: 0 <= t < |r| ==> r[t] < n
  {
    if n == 0 then []
    else
      var previous := Positions(draws, n - 1, k);
      if n <= k then previous + [n - 1]
      else
        var j := draws[n - 1 - k];
        if j < k then previous[j := n - 1] else previous
  }

  // ---- the space of draw vectors ----

  /** Each vector of `base` extended by each of `width` next draws. */
  ghost function Extensions(base: set<seq<nat>>, width: nat): set<seq<nat>> {
    set d, j: nat | d in base && j < width :: d + [j]
  }

  ghost predicate IsExtension(e: seq<nat>, base: set<seq<nat>>, width: nat) {
    e != [] && Init(e) in base && Last(e) < width
  }

  lemma InExtensions(base: set<seq<nat>>, width: nat)
    ensures forall e :: e in Extensions(base, width) <==> IsExtension(e, base, width)
  {
    forall e ensures e in Extensions(base, width) <==> IsExtension(e, base, width) {
      if e in Extensions(base, width) {
        var d, j: nat :| d in base && j < width && e == d + [j];
        assert Init(e) == d;
      }
      if IsExtension(e, base, width) {
        assert e == Init(e) + [Last(e)];
      }
    }
  }

  /** Every draw vector for n rows. */
  ghost function AllDraws(n: nat, k: nat): set<seq<nat>> {
    if n <= k then {[]} else Extensions(AllDraws(n - 1, k), n)
  }

  lemma {:induction false} AllDrawsIsValidDraws(n: nat, k: nat, d: seq<nat>)
    ensures d in AllDraws(n, k) <==> ValidDraws(d, n, k)
  {
    if n > k {
      InExtensions(AllDraws(n - 1, k), n);
      if d != [] {
        AllDrawsIsValidDraws(n - 1, k, Init(d));
      }
    }
  }

  /** The draw vectors after which stream position i is in the reservoir. */
  ghost function Keeping(n: nat, k: nat, i: nat): set<seq<nat>> {
    set d | d in AllDraws(n, k) && Keeps(d, n, k, i)
  }

  ghost predicate Keeps(d: seq<nat>, n: nat, k: nat, i: nat) {
    |d| >= DrawsNeeded(n, k) && i in Positions(d, n, k)
  }

  /** A draw vector's prefix decides the reservoir of the prefix of the stream. */
  lemma {:induction false} PositionsPrefix(d: seq<nat>, j: nat, n: nat, k: nat)
    requires |d| >= DrawsNeeded(n, k)
    ensures Positions(d + [j], n, k) == Positions(d, n, k)
  {
    if n > 0 {
      PositionsPrefix(d, j, n - 1, k);
    }
  }

  ghost predicate Distinct(s: seq<nat>) {
    forall a, b :: 0 <= a < b < |s| ==> s[a] != s[b]
  }

  lemma {:induction false} PositionsDistinct(d: seq<nat>, n: nat, k: nat)
    requires |d| >= DrawsNeeded(n, k)
    ensures Distinct(Positions(d, n, k))
  {
    if n > 0 {
      PositionsDistinct(d, n - 1, k);
    }
  }

  lemma PositionsWhileFilling(d: seq<nat>, n: nat, k: nat, i: nat)
    requires |d| >= DrawsNeeded(n, k) && n <= k
    ensures i < n ==> i in Positions(d, n, k)
  {
    if i < n - 1 {
      PositionsWhileFilling(d, n - 1, k, i);
      var t :| 0 <= t < |Positions(d, n - 1, k)| && Positions(d, n - 1, k)[t] == i;
      assert Positions(d, n, k)[t] == i;
    } else if i == n - 1 {
      assert Positions(d, n, k)[n - 1] == i;
    }
  }

  // ---- counting ----

  /** One extension per vector: the graph of a choice of next draws. */
  ghost function Graph(choice: map<seq<nat>, nat>): set<seq<nat>> {
    set d | d in choice :: d + [choice[d]]
  }

  ghost predicate IsChosen(e: seq<nat>, choice: map<seq<nat>, nat>) {
    e != [] && Init(e) in choice && Last(e) == choice[Init(e)]
  }

  lemma InGraphOne(e: seq<nat>, choice: map<seq<nat>, nat>)
    ensures e in Graph(choice) <==> IsChosen(e, choice)
  {
    if e in Graph(choice) {
      var d :| d in choice && e == d + [choice[d]];
      assert Init(e) == d;
    }
    if IsChosen(e, choice) {
      assert e == Init(e) + [Last(e)];
    }
  }

  lemma InGraph(choice: map<seq<nat>, nat>)
    ensures forall e :: e in Graph(choice) <==> IsChosen(e, choice)
  {
    forall e ensures e in Graph(choice) <==> IsChosen(e, choice) {
      InGraphOne(e, choice);
    }
  }

  lemma SplitGraph(choice: map<seq<nat>, nat>, d: seq<nat>)
    requires d in choice
    ensures |Graph(choice)| == 1 + |Graph(choice - {d})|
  {
    var rest := choice - {d};
    var mine := d + [choice[d]];
    assert Init(mine) == d;
    InGraph(rest);
    forall e ensures e in Graph(choice) <==> e == mine || e in Graph(rest) {
      InGraphOne(e, choice);
      assert e != [] ==> e == Init(e) + [Last(e)];
    }
    assert Graph(choice) == Graph(rest) + {mine};
    assert mine !in Graph(rest);
  }

  lemma {:induction false} CountGraph(choice: map<seq<nat>, nat>)
    ensures |Graph(choice)| == |choice.Keys|
    decreases |choice.Keys|
  {
    if choice.Keys == {} {
      assert Graph(choice) == {};
    } else {
      var d :| d in choice.Keys;
      SplitGraph(choice, d);
      assert (choice - {d}).Keys == choice.Keys - {d};
      CountGraph(choice - {d});
    }
  }

  /** The extensions by draw `width` on top of those by smaller draws. */
  lemma ExtensionsStep(base: set<seq<nat>>, width: nat)
    ensures |Extensions(base, width + 1)| == |Extensions(base, width)| + |base|
  {
    var choice: map<seq<nat>, nat> := map d | d in base :: width;
    assert choice.Keys == base;
    CountGraph(choice);
    InGraph(choice);
    InExtensions(base, width);
    InExtensions(base, width + 1);
    forall e ensures IsExtension(e, base, width + 1) <==> IsExtension(e, base, width) || IsChosen(e, choice) {
    }
    assert Extensions(base, width + 1) == Extensions(base, width) + Graph(choice);
    assert Extensions(base, width) !! Graph(choice);
  }

  lemma {:induction false} CountExtensions(base: set<seq<nat>>, width: nat)
    ensures |Extensions(base, width)| == |base| * width
  {
    if width == 0 {
      InExtensions(base, width);
      assert Extensions(base, width) == {};
    } else {
      CountExtensions(base, width - 1);
      ExtensionsStep(base, width - 1);
      assert |base| * (width - 1) + |base| == |base| * width;
    }
  }

  ghost function SlotOf(d: seq<nat>, n: nat, k: nat, i: nat): (t: nat)
    requires Keeps(d, n, k, i)
    ensures t < |Positions(d, n, k)| && Positions(d, n, k)[t] == i
  {
    var t :| 0 <= t < |Positions(d, n, k)| && Positions(d, n, k)[t] == i;
    t
  }

  /** For each vector that keeps position i, the next draw that would evict it. */
  ghost function Evictors(n: nat, k: nat, i: nat): (choice: map<seq<nat>, nat>)
    ensures choice.Keys == Keeping(n, k, i)
    ensures forall d :: d in choice ==> Keeps(d, n, k, i) && choice[d] == SlotOf(d, n, k, i)
  {
    map d | d in Keeping(n, k, i) :: SlotOf(d, n, k, i)
  }

  /** One more row (n > k) puts `n-1` into the drawn slot, if the draw names one. */
  lemma PositionsStep(e: seq<nat>, n: nat, k: nat)
    requires n > k && |e| == n - k
    ensures |Positions(Init(e), n - 1, k)| == k
    ensures Positions(e, n, k) == if Last(e) < k then Positions(Init(e), n - 1, k)[Last(e) := n - 1]
                                                 else Positions(Init(e), n - 1, k)
  {
    PositionsPrefix(Init(e), Last(e), n - 1, k);
    assert e == Init(e) + [Last(e)];
  }

  /** A later row leaves position i < n-1 in place under every draw but the one naming its slot. */
  lemma StepKeeps(e: seq<nat>, n: nat, k: nat, i: nat)
    requires n > k && i < n - 1 && |e| == n - k
    ensures Keeps(e, n, k, i) <==>
      Keeps(Init(e), n - 1, k, i) && Last(e) != SlotOf(Init(e), n - 1, k, i)
  {
    PositionsStep(e, n, k);
    PositionsDistinct(Init(e), n - 1, k);
    var before, after := Positions(Init(e), n - 1, k), Positions(e, n, k);
    if i in before {
      var t := SlotOf(Init(e), n - 1, k, i);
      if Last(e) != t {
        assert after[t] == i;
      }
    }
  }

  lemma KeepingStep(n: nat, k: nat, i: nat)
    requires n > k && i < n - 1
    ensures var kept, evicting := Keeping(n - 1, k, i), Graph(Evictors(n - 1, k, i));
      evicting <= Extensions(kept, n) && Keeping(n, k, i) == Extensions(kept, n) - evicting
  {
    var kept, evictors := Keeping(n - 1, k, i), Evictors(n - 1, k, i);
    InExtensions(AllDraws(n - 1, k), n);
    InExtensions(kept, n);
    InGraph(evictors);
    forall e | e in AllDraws(n, k)
      ensures e in Keeping(n, k, i) <==> IsExtension(e, kept, n) && !IsChosen(e, evictors)
    {
      AllDrawsIsValidDraws(n, k, e);
      StepKeeps(e, n, k, i);
    }
    forall e: seq<nat> | IsChosen(e, evictors) ensures IsExtension(e, kept, n) {
      assert Positions(Init(e), n - 1, k)[Last(e)] == i;
    }
  }

  /** The newest row enters exactly under the draws below k. */
  lemma KeepingNewest(n: nat, k: nat)
    requires n > k
    ensures Keeping(n, k, n - 1) == Extensions(AllDraws(n - 1, k), k)
  {
    InExtensions(AllDraws(n - 1, k), n);
    InExtensions(AllDraws(n - 1, k), k);
    forall e | e in AllDraws(n, k) ensures Keeps(e, n, k, n - 1) <==> Last(e) < k {
      AllDrawsIsValidDraws(n, k, e);
      PositionsStep(e, n, k);
      if Last(e) < k {
        assert Positions(e, n, k)[Last(e)] == n - 1;
      }
    }
  }

  /** Uniformity: of all draw vectors for n >= k rows, the fraction k/n keeps row i, whichever row i is. */
  lemma {:induction false} Uniform(n: nat, k: nat, i: nat)
    requires n >= k && i < n
    ensures n * |Keeping(n, k, i)| == k * |AllDraws(n, k)|
  {
    if n == k {
      PositionsWhileFilling([], n, k, i);
      assert Keeping(n, k, i) == {[]};
    } else {
      var total := |AllDraws(n - 1, k)|;
      CountExtensions(AllDraws(n - 1, k), n);
      if i == n - 1 {
        KeepingNewest(n, k);
        CountExtensions(AllDraws(n - 1, k), k);
        Rearrange(n, k, total);
      } else {
        Uniform(n - 1, k, i);
        CountSurvivors(n, k, i);
        ScaleCount(n, k, |Keeping(n - 1, k, i)|, total);
      }
    }
  }

  lemma CountSurvivors(n: nat, k: nat, i: nat)
    requires n > k && i < n - 1
    ensures |Keeping(n, k, i)| == |Keeping(n - 1, k, i)| * n - |Keeping(n - 1, k, i)|
  {
    var kept := Keeping(n - 1, k, i);
    KeepingStep(n, k, i);
    CountExtensions(kept, n);
    CountGraph(Evictors(n - 1, k, i));
  }

  lemma Rearrange(n: nat, k: nat, total: nat)
    ensures n * (total * k) == k * (total * n)
  {
  }

  lemma ScaleCount(n: nat, k: nat, kept: nat, total: nat)
    requires n > 0 && (n - 1) * kept == k * total
    ensures n * (kept * n - kept) == k * (total * n)
  {
    calc {
      n * (kept * n - kept);
      n * ((n - 1) * kept);
      n * (k * total);
      k * (total * n);
    }
  }

  // ---- every k-subset is equally likely ----

  ghost function Held(d: seq<nat>, n: nat, k: nat): set<nat> {
    if |d| >= DrawsNeeded(n, k) then Members(Positions(d, n, k)) else {}
  }

  ghost function Members(s: seq<nat>): set<nat> {
    set x | x in s
  }

  /** The draw vectors after which the reservoir holds exactly the stream positions in `kept`. */
  ghost function Holding(n: nat, k: nat, kept: set<nat>): set<seq<nat>> {
    set d | d in AllDraws(n, k) && Held(d, n, k) == kept
  }

  function Factorial(n: nat): nat {
    if n == 0 then 1 else Factorial(n - 1) * n
  }

  ghost function Range(n: nat): (r: set<nat>)
    ensures |r| == n && forall x: nat :: x in r <==> x < n
  {
    if n == 0 then {} else Range(n - 1) + {n - 1}
  }

  lemma FullSubset(part: set<nat>, n: nat)
    requires part <= Range(n) && |part| == n
    ensures part == Range(n)
  {
    if x :| x in Range(n) && x !in part {
      BpfMap.SmallerSubset(part, Range(n), x);
    }
  }

  lemma HeldWhileFilling(n: nat)
    ensures Held([], n, n) == Range(n)
  {
    forall x: nat | x < n ensures x in Held([], n, n) {
      PositionsWhileFilling([], n, n, x);
    }
  }

  /** One more row (n > k) either is left out or takes the place of the one in the drawn slot. */
  lemma HeldStep(e: seq<nat>, n: nat, k: nat)
    requires n > k && |e| == n - k
    ensures var before := Positions(Init(e), n - 1, k);
      && |before| == k
      && Held(e, n, k) == if Last(e) < k then Held(Init(e), n - 1, k) - {before[Last(e)]} + {n - 1}
                                         else Held(Init(e), n - 1, k)
    ensures n - 1 !in Held(Init(e), n - 1, k)
  {
    hide Positions;
    PositionsStep(e, n, k);
    PositionsDistinct(Init(e), n - 1, k);
    if Last(e) < k {
      var before := Positions(Init(e), n - 1, k);
      ReplacedMembers(before, Last(e), n - 1);
    }
  }

  lemma ReplacedMembers(s: seq<nat>, at: nat, x: nat)
    requires Distinct(s) && at < |s| && x !in s
    ensures Members(s[at := x]) == Members(s) - {s[at]} + {x}
  {
    var after := s[at := x];
    forall y | y in s && y != s[at] ensures y in after {
      var t :| 0 <= t < |s| && s[t] == y;
      assert after[t] == y;
    }
    assert after[at] == x;
  }

  /** A subset without the newest row: the newest was left out. */
  lemma HoldingWithoutNewest(n: nat, k: nat, kept: set<nat>)
    requires n > k && n - 1 !in kept
    ensures var base := Holding(n - 1, k, kept);
      Extensions(base, k) <= Extensions(base, n) && Holding(n, k, kept) == Extensions(base, n) - Extensions(base, k)
  {
    var base := Holding(n - 1, k, kept);
    InExtensions(AllDraws(n - 1, k), n);
    InExtensions(base, n);
    InExtensions(base, k);
    forall e: seq<nat> ensures e in Holding(n, k, kept) <==> IsExtension(e, base, n) && !IsExtension(e, base, k) {
      AllDrawsIsValidDraws(n, k, e);
      if e != [] && Init(e) in AllDraws(n - 1, k) {
        AllDrawsIsValidDraws(n - 1, k, Init(e));
        HeldStep(e, n, k);
      }
    }
  }

  /** The vectors that hold `rest` and one of `candidates`. */
  ghost function Among(n: nat, k: nat, rest: set<nat>, candidates: set<nat>): set<seq<nat>> {
    set d | d in AllDraws(n, k) && HoldsOneOf(d, n, k, rest, candidates)
  }

  ghost predicate HoldsOneOf(d: seq<nat>, n: nat, k: nat, rest: set<nat>, candidates: set<nat>) {
    exists x :: x in candidates && Held(d, n, k) == rest + {x}
  }

  /** The slot of the one position that is not in `rest`. */
  ghost function OddSlot(d: seq<nat>, n: nat, k: nat, rest: set<nat>): (t: nat)
    requires |d| >= DrawsNeeded(n, k) && Held(d, n, k) - rest != {}
    ensures t < |Positions(d, n, k)| && Positions(d, n, k)[t] !in rest
  {
    var x :| x in Held(d, n, k) - rest;
    var t :| 0 <= t < |Positions(d, n, k)| && Positions(d, n, k)[t] == x;
    t
  }

  lemma OddSlotIs(d: seq<nat>, n: nat, k: nat, rest: set<nat>, at: nat)
    requires |d| >= DrawsNeeded(n, k) && at < |Positions(d, n, k)|
    requires var x := Positions(d, n, k)[at]; x !in rest && Held(d, n, k) == rest + {x}
    ensures Held(d, n, k) - rest != {} && OddSlot(d, n, k, rest) == at
  {
    PositionsDistinct(d, n, k);
    hide Positions, OddSlot;
    var p := Positions(d, n, k);
    assert p[at] in Held(d, n, k) - rest;
    assert p[OddSlot(d, n, k, rest)] in Held(d, n, k);
  }

  lemma AmongIsOdd(d: seq<nat>, n: nat, k: nat, rest: set<nat>, candidates: set<nat>)
    requires d in Among(n, k, rest, candidates) && rest !! candidates
    ensures |d| >= DrawsNeeded(n, k) && Held(d, n, k) - rest != {}
  {
    var x :| x in candidates && Held(d, n, k) == rest + {x};
    assert x in Held(d, n, k) - rest;
  }

  ghost function OddSlots(n: nat, k: nat, rest: set<nat>, candidates: set<nat>): (choice: map<seq<nat>, nat>)
    requires rest !! candidates
    ensures choice.Keys == Among(n, k, rest, candidates)
    ensures forall d :: d in choice ==>
      |d| >= DrawsNeeded(n, k) && Held(d, n, k) - rest != {} && choice[d] == OddSlot(d, n, k, rest)
  {
    map d | d in Among(n, k, rest, candidates) :: (AmongIsOdd(d, n, k, rest, candidates); OddSlot(d, n, k, rest))
  }

  lemma HoldingShape(e: seq<nat>, n: nat, k: nat, kept: set<nat>)
    requires n > k && e in Holding(n, k, kept)
    ensures |e| == n - k && Init(e) in AllDraws(n - 1, k)
  {
    AllDrawsIsValidDraws(n, k, e);
    InExtensions(AllDraws(n - 1, k), n);
    hide Held;
  }

  lemma ChosenShape(e: seq<nat>, n: nat, k: nat, rest: set<nat>, candidates: set<nat>)
    requires n > k && rest !! candidates && IsChosen(e, OddSlots(n - 1, k, rest, candidates))
    ensures |e| == n - k
  {
    hide OddSlots, AllDraws, HoldsOneOf, Positions;
    assert Init(e) in Among(n - 1, k, rest, candidates);
    AllDrawsIsValidDraws(n - 1, k, Init(e));
  }

  /** A subset with the newest row: it replaced one of the others, in that one's slot. */
  lemma HoldingWithNewest(e: seq<nat>, n: nat, k: nat, rest: set<nat>)
    requires n > k && rest <= Range(n - 1)
    ensures e in Holding(n, k, rest + {n - 1}) <==> IsChosen(e, OddSlots(n - 1, k, rest, Range(n - 1) - rest))
  {
    hide *;
    if e in Holding(n, k, rest + {n - 1}) {
      HoldingShape(e, n, k, rest + {n - 1});
      NewestReplaced(e, n, k, rest);
    } else if IsChosen(e, OddSlots(n - 1, k, rest, Range(n - 1) - rest)) {
      ChosenShape(e, n, k, rest, Range(n - 1) - rest);
      NewestReplaces(e, n, k, rest);
    }
  }

  /** The row the newest one replaced. */
  lemma ReplacedRow(e: seq<nat>, n: nat, k: nat, rest: set<nat>)
    requires n > k && rest <= Range(n - 1) && |e| == n - k && Held(e, n, k) == rest + {n - 1}
    ensures Last(e) < k == |Positions(Init(e), n - 1, k)|
    ensures var x := Positions(Init(e), n - 1, k)[Last(e)];
      x !in rest && x < n - 1 && Held(Init(e), n - 1, k) == rest + {x}
  {
    HeldStep(e, n, k);
    hide Positions;
    assert Last(e) < k;
    var held, x := Held(Init(e), n - 1, k), Positions(Init(e), n - 1, k)[Last(e)];
    assert x in held;
    assert n - 1 !in rest && n - 1 !in held;
    assert held - {x} == rest by {
      assert held - {x} + {n - 1} == rest + {n - 1};
      assert (held - {x} + {n - 1}) - {n - 1} == held - {x};
      assert (rest + {n - 1}) - {n - 1} == rest;
    }
    assert held == rest + {x};
  }

  lemma IsAmong(d: seq<nat>, n: nat, k: nat, rest: set<nat>, candidates: set<nat>, x: nat)
    requires d in AllDraws(n, k) && x in candidates && Held(d, n, k) == rest + {x}
    ensures d in Among(n, k, rest, candidates)
  {
    hide AllDraws, Held;
    assert HoldsOneOf(d, n, k, rest, candidates);
  }

  lemma HoldingHolds(e: seq<nat>, n: nat, k: nat, kept: set<nat>)
    requires e in Holding(n, k, kept)
    ensures Held(e, n, k) == kept
  {
  }

  lemma NewestReplaced(e: seq<nat>, n: nat, k: nat, rest: set<nat>)
    requires n > k && rest <= Range(n - 1) && |e| == n - k
    requires Init(e) in AllDraws(n - 1, k) && e in Holding(n, k, rest + {n - 1})
    ensures IsChosen(e, OddSlots(n - 1, k, rest, Range(n - 1) - rest))
  {
    hide Holding, Among, Positions, OddSlots, Held, OddSlot, Range, AllDraws;
    HoldingHolds(e, n, k, rest + {n - 1});
    ReplacedRow(e, n, k, rest);
    OddSlotIs(Init(e), n - 1, k, rest, Last(e));
    IsAmong(Init(e), n - 1, k, rest, Range(n - 1) - rest, Positions(Init(e), n - 1, k)[Last(e)]);
  }

  lemma NewestReplaces(e: seq<nat>, n: nat, k: nat, rest: set<nat>)
    requires n > k && rest <= Range(n - 1) && |e| == n - k
    requires IsChosen(e, OddSlots(n - 1, k, rest, Range(n - 1) - rest))
    ensures e in Holding(n, k, rest + {n - 1})
  {
    HeldStep(e, n, k);
    InExtensions(AllDraws(n - 1, k), n);
    hide Positions, OddSlots, OddSlot, Range;
    var before, held := Positions(Init(e), n - 1, k), Held(Init(e), n - 1, k);
    var x :| x in Range(n - 1) - rest && held == rest + {x};
    assert before[Last(e)] in held && before[Last(e)] !in rest;
    assert held - {x} == rest;
    assert IsExtension(e, AllDraws(n - 1, k), n);
  }

  lemma AmongSplits(n: nat, k: nat, rest: set<nat>, candidates: set<nat>, x: nat)
    requires x in candidates && rest !! candidates
    ensures |Among(n, k, rest, candidates)| ==
      |Among(n, k, rest, candidates - {x})| + |Holding(n, k, rest + {x})|
  {
    hide Held, AllDraws;
    forall d: seq<nat> ensures HoldsOneOf(d, n, k, rest, candidates) <==>
      HoldsOneOf(d, n, k, rest, candidates - {x}) || Held(d, n, k) == rest + {x}
    {
    }
    forall d: seq<nat> | HoldsOneOf(d, n, k, rest, candidates - {x}) ensures Held(d, n, k) != rest + {x} {
      var y :| y in candidates - {x} && Held(d, n, k) == rest + {y};
      assert x !in rest + {y};
    }
    hide HoldsOneOf;
    assert Among(n, k, rest, candidates) == Among(n, k, rest, candidates - {x}) + Holding(n, k, rest + {x});
    assert Among(n, k, rest, candidates - {x}) !! Holding(n, k, rest + {x});
  }

  function Times(a: nat, b: nat): nat {
    a * b
  }

  lemma TimesNone(b: nat)
    ensures Times(0, b) == 0
  {
  }

  lemma {:induction false} CountAmong(n: nat, k: nat, rest: set<nat>, candidates: set<nat>)
    requires n >= k && |rest| + 1 == k && rest !! candidates && rest + candidates <= Range(n)
    ensures |Among(n, k, rest, candidates)| == Times(|candidates|, Factorial(n - k))
    decreases n, |candidates|
  {
    hide Among, Holding, Factorial, Times;
    if candidates == {} {
      NoneAmong(n, k, rest);
      TimesNone(Factorial(n - k));
    } else {
      var x :| x in candidates;
      AmongSplits(n, k, rest, candidates, x);
      CountAmong(n, k, rest, candidates - {x});
      assert |rest + {x}| == k && |candidates - {x}| == |candidates| - 1;
      SubsetsUniform(n, k, rest + {x});
      Distribute(|candidates|, Factorial(n - k));
    }
  }

  lemma NoneAmong(n: nat, k: nat, rest: set<nat>)
    ensures Among(n, k, rest, {}) == {}
  {
  }

  lemma Distribute(a: nat, b: nat)
    requires a > 0
    ensures Times(a - 1, b) + b == Times(a, b)
  {
  }

  lemma FactorialStep(n: nat)
    requires n > 0
    ensures Factorial(n) == Times(n, Factorial(n - 1))
  {
  }

  /** Every subset of k of the n rows is what the reservoir ends up with under the same number of draw vectors,
    (n - k) factorial, whichever subset it is. */
  lemma {:induction false} SubsetsUniform(n: nat, k: nat, kept: set<nat>)
    requires n >= k && |kept| == k && kept <= Range(n)
    ensures |Holding(n, k, kept)| == Factorial(n - k)
    decreases n, 0
  {
    hide *;
    if n == k {
      OnlySubset(n, kept);
    } else if n - 1 !in kept {
      assert kept <= Range(n - 1);
      SubsetsUniform(n - 1, k, kept);
      SubsetWithoutNewest(n, k, kept);
      FactorialStep(n - k);
    } else {
      var rest := kept - {n - 1};
      var candidates := Range(n - 1) - rest;
      CandidatesLeft(n, k, kept);
      CountAmong(n - 1, k, rest, candidates);
      SubsetWithNewest(n, k, rest);
      FactorialStep(n - k);
    }
  }

  /** How many rows the newest can have replaced. */
  lemma CandidatesLeft(n: nat, k: nat, kept: set<nat>)
    requires n > k && |kept| == k && kept <= Range(n) && n - 1 in kept
    ensures var rest := kept - {n - 1};
      && rest + {n - 1} == kept && |rest| + 1 == k && rest <= Range(n - 1) && |Range(n - 1) - rest| == n - k
      && rest + (Range(n - 1) - rest) <= Range(n - 1)
  {
    var rest := kept - {n - 1};
    assert rest + (Range(n - 1) - rest) == Range(n - 1);
  }

  lemma OnlySubset(n: nat, kept: set<nat>)
    requires |kept| == n && kept <= Range(n)
    ensures |Holding(n, n, kept)| == Factorial(0)
  {
    FullSubset(kept, n);
    HeldWhileFilling(n);
    assert Holding(n, n, kept) == {[]};
  }

  lemma SubsetWithoutNewest(n: nat, k: nat, kept: set<nat>)
    requires n > k && n - 1 !in kept
    ensures |Holding(n, k, kept)| == Times(n - k, |Holding(n - 1, k, kept)|)
  {
    hide Holding, Extensions, Times;
    var base := Holding(n - 1, k, kept);
    HoldingWithoutNewest(n, k, kept);
    CountExtensions(base, n);
    CountExtensions(base, k);
    SubtractProducts(|base|, n, k);
  }

  lemma SubtractProducts(b: nat, n: nat, k: nat)
    requires n >= k
    ensures b * n - b * k == Times(n - k, b)
  {
  }

  lemma SubsetWithNewest(n: nat, k: nat, rest: set<nat>)
    requires n > k && rest <= Range(n - 1)
    ensures |Holding(n, k, rest + {n - 1})| == |Among(n - 1, k, rest, Range(n - 1) - rest)|
  {
    var choice := OddSlots(n - 1, k, rest, Range(n - 1) - rest);
    forall e ensures e in Holding(n, k, rest + {n - 1}) <==> e in Graph(choice) {
      HoldingWithNewest(e, n, k, rest);
      InGraphOne(e, choice);
    }
    assert Holding(n, k, rest + {n - 1}) == Graph(choice);
    CountGraph(choice);
  }

  /** There are n! / k! draw vectors, so each subset has its share of one in (n choose k). */
  lemma {:induction false} CountDraws(n: nat, k: nat)
    requires n >= k
    ensures |AllDraws(n, k)| * Factorial(k) == Factorial(n)
  {
    hide Factorial;
    if n == k {
      assert AllDraws(n, k) == {[]};
    } else {
      CountDraws(n - 1, k);
      CountExtensions(AllDraws(n - 1, k), n);
      FactorialStep(n);
      Regroup(|AllDraws(n - 1, k)|, n, Factorial(k));
    }
  }

  lemma Regroup(a: nat, b: nat, c: nat)
    ensures a * b * c == a * c * b
  {
  }

  /** Cutting the row stream into chunks elsewhere changes nothing. */
  lemma {:induction false} FlattenAppend<T>(chunks: seq<seq<T>>, chunk: seq<T>)
    ensures Flatten(chunks + [chunk]) == Flatten(chunks) + chunk
  {
    if chunks == [] {
      assert Flatten([chunk]) == chunk + Flatten<T>([]);
    } else {
      FlattenAppend(chunks[1..], chunk);
      assert (chunks + [chunk])[1..] == chunks[1..] + [chunk];
    }
  }

  lemma {:induction false} FlattenPrefix<T>(chunks: seq<seq<T>>, c: nat)
    requires c <= |chunks|
    ensures Flatten(chunks[..c]) <= Flatten(chunks)
  {
    if c > 0 {
      FlattenPrefix(chunks[1..], c - 1);
      assert chunks[..c][1..] == chunks[1..][..c - 1];
    }
  }

  lemma NextChunk<T>(chunks: seq<seq<T>>, c: nat)
    requires c < |chunks|
    ensures var start := |Flatten(chunks[..c])|;
      && |Flatten(chunks[..c + 1])| == start + |chunks[c]| <= |Flatten(chunks)|
      && forall t :: 0 <= t < |chunks[c]| ==> Flatten(chunks)[start + t] == chunks[c][t]
  {
    FlattenAppend(chunks[..c], chunks[c]);
    FlattenPrefix(chunks, c + 1);
    assert chunks[..c + 1] == chunks[..c] + [chunks[c]];
  }

  /** The reservoir holds the rows at these stream positions, slot by slot. */
  ghost predicate Holds<Row>(reservoir: seq<Row>, rows: seq<Row>, positions: seq<nat>) {
    && |reservoir| == |positions|
    && forall t :: 0 <= t < |positions| ==> positions[t] < |rows| && reservoir[t] == rows[positions[t]]
  }

  /** The reservoir after the first n rows. */
  ghost predicate Sampled<Row>(reservoir: seq<Row>, rows: seq<Row>, draws: seq<nat>, n: nat, k: nat) {
    && n <= |rows|
    && |draws| >= DrawsNeeded(n, k)
    && Holds(reservoir, rows, Positions(draws, n, k))
  }

  lemma TakeRow<Row>(reservoir: seq<Row>, rows: seq<Row>, draws: seq<nat>, n: nat, k: nat)
    requires n < |rows| && |draws| >= DrawsNeeded(n + 1, k)
    requires Sampled(reservoir, rows, draws, n, k)
    ensures |reservoir| == Min(n, k)
    ensures n < k ==> Sampled(reservoir + [rows[n]], rows, draws, n + 1, k)
    ensures n >= k && draws[n - k] < k ==> Sampled(reservoir[draws[n - k] := rows[n]], rows, draws, n + 1, k)
    ensures n >= k && draws[n - k] >= k ==> Sampled(reservoir, rows, draws, n + 1, k)
  {
  }

  /** The loop over the rows of one chunk. */
  method SampleChunk<Row>(start: seq<Row>, chunk: seq<Row>, done: nat, draws: seq<nat>, k: nat, ghost rows: seq<Row>)
    returns (reservoir: seq<Row>, processed: nat)
    requires Sampled(start, rows, draws, done, k)
    requires done + |chunk| <= |rows| && |draws| >= DrawsNeeded(done + |chunk|, k)
    requires forall t :: 0 <= t < |chunk| ==> rows[done + t] == chunk[t]
    ensures processed == done + |chunk| && Sampled(reservoir, rows, draws, processed, k)
  {
    reservoir, processed := start, done;
    for idx := 0 to |chunk|
      invariant processed == done + idx && Sampled(reservoir, rows, draws, processed, k)
    {
      TakeRow(reservoir, rows, draws, processed, k);
      processed := processed + 1;
      if |reservoir| < k {
        reservoir := reservoir + [chunk[idx]];
      } else {
        var j := draws[processed - 1 - k];
        if j < k {
          reservoir := reservoir[j := chunk[idx]];
        }
      }
    }
  }

  /** The sampling loop. Rows come in chunks; one element of `draws` is used per row past the capacity.
    The result depends on the rows and the draws only, not on where the stream is cut. */
  method ReservoirSample<Row>(chunks: seq<seq<Row>>, draws: seq<nat>, k: nat) returns (reservoir: seq<Row>)
    requires ValidDraws(draws, |Flatten(chunks)|, k)
    ensures Holds(reservoir, Flatten(chunks), Positions(draws, |Flatten(chunks)|, k))
  {
    ghost var rows := Flatten(chunks);
    reservoir := [];
    var processed := 0;
    for c := 0 to |chunks|
      invariant processed == |Flatten(chunks[..c])| && Sampled(reservoir, rows, draws, processed, k)
    {
      NextChunk(chunks, c);
      reservoir, processed := SampleChunk(reservoir, chunks[c], processed, draws, k, rows);
    }
    assert chunks[..|chunks|] == chunks;
  }
}
