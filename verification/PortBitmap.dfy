/** `struct port_bitmap`: sixteen 64-bit words standing for a set of ports below 1024. */
module PortBitmap {
  const WORDS: nat := 16
  const WORD_BITS: nat := 64
  const PORT_LIMIT: nat := 1024

  // ---- one word ----

  /** A bit position below 64, as a machine word. */
  function Index(i: nat): bv64 {
    if i == 0 then 0 else 2 * Index(i / 2) + (if i % 2 == 1 then 1 else 0)
  }

  ghost predicate SamePower(n: nat, m: bv64) {
    || (n == 1 && m == 1) || (n == 2 && m == 2) || (n == 4 && m == 4) || (n == 8 && m == 8)
    || (n == 16 && m == 16) || (n == 32 && m == 32) || (n == 64 && m == 64)
  }

  lemma {:induction false} IndexBelow(i: nat, n: nat, m: bv64)
    requires i < n && SamePower(n, m)
    ensures Index(i) < m
  {
    if n > 1 {
      IndexBelow(i / 2, n / 2, m / 2);
    }
  }

  lemma {:induction false} IndexInjective(i: nat, j: nat, n: nat, m: bv64)
    requires i < n && j < n && SamePower(n, m)
    ensures Index(i) == Index(j) ==> i == j
  {
    if n > 1 {
      IndexBelow(i / 2, n / 2, m / 2);
      IndexBelow(j / 2, n / 2, m / 2);
      IndexInjective(i / 2, j / 2, n / 2, m / 2);
      Halves(Index(i / 2), Index(j / 2));
    }
  }

  lemma Halves(a: bv64, b: bv64)
    requires a < 32 && b < 32
    ensures 2 * a != 2 * b + 1 && 2 * a + 1 != 2 * b
    ensures 2 * a == 2 * b ==> a == b
    ensures 2 * a + 1 == 2 * b + 1 ==> a == b
  {
  }

  /** 1ULL << i */
  function Mask(i: nat): bv64
    requires i < WORD_BITS
  {
    IndexBelow(i, 64, 64);
    1 << Index(i)
  }

  lemma SingleBits(a: bv64, b: bv64)
    requires a < 64 && b < 64
    ensures (1 as bv64) << a != 0
    ensures a != b ==> ((1 as bv64) << a) & ((1 as bv64) << b) == 0
  {
  }

  /** The words have a set bit in common. */
  predicate Meets(w: bv64, m: bv64) {
    w & m != 0
  }

  predicate Bit(w: bv64, i: nat)
    requires i < WORD_BITS
  {
    Meets(w, Mask(i))
  }

  lemma MasksDisjoint(i: nat, j: nat)
    requires i < WORD_BITS && j < WORD_BITS
    ensures Meets(Mask(i), Mask(j)) <==> i == j
  {
    IndexBelow(i, 64, 64);
    IndexBelow(j, 64, 64);
    IndexInjective(i, j, 64, 64);
    SingleBits(Index(i), Index(j));
  }

  lemma AndOverOr(w: bv64, m: bv64, n: bv64)
    ensures (w | m) & n == (w & n) | (m & n)
  {
  }

  lemma OrIsZero(x: bv64, y: bv64)
    ensures x | y == 0 <==> x == 0 && y == 0
  {
  }

  lemma OrMeets(w: bv64, m: bv64, n: bv64)
    ensures Meets(w | m, n) <==> Meets(w, n) || Meets(m, n)
  {
    AndOverOr(w, m, n);
    OrIsZero(w & n, m & n);
  }

  lemma BitAfterOr(w: bv64, i: nat, j: nat)
    requires i < WORD_BITS && j < WORD_BITS
    ensures Bit(w | Mask(i), j) <==> Bit(w, j) || i == j
  {
    hide Mask, Meets;
    MasksDisjoint(i, j);
    OrMeets(w, Mask(i), Mask(j));
  }

  lemma ZeroMeetsNothing(n: bv64)
    ensures !Meets(0, n)
  {
  }

  lemma BitOfZero(j: nat)
    requires j < WORD_BITS
    ensures !Bit(0, j)
  {
    hide Mask, Meets;
    ZeroMeetsNothing(Mask(j));
  }

  /** Number of set bits among the low n; __builtin_popcountll is the count over all 64. */
  function PopcountBelow(w: bv64, n: nat): nat
    requires n <= WORD_BITS
  {
    if n == 0 then 0 else PopcountBelow(w, n - 1) + (if Bit(w, n - 1) then 1 else 0)
  }

  function Popcount(w: bv64): nat {
    PopcountBelow(w, WORD_BITS)
  }

  // ---- the sixteen words ----

  predicate Marked(words: seq<bv64>, port: nat)
    requires |words| == WORDS && port < PORT_LIMIT
  {
    Bit(words[port / WORD_BITS], port % WORD_BITS)
  }

  /** The set of ports the words stand for. */
  ghost function Ports(words: seq<bv64>): set<nat>
    requires |words| == WORDS
  {
    set port: nat | port < PORT_LIMIT && Marked(words, port)
  }

  ghost function PortsBelow(words: seq<bv64>, bound: nat): set<nat>
    requires |words| == WORDS && bound <= PORT_LIMIT
  {
    set port: nat | port < bound && Marked(words, port)
  }

  function TotalBelow(words: seq<bv64>, n: nat): nat
    requires n <= |words|
  {
    if n == 0 then 0 else TotalBelow(words, n - 1) + Popcount(words[n - 1])
  }

  lemma PortsBelowStep(words: seq<bv64>, bound: nat)
    requires |words| == WORDS && bound < PORT_LIMIT
    ensures |PortsBelow(words, bound + 1)| == |PortsBelow(words, bound)| + (if Marked(words, bound) then 1 else 0)
  {
    hide Marked;
    var added := if Marked(words, bound) then {bound} else {};
    assert PortsBelow(words, bound + 1) == PortsBelow(words, bound) + added;
  }

  lemma {:induction false} CountWithinWord(words: seq<bv64>, i: nat, n: nat)
    requires |words| == WORDS && i < WORDS && n <= WORD_BITS
    ensures |PortsBelow(words, WORD_BITS * i + n)| ==
      |PortsBelow(words, WORD_BITS * i)| + PopcountBelow(words[i], n)
  {
    hide Bit, PortsBelow;
    if n > 0 {
      CountWithinWord(words, i, n - 1);
      var port := WORD_BITS * i + (n - 1);
      assert port / WORD_BITS == i && port % WORD_BITS == n - 1;
      PortsBelowStep(words, port);
    }
  }

  lemma {:induction false} CountWords(words: seq<bv64>, n: nat)
    requires |words| == WORDS && n <= WORDS
    ensures TotalBelow(words, n) == |PortsBelow(words, WORD_BITS * n)|
  {
    if n == 0 {
      assert PortsBelow(words, 0) == {};
    } else {
      CountWords(words, n - 1);
      CountWithinWord(words, n - 1, WORD_BITS);
    }
  }

  /** The popcount sum is the cardinality of the set of ports. */
  lemma TotalIsCardinality(words: seq<bv64>)
    requires |words| == WORDS
    ensures TotalBelow(words, WORDS) == |Ports(words)|
  {
    CountWords(words, WORDS);
    assert PortsBelow(words, PORT_LIMIT) == Ports(words);
  }

  /** bitmap[port / 64] |= 1ULL << (port % 64) */
  function WithPort(words: seq<bv64>, port: nat): (r: seq<bv64>)
    requires |words| == WORDS && port < PORT_LIMIT
    ensures |r| == WORDS
  {
    words[port / WORD_BITS := words[port / WORD_BITS] | Mask(port % WORD_BITS)]
  }

  lemma SameCell(p: nat, q: nat)
    ensures p / WORD_BITS == q / WORD_BITS && p % WORD_BITS == q % WORD_BITS ==> p == q
  {
  }

  lemma MarkedAfterMark(words: seq<bv64>, port: nat, p: nat)
    requires |words| == WORDS && port < PORT_LIMIT && p < PORT_LIMIT
    ensures Marked(WithPort(words, port), p) <==> Marked(words, p) || p == port
  {
    hide Bit, Mask;
    SameCell(p, port);
    if p / WORD_BITS == port / WORD_BITS {
      BitAfterOr(words[port / WORD_BITS], port % WORD_BITS, p % WORD_BITS);
    }
  }

  lemma PortsAfterMark(words: seq<bv64>, port: nat)
    requires |words| == WORDS && port < PORT_LIMIT
    ensures Ports(WithPort(words, port)) == Ports(words) + {port}
  {
    hide Marked, WithPort;
    var after := WithPort(words, port);
    forall p: nat | p < PORT_LIMIT ensures Marked(after, p) <==> Marked(words, p) || p == port {
      MarkedAfterMark(words, port, p);
    }
  }

  lemma PortsOfZero(words: seq<bv64>)
    requires |words| == WORDS && forall i :: 0 <= i < WORDS ==> words[i] == 0
    ensures Ports(words) == {}
  {
    forall p: nat | p < PORT_LIMIT ensures !Marked(words, p) {
      BitOfZero(p % WORD_BITS);
    }
  }

  // ---- the operations on the map value ----

  method Mark(bitmap: array<bv64>, port: nat)
    requires bitmap.Length == WORDS && port < PORT_LIMIT
    modifies bitmap
    ensures Ports(bitmap[..]) == old(Ports(bitmap[..])) + {port}
  {
    PortsAfterMark(bitmap[..], port);
    ghost var after := WithPort(bitmap[..], port);
    var idx, bit := port / WORD_BITS, port % WORD_BITS;
    bitmap[idx] := bitmap[idx] | Mask(bit);
    assert bitmap[..] == after;
  }

  method CountPorts(bitmap: array<bv64>) returns (total: nat)
    requires bitmap.Length == WORDS
    ensures total == |Ports(bitmap[..])|
  {
    total := 0;
    for i := 0 to WORDS
      invariant total == TotalBelow(bitmap[..], i)
    {
      total := total + Popcount(bitmap[i]);
    }
    TotalIsCardinality(bitmap[..]);
  }

  method Clear(bitmap: array<bv64>)
    requires bitmap.Length == WORDS
    modifies bitmap
    ensures Ports(bitmap[..]) == {}
  {
    for i := 0 to WORDS
      invariant forall j :: 0 <= j < i ==> bitmap[j] == 0
    {
      bitmap[i] := 0;
    }
    PortsOfZero(bitmap[..]);
  }

  method ZeroedBitmap() returns (bitmap: array<bv64>)
    ensures fresh(bitmap) && bitmap.Length == WORDS && Ports(bitmap[..]) == {}
  {
    bitmap := new bv64[WORDS](_ => 0);
    PortsOfZero(bitmap[..]);
  }
}
