/** NUL-terminated strings inside a character buffer, and the in-place operations config parsing does on them. */
module CString {
  import opened Common

  const NUL: char := 0 as char

  predicate IsBlank(c: char) {
    c == ' ' || c == '\t' || c == '\n' || c == '\r'
  }

  // ---- on values ----

  function TrimLeft(s: string): string {
    if s != "" && IsBlank(s[0]) then TrimLeft(s[1..]) else s
  }

  function TrimRight(s: string): string {
    if s != "" && IsBlank(s[|s| - 1]) then TrimRight(s[..|s| - 1]) else s
  }

  function Trimmed(s: string): string {
    TrimRight(TrimLeft(s))
  }

  /** The part of s in front of the first c; all of s when c does not occur. */
  function Before(s: string, c: char): (r: string)
    ensures r <= s && c !in r && (|r| < |s| ==> s[|r|] == c)
    ensures c !in s ==> r == s
  {
    if s == "" || s[0] == c then "" else [s[0]] + Before(s[1..], c)
  }

  lemma BeforeIs(s: string, r: string, c: char)
    requires r <= s && c !in r && (|r| < |s| ==> s[|r|] == c)
    ensures Before(s, c) == r
  {
    var b := Before(s, c);
    assert b == s[..|b|] && r == s[..|r|];
  }

  lemma {:induction false} TrimRightStops(s: string, e: nat)
    requires e <= |s| && (forall k :: e <= k < |s| ==> IsBlank(s[k])) && (e > 0 ==> !IsBlank(s[e - 1]))
    ensures TrimRight(s) == s[..e]
  {
    if e < |s| {
      assert s[..|s| - 1][..e] == s[..e];
      TrimRightStops(s[..|s| - 1], e);
    } else {
      assert s[..e] == s;
    }
  }

  lemma {:induction false} TrimLeftStops(s: string, b: nat)
    requires b <= |s| && (forall k :: 0 <= k < b ==> IsBlank(s[k])) && (b < |s| ==> !IsBlank(s[b]))
    ensures TrimLeft(s) == s[b..]
  {
    if b > 0 {
      assert s[1..][b - 1..] == s[b..];
      TrimLeftStops(s[1..], b - 1);
    }
  }

  // ---- in a buffer ----

  /** The index of the first NUL at or after i; the length when there is none. */
  function NulAt(a: seq<char>, i: nat): (r: nat)
    requires i <= |a|
    ensures i <= r <= |a| && (r < |a| ==> a[r] == NUL)
    ensures forall k :: i <= k < r ==> a[k] != NUL
    decreases |a| - i
  {
    if i == |a| || a[i] == NUL then i else NulAt(a, i + 1)
  }

  /** The string that starts at i. */
  function CStr(a: seq<char>, i: nat): string
    requires i <= |a|
  {
    a[i..NulAt(a, i)]
  }

  predicate Terminated(a: seq<char>, i: nat) {
    i < |a| && NulAt(a, i) < |a|
  }

  lemma NulIs(a: seq<char>, i: nat, r: nat)
    requires i <= r <= |a| && (r < |a| ==> a[r] == NUL) && forall k :: i <= k < r ==> a[k] != NUL
    ensures NulAt(a, i) == r
  {
  }

  /** Writing a NUL at j ends the string there and leaves what follows. */
  lemma Cut(a: seq<char>, i: nat, j: nat)
    requires i <= j < |a| && j <= NulAt(a, i)
    ensures CStr(a[j := NUL], i) == CStr(a, i)[..j - i] && Terminated(a[j := NUL], i)
    ensures a[j := NUL][j + 1..] == a[j + 1..]
  {
    NulIs(a[j := NUL], i, j);
  }

  /** Strings inside an unchanged suffix are unchanged. */
  lemma SameSuffix(a: seq<char>, b: seq<char>, i: nat, k: nat)
    requires k <= i <= |a| == |b| && a[k..] == b[k..]
    ensures NulAt(a, i) == NulAt(b, i) && CStr(a, i) == CStr(b, i)
  {
    assert forall j :: k <= j < |a| ==> a[j] == a[k..][j - k] == b[k..][j - k] == b[j];
    NulIs(b, i, NulAt(a, i));
  }

  /** Moving on to a later start inside the string keeps its end. */
  lemma SameEnd(a: seq<char>, i: nat, s: nat)
    requires i <= s <= |a| && s <= NulAt(a, i)
    ensures NulAt(a, s) == NulAt(a, i)
  {
    NulIs(a, s, NulAt(a, i));
  }

  /** strchr: the first c in the string at i. */
  method Strchr(a: array<char>, i: nat, c: char) returns (at: Option<nat>)
    requires Terminated(a[..], i) && c != NUL
    ensures at.None? ==> c !in CStr(a[..], i)
    ensures at.Some? ==> i <= at.value < NulAt(a[..], i) && CStr(a[..], i)[at.value - i] == c
    ensures at.Some? ==> c !in CStr(a[..], i)[..at.value - i]
  {
    var p := i;
    while a[p] != NUL
      invariant i <= p <= NulAt(a[..], i) && forall k :: i <= k < p ==> a[k] != c
      decreases a.Length - p
    {
      if a[p] == c {
        return Some(p);
      }
      p := p + 1;
    }
    return None;
  }

  /** The end of the trimmed text: everything behind it is blank. */
  lemma TrimmedIs(text: string, b: nat, e: nat)
    requires b < e <= |text|
    requires (forall k :: 0 <= k < b ==> IsBlank(text[k])) && !IsBlank(text[b])
    requires (forall k :: e <= k < |text| ==> IsBlank(text[k])) && !IsBlank(text[e - 1])
    ensures Trimmed(text) == text[b..e]
  {
    TrimLeftStops(text, b);
    TrimRightStops(text[b..], e - b);
    assert text[b..][..e - b] == text[b..e];
  }

  lemma AllBlank(text: string)
    requires forall k :: 0 <= k < |text| ==> IsBlank(text[k])
    ensures Trimmed(text) == ""
  {
    TrimLeftStops(text, |text|);
  }

  /** Skips leading blanks. */
  method SkipBlanks(a: array<char>, start: nat) returns (s: nat)
    requires Terminated(a[..], start)
    ensures start <= s <= NulAt(a[..], start) && !IsBlank(a[s])
    ensures forall k :: start <= k < s ==> IsBlank(a[k])
  {
    s := start;
    while IsBlank(a[s])
      invariant start <= s <= NulAt(a[..], start) && forall k :: start <= k < s ==> IsBlank(a[k])
      decreases a.Length - s
    {
      s := s + 1;
    }
  }

  method Strlen(a: array<char>, s: nat) returns (n: nat)
    requires Terminated(a[..], s)
    ensures n == NulAt(a[..], s) - s
  {
    n := 0;
    while a[s + n] != NUL
      invariant s + n <= NulAt(a[..], s)
      decreases a.Length - n
    {
      n := n + 1;
    }
  }

  /** Overwrites trailing blanks with NULs. */
  method ChopBlanks(a: array<char>, s: nat) returns (end: nat)
    requires Terminated(a[..], s) && s < NulAt(a[..], s) && !IsBlank(a[s])
    modifies a
    ensures s <= end < old(NulAt(a[..], s)) && !IsBlank(old(a[end]))
    ensures forall k :: end < k < old(NulAt(a[..], s)) ==> IsBlank(old(a[k]))
    ensures forall k :: 0 <= k < a.Length ==>
      a[k] == if end < k < old(NulAt(a[..], s)) then NUL else old(a[k])
  {
    var n := Strlen(a, s);
    ghost var nul := s + n;
    end := s + n - 1;
    while end > s && IsBlank(a[end])
      invariant s <= end < nul
      invariant forall k :: end < k < nul ==> IsBlank(old(a[k]))
      invariant forall k :: 0 <= k < a.Length ==> a[k] == if end < k < nul then NUL else old(a[k])
    {
      a[end] := NUL;
      end := end - 1;
    }
  }

  /** What SkipBlanks and ChopBlanks leave between them is the trimmed text. */
  lemma TrimWindow(before: seq<char>, start: nat, s: nat, end: nat, nul: nat)
    requires start <= s <= end < nul <= |before|
    requires (forall k :: start <= k < s ==> IsBlank(before[k])) && !IsBlank(before[s])
    requires (forall k :: end < k < nul ==> IsBlank(before[k])) && !IsBlank(before[end])
    ensures Trimmed(before[start..nul]) == before[s..end + 1]
  {
    hide Trimmed, IsBlank;
    TrimmedIs(before[start..nul], s - start, end + 1 - start);
  }

  lemma ChoppedString(before: seq<char>, after: seq<char>, s: nat, end: nat, nul: nat)
    requires s <= end < nul < |before| == |after| && nul == NulAt(before, s)
    requires forall k :: 0 <= k < |before| ==> after[k] == if end < k < nul then NUL else before[k]
    ensures CStr(after, s) == before[s..end + 1] && Terminated(after, s)
  {
    NulIs(after, s, end + 1);
  }

  /** `trim`: trims the string at `start` in place and returns where it now starts. */
  method Trim(a: array<char>, start: nat) returns (s: nat)
    requires Terminated(a[..], start)
    modifies a
    ensures start <= s <= old(NulAt(a[..], start)) && Terminated(a[..], s)
    ensures CStr(a[..], s) == Trimmed(old(CStr(a[..], start)))
    ensures a[..start] == old(a[..start])
    ensures a[old(NulAt(a[..], start))..] == old(a[NulAt(a[..], start)..])
  {
    ghost var before, nul := a[..], NulAt(a[..], start);
    s := SkipBlanks(a, start);
    SameEnd(before, start, s);
    if a[s] == NUL {
      AllBlank(CStr(before, start));
      return;
    }
    var end := ChopBlanks(a, s);
    TrimWindow(before, start, s, end, nul);
    ChoppedString(before, a[..], s, end, nul);
    hide NulAt, Trimmed, IsBlank;
  }
}
