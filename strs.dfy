/**
 * String primitives that the C++ standard library (`std::string::find`,
 * `find_last_of`, `substr`) and JavaScript (`indexOf`, `lastIndexOf`,
 * `startsWith`, `endsWith`, `join`) supply to the code being modelled.
 * Strings are `seq<char>`; case mapping is ASCII-only.
 */
module Strs {
  import opened Wrappers

  /** `p` occurs in `s` starting at index `j`. */
  predicate MatchAt(s: string, p: string, j: int)
  {
    0 <= j && j + |p| <= |s| && s[j..j + |p|] == p
  }

  /**
   * `s.find(p, from)` / `s.indexOf(p, from)`: the first index at or after
   * `from` where `p` occurs, or None (`npos`, -1).
   */
  function FindFrom(s: string, p: string, from: nat): (r: Option<nat>)
    decreases |s| - from
    ensures r.Some? ==> from <= r.value && MatchAt(s, p, r.value)
  {
    if from + |p| > |s| then None
    else if s[from..from + |p|] == p then Some(from)
    else FindFrom(s, p, from + 1)
  }

  /** The search finds the first occurrence: none lies between `from` and it, or after `from` at all. */
  lemma {:induction false} FindFromFirst(s: string, p: string, from: nat)
    decreases |s| - from
    ensures FindFrom(s, p, from).Some? ==> forall j :: from <= j < FindFrom(s, p, from).value ==> !MatchAt(s, p, j)
    ensures FindFrom(s, p, from).None? ==> forall j :: from <= j ==> !MatchAt(s, p, j)
  {
    if from + |p| <= |s| && s[from..from + |p|] != p {
      FindFromFirst(s, p, from + 1);
    }
  }

  /** `s.find(p)` / `s.indexOf(p)`. */
  function Find(s: string, p: string): (r: Option<nat>)
    ensures r.Some? ==> MatchAt(s, p, r.value)
  {
    FindFrom(s, p, 0)
  }

  /** The first occurrence, as for `FindFrom`. */
  lemma FindFirst(s: string, p: string)
    ensures Find(s, p).Some? ==> forall j :: 0 <= j < Find(s, p).value ==> !MatchAt(s, p, j)
    ensures Find(s, p).None? ==> forall j :: 0 <= j ==> !MatchAt(s, p, j)
  {
    FindFromFirst(s, p, 0);
  }

  /** A match at `k` with none before it is what the search finds. */
  lemma FindIs(s: string, p: string, k: nat)
    requires MatchAt(s, p, k)
    requires forall j :: 0 <= j < k ==> !MatchAt(s, p, j)
    ensures Find(s, p) == Some(k)
  {
    FindFirst(s, p);
  }

  /** `s.find(p) != npos`, `s.indexOf(p) !== -1`. */
  predicate Contains(s: string, p: string)
  {
    Find(s, p).Some?
  }

  lemma ContainsAt(s: string, p: string, j: int)
    requires MatchAt(s, p, j)
    ensures Contains(s, p)
  {
    FindFirst(s, p);
  }

  predicate StartsWith(s: string, p: string)
  {
    |p| <= |s| && s[..|p|] == p
  }

  predicate EndsWith(s: string, p: string)
  {
    |p| <= |s| && s[|s| - |p|..] == p
  }

  /**
   * `s.find_last_of(c, pos)` / `s.lastIndexOf(c, pos)`: the greatest index
   * `j <= pos` holding `c`.
   */
  function LastIndexOfUpTo(s: string, c: char, pos: int): (r: Option<nat>)
    decreases if pos < 0 then 0 else pos + 1
    ensures r.Some? ==> r.value <= pos && r.value < |s| && s[r.value] == c
    ensures r.Some? ==> forall j :: r.value < j <= pos && j < |s| ==> s[j] != c
    ensures r.None? ==> forall j :: 0 <= j <= pos && j < |s| ==> s[j] != c
  {
    if pos < 0 then None
    else if pos >= |s| then LastIndexOfUpTo(s, c, |s| - 1)
    else if s[pos] == c then Some(pos)
    else LastIndexOfUpTo(s, c, pos - 1)
  }

  /** `s.lastIndexOf(c)`. */
  function LastIndexOf(s: string, c: char): (r: Option<nat>)
    ensures r.Some? ==> r.value < |s| && s[r.value] == c
    ensures r.Some? ==> forall j :: r.value < j < |s| ==> s[j] != c
    ensures r.None? ==> forall j :: 0 <= j < |s| ==> s[j] != c
  {
    LastIndexOfUpTo(s, c, |s| - 1)
  }

  predicate IsUpper(c: char) { 'A' <= c <= 'Z' }
  predicate IsLower(c: char) { 'a' <= c <= 'z' }
  predicate IsLetter(c: char) { IsUpper(c) || IsLower(c) }
  predicate IsDigit(c: char) { '0' <= c <= '9' }
  /** A character of the regular-expression class `\w`. */
  predicate IsWordChar(c: char) { IsLetter(c) || IsDigit(c) || c == '_' }

  function ToUpperChar(c: char): (r: char)
    ensures IsLower(c) ==> IsUpper(r)
    ensures !IsLower(c) ==> r == c
  {
    if IsLower(c) then (c as int - 32) as char else c
  }

  function ToLowerChar(c: char): (r: char)
    ensures IsUpper(c) ==> IsLower(r)
    ensures !IsUpper(c) ==> r == c
  {
    if IsUpper(c) then (c as int + 32) as char else c
  }

  /** `toUpperCase()` restricted to ASCII. */
  function ToUpper(s: string): (r: string)
    ensures |r| == |s|
    ensures forall i :: 0 <= i < |s| ==> r[i] == ToUpperChar(s[i])
  {
    if s == [] then [] else [ToUpperChar(s[0])] + ToUpper(s[1..])
  }

  /** `toLowerCase()` restricted to ASCII. */
  function ToLower(s: string): (r: string)
    ensures |r| == |s|
    ensures forall i :: 0 <= i < |s| ==> r[i] == ToLowerChar(s[i])
  {
    if s == [] then [] else [ToLowerChar(s[0])] + ToLower(s[1..])
  }

  /** `parts.join(sep)`. */
  function Join(parts: seq<string>, sep: string): (r: string)
    ensures parts == [] ==> r == []
    ensures |parts| == 1 ==> r == parts[0]
  {
    if parts == [] then []
    else if |parts| == 1 then parts[0]
    else parts[0] + sep + Join(parts[1..], sep)
  }

  /** Concatenation of every part, in order. */
  function Concat(parts: seq<string>): (r: string)
    ensures |parts| == 1 ==> r == parts[0]
  {
    if parts == [] then [] else parts[0] + Concat(parts[1..])
  }

  function DigitChar(d: nat): (c: char)
    requires d < 10
    ensures IsDigit(c)
  {
    ('0' as int + d) as char
  }

  /** Decimal rendering of a natural number (`<<` on a stream, `String(n)`). */
  function NatToString(n: nat): (r: string)
    ensures |r| > 0
    ensures forall i :: 0 <= i < |r| ==> IsDigit(r[i])
    ensures n < 10 ==> r == [DigitChar(n)]
  {
    if n < 10 then [DigitChar(n)] else NatToString(n / 10) + [DigitChar(n % 10)]
  }

  /** Decimal rendering of an integer, with a leading '-' when negative. */
  function IntToString(n: int): (r: string)
    ensures |r| > 0
    ensures n >= 0 ==> r == NatToString(n)
    ensures n < 0 ==> r == "-" + NatToString(-n)
  {
    if n < 0 then "-" + NatToString(-n) else NatToString(n)
  }

  /** Every occurrence of the character `a` replaced by `b` (a global one-character regex replace). */
  function MapChar(s: string, a: char, b: string): (r: string)
    ensures a !in s ==> r == s
    ensures |b| == 1 ==> |r| == |s|
  {
    if s == [] then [] else (if s[0] == a then b else [s[0]]) + MapChar(s[1..], a, b)
  }

  /** Every character of `s` that is not `c`, in order. */
  function RemoveChar(s: string, c: char): (r: string)
    ensures c !in r
    ensures |r| <= |s|
    ensures c in s ==> |r| < |s|
    ensures c !in s ==> r == s
  {
    if s == [] then [] else (if s[0] == c then [] else [s[0]]) + RemoveChar(s[1..], c)
  }

  predicate AllDigits(s: string)
  {
    forall k :: 0 <= k < |s| ==> IsDigit(s[k])
  }

  /** The value of a string of decimal digits. */
  function DigitsValue(s: string): nat
    requires AllDigits(s)
  {
    if s == [] then 0 else DigitsValue(s[..|s| - 1]) * 10 + (s[|s| - 1] as int - '0' as int)
  }

  /** The digits of a number are worth the number. */
  lemma {:induction false} NatToStringValue(n: nat)
    ensures AllDigits(NatToString(n))
    ensures DigitsValue(NatToString(n)) == n
  {
    if n >= 10 {
      NatToStringValue(n / 10);
      var s := NatToString(n);
      assert s[..|s| - 1] == NatToString(n / 10);
    }
  }

  /** Different numbers have different renderings. */
  lemma NatToStringInjective()
    ensures forall m: nat, n: nat :: NatToString(m) == NatToString(n) ==> m == n
  {
    forall m: nat, n: nat | NatToString(m) == NatToString(n)
      ensures m == n
    {
      NatToStringValue(m);
      NatToStringValue(n);
    }
  }

  /** Only zero is rendered with a leading '0'. */
  lemma {:induction false} NatToStringNoLeadingZero(n: nat)
    ensures |NatToString(n)| > 1 ==> NatToString(n)[0] != '0'
  {
    if n >= 10 {
      NatToStringNoLeadingZero(n / 10);
      assert NatToString(n)[0] == NatToString(n / 10)[0];
    }
  }
}
