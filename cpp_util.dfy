/**
 * The string utilities of the metabase generator (src/util.cpp):
 * `trim`, `replace`, `count`, `repeat`, `tokenizeInto`, `camelCase` and
 * `cleanString`. Each loop of the source is a method proved against a
 * specification function; the functions are what the rest of the model uses.
 */
module MetabaseUtil {
  import opened Wrappers
  import opened Strs

  /** `std::isspace` in the "C" locale. */
  predicate IsCSpace(c: char)
  {
    c == ' ' || c == '\t' || c == '\n' || c == '\U{000B}' || c == '\U{000C}' || c == '\r'
  }

  /** `ltrim`: drops the leading whitespace. */
  function TrimLeft(s: string): (r: string)
    ensures |r| <= |s|
    ensures r == [] || !IsCSpace(r[0])
  {
    if s != [] && IsCSpace(s[0]) then TrimLeft(s[1..]) else s
  }

  /** `ltrim` keeps a suffix and drops only whitespace before it. */
  lemma {:induction false} TrimLeftDrops(s: string)
    ensures TrimLeft(s) == s[|s| - |TrimLeft(s)|..]
    ensures forall k :: 0 <= k < |s| - |TrimLeft(s)| ==> IsCSpace(s[k])
  {
    if s != [] && IsCSpace(s[0]) {
      TrimLeftDrops(s[1..]);
    }
  }

  /** `rtrim`: drops the trailing whitespace. */
  function TrimRight(s: string): (r: string)
    ensures |r| <= |s|
    ensures r == [] || !IsCSpace(r[|r| - 1])
  {
    if s != [] && IsCSpace(s[|s| - 1]) then TrimRight(s[..|s| - 1]) else s
  }

  /** `rtrim` keeps a prefix and drops only whitespace after it. */
  lemma {:induction false} TrimRightDrops(s: string)
    ensures TrimRight(s) == s[..|TrimRight(s)|]
    ensures forall k :: |TrimRight(s)| <= k < |s| ==> IsCSpace(s[k])
  {
    if s != [] && IsCSpace(s[|s| - 1]) {
      TrimRightDrops(s[..|s| - 1]);
    }
  }

  predicate IsTrimmed(s: string)
  {
    s == [] || (!IsCSpace(s[0]) && !IsCSpace(s[|s| - 1]))
  }

  /** `trim` = `ltrim(rtrim(s))`. */
  function Trim(s: string): (r: string)
    ensures |r| <= |s|
    ensures IsTrimmed(r)
  {
    TrimRightDrops(s);
    TrimLeftDrops(TrimRight(s));
    TrimLeft(TrimRight(s))
  }

  /** `r` is `s[i..j]` and `s` holds only whitespace outside `[i, j)`. */
  predicate IsMiddle(s: string, r: string, i: nat, j: nat)
  {
    i <= j <= |s| && r == s[i..j]
    && (forall k :: 0 <= k < i ==> IsCSpace(s[k]))
    && (forall k :: j <= k < |s| ==> IsCSpace(s[k]))
  }

  /**
   * Trim keeps a contiguous middle of its input and drops only whitespace
   * around it.
   */
  lemma TrimIsMiddle(s: string)
    ensures exists i: nat, j: nat :: IsMiddle(s, Trim(s), i, j)
  {
    var m := TrimRight(s);
    var r := TrimLeft(m);
    TrimRightDrops(s);
    TrimLeftDrops(m);
    var i, j := |m| - |r|, |m|;
    assert r == m[i..] && m == s[..j];
    assert r == s[i..j];
    forall k | 0 <= k < i ensures IsCSpace(s[k]) {
      assert s[k] == m[k];
    }
    assert IsMiddle(s, Trim(s), i, j);
  }

  /** Trimming a trimmed string changes nothing. */
  lemma TrimTrimmed(s: string)
    requires IsTrimmed(s)
    ensures Trim(s) == s
  {
  }

  lemma TrimIdempotent(s: string)
    ensures Trim(Trim(s)) == Trim(s)
  {
    TrimTrimmed(Trim(s));
  }

  // ---------------------------------------------------------------- replace

  /**
   * What `replace(str, from, to)` computes from offset `k` on: every
   * occurrence of `from` found scanning left to right is replaced and the
   * scan resumes after it, so inserted text is never rescanned.
   */
  function ReplacedFrom(s: string, from: string, to: string, k: nat): (r: string)
    requires |from| > 0 && k <= |s|
    decreases |s| - k
    ensures FindFrom(s, from, k).None? ==> r == s[k..]
  {
    match FindFrom(s, from, k)
    case None => s[k..]
    case Some(i) => s[k..i] + to + ReplacedFrom(s, from, to, i + |from|)
  }

  /**
   * What `replace(str, from, to)` returns. An empty `from` makes the
   * source loop forever, hence the precondition.
   */
  function Replaced(s: string, from: string, to: string): (r: string)
    requires |from| > 0
    ensures !Contains(s, from) ==> r == s
  {
    ReplacedFrom(s, from, to, 0)
  }

  /** A replacement no longer than its pattern never lengthens the text after `k`. */
  lemma {:induction false} ReplacedFromNoLonger(s: string, from: string, to: string, k: nat)
    requires |from| > 0 && k <= |s| && |to| <= |from|
    decreases |s| - k
    ensures |ReplacedFrom(s, from, to, k)| <= |s| - k
  {
    match FindFrom(s, from, k)
    case None =>
    case Some(i) =>
      assert MatchAt(s, from, i);
      ReplacedFromNoLonger(s, from, to, i + |from|);
  }

  lemma ReplacedNoLonger(s: string, from: string, to: string)
    requires |from| > 0 && |to| <= |from|
    ensures |Replaced(s, from, to)| <= |s|
  {
    ReplacedFromNoLonger(s, from, to, 0);
  }

  /**
   * On two strings with a common suffix, searches at the same distance into
   * that suffix find the same occurrence.
   */
  lemma {:induction false} FindFromCommonSuffix(a: string, b: string, p: string, ka: nat, kb: nat, m: nat)
    requires ka <= |a| && kb <= |b| && a[ka..] == b[kb..]
    ensures FindFrom(a, p, ka + m).None? <==> FindFrom(b, p, kb + m).None?
    ensures FindFrom(a, p, ka + m).Some? ==>
      FindFrom(a, p, ka + m).value - ka == FindFrom(b, p, kb + m).value - kb
    decreases |a| - ka - m
  {
    if ka + m + |p| <= |a| {
      assert a[ka..][m..m + |p|] == a[ka + m..ka + m + |p|];
      assert b[kb..][m..m + |p|] == b[kb + m..kb + m + |p|];
      if a[ka + m..ka + m + |p|] != p {
        FindFromCommonSuffix(a, b, p, ka, kb, m + 1);
      }
    }
  }

  /** `replace` resumes after the first occurrence at or after `k`. */
  lemma ReplacedFromAt(s: string, from: string, to: string, k: nat, i: nat)
    requires |from| > 0 && k <= |s|
    requires FindFrom(s, from, k) == Some(i)
    ensures ReplacedFrom(s, from, to, k) == s[k..i] + to + ReplacedFrom(s, from, to, i + |from|)
  {
    assert MatchAt(s, from, i);
  }

  /**
   * What `replace`'s loop keeps: `r` agrees with `str` from `start` and `p`
   * on, and the text before `start` followed by what is left to replace is
   * the final result.
   */
  ghost predicate ReplacePending(str: string, from: string, to: string, r: string, start: nat, p: nat)
    requires |from| > 0
  {
    start <= |r| && p <= |str| && r[start..] == str[p..]
    && Replaced(str, from, to) == r[..start] + ReplacedFrom(str, from, to, p)
  }

  /** One iteration of `replace`'s loop keeps what is left to compute unchanged. */
  lemma ReplaceStep(str: string, r: string, from: string, to: string, start: nat, p: nat, i: nat, next: string)
    returns (q: nat)
    requires |from| > 0 && ReplacePending(str, from, to, r, start, p)
    requires FindFrom(r, from, start) == Some(i) && next == r[..i] + to + r[i + |from|..]
    ensures ReplacePending(str, from, to, next, i + |to|, q + |from|)
  {
    FindFromCommonSuffix(r, str, from, start, p, 0);
    q := FindFrom(str, from, p).value;
    ReplacedFromAt(str, from, to, p, q);
    var x := ReplacedFrom(str, from, to, q + |from|);
    SliceAlgebra(str, r, to, start, p, i, q, |from|);
    ConcatRegroup(r[..start], str[p..q], to, x);
  }

  lemma ConcatRegroup(a: string, b: string, c: string, x: string)
    ensures a + (b + c + x) == (a + b + c) + x
  {
  }

  lemma SliceAlgebra(str: string, r: string, to: string, start: nat, p: nat, i: nat, q: nat, n: nat)
    requires start <= i && i + n <= |r| && p <= q && q + n <= |str|
    requires r[start..] == str[p..] && i - start == q - p
    ensures var next := r[..i] + to + r[i + n..];
      r[start..i] == str[p..q]
      && next[..i + |to|] == r[..start] + r[start..i] + to
      && next[i + |to|..] == str[q + n..]
  {
    assert r[start..i] == r[start..][..i - start];
    assert str[p..q] == str[p..][..q - p];
    assert r[i + n..] == r[start..][i - start + n..];
    assert str[q + n..] == str[p..][q - p + n..];
  }

  /** The loop of util.cpp's `replace`, rewriting `r` in place. */
  method Replace(str: string, from: string, to: string) returns (r: string)
    requires |from| > 0
    ensures r == Replaced(str, from, to)
  {
    r := str;
    var start: nat := 0;
    ghost var p: nat := 0;
    while true
      invariant ReplacePending(str, from, to, r, start, p)
      decreases |r| - start
    {
      var found := FindFrom(r, from, start);
      if found.None? {
        FindFromCommonSuffix(r, str, from, start, p, 0);
        assert r == r[..start] + r[start..];
        return;
      }
      var i := found.value;
      var next := r[..i] + to + r[i + |from|..];
      ghost var q := ReplaceStep(str, r, from, to, start, p, i, next);
      assert ReplacePending(str, from, to, next, i + |to|, q + |from|);
      r, start, p := next, i + |to|, q + |from|;
      assert ReplacePending(str, from, to, r, start, p);
    }
  }

  /** What a search for a one-character pattern tells about the characters it passed. */
  lemma FindFromChar(s: string, c: char, k: nat)
    requires k <= |s|
    ensures FindFrom(s, [c], k).None? ==> c !in s[k..]
    ensures FindFrom(s, [c], k).Some? ==>
      var i := FindFrom(s, [c], k).value;
      i < |s| && s[i] == c && c !in s[k..i]
  {
    FindFromFirst(s, [c], k);
    var f := FindFrom(s, [c], k);
    var e := if f.Some? then f.value else |s|;
    forall j | k <= j < e ensures s[j] != c {
      assert !MatchAt(s, [c], j);
      assert s[j..j + 1] == [s[j]];
    }
    CharNotIn(s, c, k, e);
    if f.Some? {
      assert s[f.value] == s[f.value..f.value + 1][0];
    } else {
      assert s[k..e] == s[k..];
    }
  }

  /** A character absent from every position of a stretch is not in it. */
  lemma CharNotIn(s: string, c: char, k: nat, e: nat)
    requires k <= e <= |s| && forall j :: k <= j < e ==> s[j] != c
    ensures c !in s[k..e]
  {
    forall x | 0 <= x < e - k ensures s[k..e][x] != c {
      assert s[k..e][x] == s[k + x];
    }
  }

  /** Replacing a one-character `from` by nothing deletes every occurrence of it. */
  lemma {:induction false} ReplacedFromDeletesChar(s: string, c: char, k: nat)
    requires k <= |s|
    ensures ReplacedFrom(s, [c], [], k) == RemoveChar(s[k..], c)
    decreases |s| - k
  {
    FindFromChar(s, c, k);
    match FindFrom(s, [c], k)
    case None =>
    case Some(i) =>
      ReplacedFromAt(s, [c], [], k, i);
      ReplacedFromDeletesChar(s, c, i + 1);
      RemoveCharAround(s, c, k, i);
      assert s[k..i] + [] == s[k..i];
  }

  lemma RemoveCharAround(s: string, c: char, k: nat, i: nat)
    requires k <= i < |s| && s[i] == c && c !in s[k..i]
    ensures RemoveChar(s[k..], c) == s[k..i] + RemoveChar(s[i + 1..], c)
  {
    assert s[k..] == (s[k..i] + [c]) + s[i + 1..];
    RemoveCharSplit(s[k..i] + [c], s[i + 1..], c);
    RemoveCharSplit(s[k..i], [c], c);
  }

  lemma ReplacedDeletesChar(s: string, c: char)
    ensures Replaced(s, [c], []) == RemoveChar(s, c)
  {
    ReplacedFromDeletesChar(s, c, 0);
    assert s[0..] == s;
  }

  lemma {:induction false} RemoveCharSplit(a: string, b: string, c: char)
    ensures RemoveChar(a + b, c) == RemoveChar(a, c) + RemoveChar(b, c)
    decreases |a|
  {
    if a == [] {
      assert a + b == b;
    } else {
      assert (a + b)[1..] == a[1..] + b;
      RemoveCharSplit(a[1..], b, c);
    }
  }

  /** Replacing a one-character `from` by one other character maps every occurrence. */
  lemma {:induction false} ReplacedFromMapsChar(s: string, a: char, b: char, k: nat)
    requires k <= |s|
    ensures ReplacedFrom(s, [a], [b], k) == MapChar(s[k..], a, [b])
    decreases |s| - k
  {
    FindFromChar(s, a, k);
    match FindFrom(s, [a], k)
    case None =>
    case Some(i) =>
      ReplacedFromAt(s, [a], [b], k, i);
      ReplacedFromMapsChar(s, a, b, i + 1);
      MapCharAround(s, a, [b], k, i);
  }

  lemma MapCharAround(s: string, a: char, b: string, k: nat, i: nat)
    requires k <= i < |s| && s[i] == a && a !in s[k..i]
    ensures MapChar(s[k..], a, b) == s[k..i] + b + MapChar(s[i + 1..], a, b)
  {
    assert s[k..] == (s[k..i] + [a]) + s[i + 1..];
    MapCharSplit(s[k..i] + [a], s[i + 1..], a, b);
    MapCharSplit(s[k..i], [a], a, b);
  }

  lemma ReplacedMapsChar(s: string, a: char, b: char)
    ensures Replaced(s, [a], [b]) == MapChar(s, a, [b])
  {
    ReplacedFromMapsChar(s, a, b, 0);
    assert s[0..] == s;
  }

  lemma {:induction false} MapCharSplit(x: string, y: string, a: char, b: string)
    ensures MapChar(x + y, a, b) == MapChar(x, a, b) + MapChar(y, a, b)
    decreases |x|
  {
    if x == [] {
      assert x + y == y;
    } else {
      assert (x + y)[1..] == x[1..] + y;
      MapCharSplit(x[1..], y, a, b);
    }
  }

  lemma {:induction false} MapCharRemoves(s: string, a: char, b: char)
    requires a != b
    ensures a !in MapChar(s, a, [b])
    decreases |s|
  {
    if s != [] {
      MapCharRemoves(s[1..], a, b);
    }
  }

  // ------------------------------------------------------------------ count

  /** Number of (possibly overlapping) occurrences of `item` at or after `k`. */
  function CountFrom(s: string, item: string, k: nat): nat
    decreases |s| + 1 - k
  {
    if k + |item| > |s| then 0
    else (if MatchAt(s, item, k) then 1 else 0) + CountFrom(s, item, k + 1)
  }

  /** What `count(str, item)` computes: every start position of `item`. */
  function Occurrences(s: string, item: string): nat
  {
    CountFrom(s, item, 0)
  }

  lemma {:induction false} CountFromSkips(s: string, item: string, k: nat, pos: nat)
    requires k <= pos
    requires forall j :: k <= j < pos ==> !MatchAt(s, item, j)
    ensures CountFrom(s, item, k) == CountFrom(s, item, pos)
    decreases pos - k
  {
    if k < pos {
      CountFromSkips(s, item, k + 1, pos);
    }
  }

  lemma {:induction false} CountFromNone(s: string, item: string, k: nat)
    requires forall j :: k <= j ==> !MatchAt(s, item, j)
    ensures CountFrom(s, item, k) == 0
    decreases |s| + 1 - k
  {
    if k + |item| <= |s| {
      CountFromNone(s, item, k + 1);
    }
  }

  /** The loop of util.cpp's `count`: overlapping matches, advancing one position. */
  method Count(str: string, item: string) returns (n: nat)
    ensures n == Occurrences(str, item)
  {
    n := 0;
    var start: nat := 0;
    while true
      invariant start <= |str| + 1
      invariant n + CountFrom(str, item, start) == Occurrences(str, item)
      decreases |str| + 1 - start
    {
      var found := FindFrom(str, item, start);
      FindFromFirst(str, item, start);
      if found.None? {
        CountFromNone(str, item, start);
        return;
      }
      CountFromSkips(str, item, start, found.value);
      n, start := n + 1, found.value + 1;
    }
  }

  /** Number of positions of `s` holding `c`. */
  function CharCount(s: string, c: char): nat
  {
    if s == [] then 0 else (if s[0] == c then 1 else 0) + CharCount(s[1..], c)
  }

  /** A string holding `c` counts it at least once. */
  lemma {:induction false} CharCountPositive(s: string, c: char, j: nat)
    requires j < |s| && s[j] == c
    ensures CharCount(s, c) > 0
  {
    if j > 0 {
      CharCountPositive(s[1..], c, j - 1);
    }
  }

  lemma {:induction false} CountFromChar(s: string, c: char, k: nat)
    requires k <= |s|
    ensures CountFrom(s, [c], k) == CharCount(s[k..], c)
    decreases |s| - k
  {
    if k < |s| {
      CountFromChar(s, c, k + 1);
      assert s[k..][1..] == s[k + 1..];
    } else {
      assert s[k..] == [];
    }
  }

  /** `count(s, "*")` counts the '*' characters, each deleted by `replace(s, "*", "")`. */
  lemma OccurrencesOfChar(s: string, c: char)
    ensures Occurrences(s, [c]) == CharCount(s, c)
    ensures |Replaced(s, [c], [])| == |s| - CharCount(s, c)
  {
    CountFromChar(s, c, 0);
    assert s[0..] == s;
    ReplacedDeletesChar(s, c);
    RemoveCharLength(s, c);
  }

  /** Once `replace(s, c, "")` has deleted a character, the trimmed remainder does not contain it. */
  lemma DeletedCharAbsent(s: string, c: char)
    ensures !Contains(Trim(Replaced(s, [c], [])), [c])
  {
    ReplacedDeletesChar(s, c);
    var u := Replaced(s, [c], []);
    var t := Trim(u);
    TrimIsMiddle(u);
    var i: nat, j: nat :| IsMiddle(u, t, i, j);
    forall p | 0 <= p < |t|
      ensures t[p] != c
    {
      assert t[p] == u[i + p];
    }
    ForeignCharNotContained(t, [c], 0);
  }

  lemma {:induction false} RemoveCharLength(s: string, c: char)
    ensures |RemoveChar(s, c)| == |s| - CharCount(s, c)
    decreases |s|
  {
    if s != [] {
      RemoveCharLength(s[1..], c);
    }
  }

  // ----------------------------------------------------------------- repeat

  /** `n` copies of `s`. */
  function Repeated(s: string, n: nat): string
  {
    if n == 0 then [] else Repeated(s, n - 1) + s
  }

  lemma {:induction false} RepeatedShape(s: string, n: nat)
    ensures |Repeated(s, n)| == n * |s|
    decreases n
  {
    if n > 0 {
      RepeatedShape(s, n - 1);
    }
  }

  /** `repeat("^", n)`: exactly `n` carets and nothing else. */
  lemma {:induction false} RepeatedChar(c: char, n: nat)
    ensures |Repeated([c], n)| == n
    ensures forall k :: 0 <= k < n ==> Repeated([c], n)[k] == c
    decreases n
  {
    if n > 0 {
      RepeatedChar(c, n - 1);
    }
  }

  /** The loop of util.cpp's `repeat`. */
  method Repeat(str: string, count: nat) returns (r: string)
    ensures r == Repeated(str, count)
    ensures |r| == count * |str|
  {
    r := [];
    var c := 0;
    while c < count
      invariant c <= count
      invariant r == Repeated(str, c)
    {
      r := r + str;
      c := c + 1;
    }
    RepeatedShape(str, count);
  }

  // --------------------------------------------------------------- tokenize

  /** The pieces `tokenizeInto` pushes, starting at offset `start`: empty pieces are kept. */
  function SplitFrom(s: string, d: string, start: nat): (r: seq<string>)
    requires |d| > 0 && start <= |s|
    decreases |s| - start
    ensures |r| > 0
  {
    match FindFrom(s, d, start)
    case None => [s[start..]]
    case Some(e) => [s[start..e]] + SplitFrom(s, d, e + |d|)
  }

  /** What `tokenize(str, delim)` returns: nothing for "", otherwise every piece between delimiters. */
  function Split(s: string, d: string): seq<string>
    requires |d| > 0
  {
    if s == [] then [] else SplitFrom(s, d, 0)
  }

  /** The loop of util.cpp's `tokenizeInto`, which appends to `result`. */
  method TokenizeInto(str: string, delim: string, result: seq<string>) returns (r: seq<string>)
    requires |delim| > 0
    ensures r == result + Split(str, delim)
  {
    r := result;
    if str == [] {
      return;
    }
    var start: nat := 0;
    while true
      invariant start <= |str|
      invariant result + SplitFrom(str, delim, 0) == r + SplitFrom(str, delim, start)
      decreases |str| - start
    {
      var end := FindFrom(str, delim, start);
      if end.None? {
        r := r + [str[start..]];
        return;
      }
      r := r + [str[start..end.value]];
      start := end.value + |delim|;
    }
  }

  /** `tokenize(s, delim)`. */
  method Tokenize(s: string, delim: string) returns (r: seq<string>)
    requires |delim| > 0
    ensures r == Split(s, delim)
  {
    r := TokenizeInto(s, delim, []);
  }

  /** Joining the pieces with the delimiter gives back the input. */
  lemma {:induction false} SplitFromJoin(s: string, d: string, start: nat)
    requires |d| > 0 && start <= |s|
    ensures Join(SplitFrom(s, d, start), d) == s[start..]
    decreases |s| - start
  {
    match FindFrom(s, d, start)
    case None =>
    case Some(e) =>
      SplitFromJoin(s, d, e + |d|);
      assert s[e..e + |d|] == d;
      assert s[start..] == s[start..e] + s[e..e + |d|] + s[e + |d|..];
  }

  lemma SplitJoin(s: string, d: string)
    requires |d| > 0
    ensures Join(Split(s, d), d) == s
  {
    if s != [] {
      SplitFromJoin(s, d, 0);
      assert s[0..] == s;
    }
  }

  /** No piece cut at a one-character delimiter contains that character. */
  lemma {:induction false} SplitFromNoDelim(s: string, c: char, start: nat)
    requires start <= |s|
    ensures forall t :: t in SplitFrom(s, [c], start) ==> c !in t
    decreases |s| - start
  {
    FindFromChar(s, c, start);
    match FindFrom(s, [c], start)
    case None =>
    case Some(e) =>
      SplitFromNoDelim(s, c, e + 1);
  }

  // -------------------------------------------------------------- camelCase

  /** A later token of camelCase: its first character upper-cased. */
  function Capitalize(t: string): (r: string)
    ensures |r| == |t|
  {
    if t == [] then [] else [ToUpperChar(t[0])] + t[1..]
  }

  /** The later tokens, each capitalised, concatenated. */
  function CapitalizeAll(ts: seq<string>): string
  {
    if ts == [] then [] else CapitalizeAll(ts[..|ts| - 1]) + Capitalize(ts[|ts| - 1])
  }

  /** The first token verbatim, every later token capitalised, concatenated. */
  function CamelJoin(tokens: seq<string>): string
  {
    if tokens == [] then [] else tokens[0] + CapitalizeAll(tokens[1..])
  }

  /**
   * What `camelCase(str)` returns: ':' becomes ' ', the string is cut at
   * ' ', the first token is kept verbatim and every later one capitalised.
   */
  function CamelCased(s: string): string
  {
    CamelJoin(Split(MapChar(s, ':', " "), " "))
  }

  /** util.cpp's `camelCase`. */
  method CamelCase(str: string) returns (r: string)
    ensures r == CamelCased(str)
  {
    var spaced := Replace(str, ":", " ");
    ReplacedMapsChar(str, ':', ' ');
    var tokens := Tokenize(spaced, " ");
    r := JoinCamel(tokens);
  }

  /** The loop of `camelCase` over the tokens. */
  method JoinCamel(tokens: seq<string>) returns (r: string)
    ensures r == CamelJoin(tokens)
  {
    if tokens == [] {
      return [];
    }
    r := tokens[0];
    var i := 1;
    assert tokens[1..1] == [];
    while i < |tokens|
      invariant 1 <= i <= |tokens|
      invariant r == tokens[0] + CapitalizeAll(tokens[1..i])
    {
      CapitalizeAllSnoc(tokens, i);
      ConcatAssoc(tokens[0], CapitalizeAll(tokens[1..i]), Capitalize(tokens[i]));
      r := r + Capitalize(tokens[i]);
      i := i + 1;
    }
    assert tokens[1..i] == tokens[1..];
  }

  lemma ConcatAssoc(a: string, b: string, c: string)
    ensures (a + b) + c == a + (b + c)
  {
  }

  lemma CapitalizeAllSnoc(ts: seq<string>, i: nat)
    requires 1 <= i < |ts|
    ensures CapitalizeAll(ts[1..i + 1]) == CapitalizeAll(ts[1..i]) + Capitalize(ts[i])
  {
    assert ts[1..i + 1][..i - 1] == ts[1..i];
  }

  lemma CapitalizeKeeps(t: string, c: char)
    requires c !in t && !IsLetter(c)
    ensures c !in Capitalize(t)
  {
  }

  lemma {:induction false} CapitalizeAllKeeps(ts: seq<string>, c: char)
    requires forall t :: t in ts ==> c !in t
    requires !IsLetter(c)
    ensures c !in CapitalizeAll(ts)
    decreases |ts|
  {
    if ts != [] {
      CapitalizeAllKeeps(ts[..|ts| - 1], c);
      CapitalizeKeeps(ts[|ts| - 1], c);
    }
  }

  /** A camel-cased selector holds neither ':' nor ' '. */
  lemma CamelCasedHasNoSeparators(s: string)
    ensures ':' !in CamelCased(s) && ' ' !in CamelCased(s)
  {
    var spaced := MapChar(s, ':', " ");
    MapCharRemoves(s, ':', ' ');
    if spaced != [] {
      SplitFromNoDelim(spaced, ' ', 0);
      var tokens := SplitFrom(spaced, " ", 0);
      assert tokens[0] in tokens;
      forall t | t in tokens[1..] ensures ':' !in t {
        SplitMembersIn(spaced, ' ', 0, t);
      }
      CapitalizeAllKeeps(tokens[1..], ' ');
      CapitalizeAllKeeps(tokens[1..], ':');
      SplitMembersIn(spaced, ' ', 0, tokens[0]);
    }
  }

  /** Every piece is a slice of the input, so a character absent from the input is absent from it. */
  lemma {:induction false} SplitMembersIn(s: string, c: char, start: nat, t: string)
    requires start <= |s|
    requires t in SplitFrom(s, [c], start)
    ensures forall x :: x in t ==> x in s
    decreases |s| - start
  {
    match FindFrom(s, [c], start)
    case None =>
    case Some(e) =>
      if t != s[start..e] {
        SplitMembersIn(s, c, e + 1, t);
      }
  }

  /** A name with neither ':' nor ' ' is its own camel case. */
  lemma CamelCasedPlain(s: string)
    requires ':' !in s && ' ' !in s
    ensures CamelCased(s) == s
  {
    if s != [] {
      FindFromChar(s, ' ', 0);
      assert s[0..] == s;
    }
  }

  // ------------------------------------------------------------ cleanString

  /**
   * The rewrites `cleanString` applies, in the source's fixed order:
   * nullability, restrict, volatile, `__kindof` and const qualifiers
   * removed, spacing around '*', ',' and ')' normalised.
   */
  const CleanRules: seq<(string, string)> := [
    ("_Nonnull", ""), ("_Nullable", ""), ("__restrict", ""), (" *restrict", " *"),
    (" restrict", ""), ("volatile", ""), ("  ,", " ,"), (" *  *", " **"), (" *  ", " *"),
    ("(^ )", "(^)"), (" , ", ", "), (" )", ")"), ("__kindof", ""), (" const", ""),
    ("const ", ""), ("_Null_unspecified", "")
  ]

  /** Every rewrite replaces a non-empty pattern by something no longer. */
  lemma CleanRulesShrink()
    ensures forall i :: 0 <= i < |CleanRules| ==> 0 < |CleanRules[i].0| && |CleanRules[i].1| <= |CleanRules[i].0|
  {
  }

  /** The given rewrites, applied in order. */
  function ApplyRules(s: string, rules: seq<(string, string)>): (r: string)
    requires forall i :: 0 <= i < |rules| ==> 0 < |rules[i].0| && |rules[i].1| <= |rules[i].0|
    decreases |rules|, |s|
    ensures |r| <= |s|
  {
    if rules == [] then s
    else
      ReplacedNoLonger(s, rules[0].0, rules[0].1);
      ApplyRules(Replaced(s, rules[0].0, rules[0].1), rules[1..])
  }

  /** What `cleanString(str)` returns: every rewrite applied in order, then trimmed. */
  function CleanString(str: string): (r: string)
    ensures IsTrimmed(r)
    ensures |r| <= |str|
  {
    CleanRulesShrink();
    Trim(ApplyRules(str, CleanRules))
  }

  /** None of the patterns `cleanString` rewrites occurs. */
  predicate HasNoQualifierPattern(s: string)
  {
    forall i :: 0 <= i < |CleanRules| ==> !Contains(s, CleanRules[i].0)
  }

  /** Rewrites whose pattern does not occur leave the string alone. */
  lemma {:induction false} ApplyRulesIdentity(s: string, rules: seq<(string, string)>)
    requires forall i :: 0 <= i < |rules| ==> 0 < |rules[i].0| && |rules[i].1| <= |rules[i].0|
    requires forall j :: 0 <= j < |rules| ==> !Contains(s, rules[j].0)
    decreases |rules|
    ensures ApplyRules(s, rules) == s
  {
    if rules != [] {
      assert Replaced(s, rules[0].0, rules[0].1) == s;
      ApplyRulesIdentity(s, rules[1..]);
    }
  }

  /** A trimmed spelling without any of the patterns is already clean. */
  lemma CleanStringKeepsClean(s: string)
    requires IsTrimmed(s) && HasNoQualifierPattern(s)
    ensures CleanString(s) == s
  {
    CleanRulesShrink();
    ApplyRulesIdentity(s, CleanRules);
    TrimTrimmed(s);
  }

  /** Every pattern but "volatile" holds an underscore, a space or an opening parenthesis. */
  lemma RulePatternHasSeparator(i: nat)
    requires i < |CleanRules| && CleanRules[i].0 != "volatile"
    ensures exists k :: 0 <= k < |CleanRules[i].0| && CleanRules[i].0[k] in "_ ("
  {
    var p := CleanRules[i].0;
    if i == 14 {
      assert p[5] == ' ';
    } else {
      assert p[0] in "_ (";
    }
  }

  /** A pattern holding a character that `s` lacks does not occur in `s`. */
  lemma ForeignCharNotContained(s: string, p: string, k: nat)
    requires k < |p| && p[k] !in s
    ensures !Contains(s, p)
  {
    forall j | 0 <= j
      ensures !MatchAt(s, p, j)
    {
      if j + |p| <= |s| {
        assert s[j..j + |p|][k] == s[j + k];
      }
    }
  }

  /** A spelling made of letters and digits only, such as "int" or "NSString", is its own cleaning. */
  lemma CleanStringOfWord(s: string)
    requires forall k :: 0 <= k < |s| ==> IsLetter(s[k]) || IsDigit(s[k])
    requires !Contains(s, "volatile")
    ensures CleanString(s) == s
  {
    assert '_' !in s && ' ' !in s && '(' !in s;
    forall i | 0 <= i < |CleanRules|
      ensures !Contains(s, CleanRules[i].0)
    {
      if CleanRules[i].0 != "volatile" {
        RulePatternHasSeparator(i);
        var k :| 0 <= k < |CleanRules[i].0| && CleanRules[i].0[k] in "_ (";
        ForeignCharNotContained(s, CleanRules[i].0, k);
      }
    }
    CleanStringKeepsClean(s);
  }
}
