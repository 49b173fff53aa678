/**
 * The `xcodebuild` arguments the iOS build hook adds or merges
 * (iphone/hooks/hyperloop.js, `hookXcodebuild`): an argument `KEY=value`
 * already present has the new value's words merged into it, one not
 * present is appended, and `OTHER_LDFLAGS` is redirected to the Hyperloop
 * linker flags.
 */
module XcodeArgs {
  import opened Wrappers
  import opened Strs
  import opened JsStrings

  // ---------------------------------------------------------------- words of a value

  /** `quotesRegExp`: the value is one pair of quotes around text without a line terminator. */
  predicate WhollyQuoted(v: string)
  {
    |v| >= 2 && v[0] == '"' && v[|v| - 1] == '"' && forall i :: 1 <= i < |v| - 1 ==> !IsLineTerminator(v[i])
  }

  /** `replace(quotesRegExp, '$1')`: the outer quotes removed from a wholly quoted value. */
  function Unquoted(v: string): (r: string)
  {
    if WhollyQuoted(v) then v[1..|v| - 1] else v
  }

  /** The index of the first quote in `s`. */
  function NextQuote(s: string): (r: Option<nat>)
    ensures r.Some? ==> r.value < |s| && s[r.value] == '"' && forall k :: 0 <= k < r.value ==> s[k] != '"'
    ensures r.None? ==> '"' !in s
  {
    if s == [] then None
    else if s[0] == '"' then Some(0)
    else match NextQuote(s[1..])
      case None => None
      case Some(j) => Some(j + 1)
  }

  /**
   * The length of the word `substrRegExp` matches at the start of `s`, 0
   * when it matches none there: runs of characters other than white space
   * and quotes, and quoted stretches, as many as follow one another.
   */
  function WordLength(s: string): (n: nat)
    ensures n <= |s|
    decreases |s|
  {
    if s == [] then 0
    else if s[0] == '"' then
      match NextQuote(s[1..])
      case None => 0
      case Some(j) => j + 2 + WordLength(s[j + 2..])
    else if IsJsSpace(s[0]) then 0
    else 1 + WordLength(s[1..])
  }

  /**
   * `splitValue`: every match of `substrRegExp`, left to right, with its
   * outer quotes removed; a character no match starts at is passed over.
   */
  function Words(s: string): (r: seq<string>)
    decreases |s|
  {
    if s == [] then []
    else
      var n := WordLength(s);
      if n == 0 then Words(s[1..]) else [Unquoted(s[..n])] + Words(s[n..])
  }

  /** A word without quotes or white space: what a value without quotes is made of. */
  predicate Bare(w: string)
  {
    w != [] && forall i :: 0 <= i < |w| ==> w[i] != '"' && !IsJsSpace(w[i])
  }

  /** A bare run is one word up to the first white space. */
  lemma {:induction false} BareWordLength(w: string, rest: string)
    requires Bare(w)
    requires rest == [] || IsJsSpace(rest[0])
    ensures WordLength(w + rest) == |w|
    decreases |w|
  {
    var s := w + rest;
    assert s[0] == w[0];
    if |w| > 1 {
      assert s[1..] == w[1..] + rest;
      BareWordLength(w[1..], rest);
    } else {
      assert s[1..] == rest;
    }
  }

  /** A value without quotes is cut at white space into bare words. */
  lemma {:induction false} WordsBare(s: string)
    requires '"' !in s
    ensures forall i :: 0 <= i < |Words(s)| ==> Bare(Words(s)[i])
    decreases |s|
  {
    if s != [] {
      var n := WordLength(s);
      if n == 0 {
        WordsBare(s[1..]);
      } else {
        BareRun(s);
        WordsBare(s[n..]);
        assert !WhollyQuoted(s[..n]);
      }
    }
  }

  lemma {:induction false} BareRun(s: string)
    requires '"' !in s
    ensures forall i :: 0 <= i < WordLength(s) ==> s[i] != '"' && !IsJsSpace(s[i])
    decreases |s|
  {
    if s != [] && !IsJsSpace(s[0]) {
      BareRun(s[1..]);
      assert forall i :: 1 <= i < WordLength(s) ==> s[i] == s[1..][i - 1];
    }
  }

  /** Bare words joined by spaces read back as the same words. */
  lemma {:induction false} WordsOfJoin(ws: seq<string>)
    requires forall i :: 0 <= i < |ws| ==> Bare(ws[i])
    ensures Words(Join(ws, " ")) == ws
  {
    if |ws| == 1 {
      BareWordLength(ws[0], []);
      assert ws[0] + [] == ws[0];
      assert ws[0][|ws[0]|..] == [];
      assert !WhollyQuoted(ws[0]);
    } else if |ws| > 1 {
      var rest := Join(ws[1..], " ");
      var s := ws[0] + " " + rest;
      assert s == ws[0] + (" " + rest);
      BareWordLength(ws[0], " " + rest);
      assert s[..|ws[0]|] == ws[0];
      assert s[|ws[0]|..] == " " + rest;
      assert !WhollyQuoted(ws[0]);
      assert WordLength(" " + rest) == 0;
      assert (" " + rest)[1..] == rest;
      WordsOfJoin(ws[1..]);
      assert ws == [ws[0]] + ws[1..];
    }
  }

  /** A join of bare words has no quote in it. */
  lemma {:induction false} JoinUnquoted(ws: seq<string>)
    requires forall i :: 0 <= i < |ws| ==> Bare(ws[i])
    ensures '"' !in Join(ws, " ")
  {
    if |ws| > 1 {
      JoinUnquoted(ws[1..]);
      assert forall i :: 0 <= i < |ws[0]| ==> ws[0][i] != '"';
    } else if |ws| == 1 {
      assert forall i :: 0 <= i < |ws[0]| ==> ws[0][i] != '"';
    }
  }

  // ---------------------------------------------------------------- merging values

  /** The words of `dest` followed by each word of `src` it does not hold yet, in order. */
  function Merged(dest: seq<string>, src: seq<string>): (r: seq<string>)
    ensures |dest| <= |r| && r[..|dest|] == dest
    ensures forall v :: v in src ==> v in r
    ensures forall v :: v in r ==> v in dest || v in src
  {
    if src == [] then dest
    else
      var m := Merged(dest, src[..|src| - 1]);
      assert forall v :: v in src ==> v in src[..|src| - 1] || v == src[|src| - 1];
      if src[|src| - 1] in m then m else m + [src[|src| - 1]]
  }

  /** Merging adds no word twice: distinct words stay distinct. */
  lemma {:induction false} MergedDistinct(dest: seq<string>, src: seq<string>)
    requires forall i, j :: 0 <= i < j < |dest| ==> dest[i] != dest[j]
    ensures forall i, j :: 0 <= i < j < |Merged(dest, src)| ==> Merged(dest, src)[i] != Merged(dest, src)[j]
  {
    if src != [] {
      MergedDistinct(dest, src[..|src| - 1]);
    }
  }

  /** Merging words already present changes nothing. */
  lemma {:induction false} MergedPresent(dest: seq<string>, src: seq<string>)
    requires forall v :: v in src ==> v in dest
    ensures Merged(dest, src) == dest
  {
    if src != [] {
      MergedPresent(dest, src[..|src| - 1]);
    }
  }

  /** `value.replace(/(\\)?"/g, '\\"')`: every quote, escaped or not, becomes `\"`. */
  function Escaped(v: string): (r: string)
    ensures '"' !in v ==> r == v
    decreases |v|
  {
    if v == [] then []
    else if |v| >= 2 && v[0] == '\\' && v[1] == '"' then "\\\"" + Escaped(v[2..])
    else if v[0] == '"' then "\\\"" + Escaped(v[1..])
    else [v[0]] + Escaped(v[1..])
  }

  /** A word with a space that is not already quoted is quoted, its quotes escaped. */
  function Rendered(v: string): (r: string)
    ensures ' ' !in v ==> r == v
  {
    if ' ' in v && !WhollyQuoted(v) then "\"" + Escaped(v) + "\"" else v
  }

  function RenderedAll(vs: seq<string>): (r: seq<string>)
    ensures |r| == |vs|
    ensures forall i :: 0 <= i < |vs| ==> r[i] == Rendered(vs[i])
  {
    if vs == [] then [] else [Rendered(vs[0])] + RenderedAll(vs[1..])
  }

  /** `mixValues(dest, src)`: the words of both merged and joined by spaces. */
  function Mix(dest: string, src: string): string
  {
    Join(RenderedAll(Merged(Words(Unquoted(dest)), Words(src))), " ")
  }

  /** Values without quotes merge into a value that reads back as the merged words. */
  lemma MixReadsBack(dest: string, src: string)
    requires '"' !in dest && '"' !in src
    ensures Words(Mix(dest, src)) == Merged(Words(dest), Words(src))
    ensures '"' !in Mix(dest, src)
  {
    var m := Merged(Words(dest), Words(src));
    MergedBare(dest, src);
    assert RenderedAll(m) == m;
    WordsOfJoin(m);
    JoinUnquoted(m);
  }

  lemma MergedBare(dest: string, src: string)
    requires '"' !in dest && '"' !in src
    ensures Unquoted(dest) == dest
    ensures forall i :: 0 <= i < |Merged(Words(dest), Words(src))| ==> Bare(Merged(Words(dest), Words(src))[i])
  {
    assert !WhollyQuoted(dest) by { if |dest| >= 2 { assert dest[0] in dest; } }
    WordsBare(dest);
    WordsBare(src);
    var m := Merged(Words(dest), Words(src));
    forall i | 0 <= i < |m| ensures Bare(m[i]) {
      assert m[i] in m;
    }
  }

  /** Merging the same value twice is merging it once. */
  lemma MixIdempotent(dest: string, src: string)
    requires '"' !in dest && '"' !in src
    ensures Mix(Mix(dest, src), src) == Mix(dest, src)
  {
    var once := Mix(dest, src);
    MixReadsBack(dest, src);
    MergedBare(once, src);
    MergedPresent(Words(once), Words(src));
  }

  /** `splitValue`, which runs the global expression until it finds no more words. */
  method SplitValue(value: string) returns (parts: seq<string>)
    ensures parts == Words(value)
  {
    parts := [];
    var rest := value;
    while rest != []
      invariant parts + Words(rest) == Words(value)
      decreases |rest|
    {
      var n := WordLength(rest);
      if n == 0 {
        rest := rest[1..];
      } else {
        var word := Unquoted(rest[..n]);
        assert parts + Words(rest) == (parts + [word]) + Words(rest[n..]);
        parts := parts + [word];
        rest := rest[n..];
      }
    }
  }

  /** `mixValues`, which pushes each new word of `src` onto the words of `dest`. */
  method MixValues(dest: string, src: string) returns (r: string)
    ensures r == Mix(dest, src)
  {
    var words := SplitValue(Unquoted(dest));
    var extra := SplitValue(src);
    for i := 0 to |extra|
      invariant words == Merged(Words(Unquoted(dest)), extra[..i])
    {
      assert extra[..i + 1][..i] == extra[..i];
      if extra[i] !in words {
        words := words + [extra[i]];
      }
    }
    assert extra[..|extra|] == extra;
    r := Join(RenderedAll(words), " ");
  }

  // ---------------------------------------------------------------- the argument list

  /** The setting `OTHER_LDFLAGS` goes to the Hyperloop linker flags, every other keeps its name. */
  function ParamKey(key: string): (r: string)
    ensures r != "OTHER_LDFLAGS"
    ensures key != "OTHER_LDFLAGS" ==> r == key
    ensures '=' !in key ==> '=' !in r
  {
    if key == "OTHER_LDFLAGS" then "HYPERLOOP_LDFLAGS" else key
  }

  /** The index of the first argument that sets `key`. */
  function FirstSetting(args: seq<string>, key: string): (r: Option<nat>)
    ensures r.Some? ==> (r.value < |args| && StartsWith(args[r.value], key + "=")
      && forall j :: 0 <= j < r.value ==> !StartsWith(args[j], key + "="))
    ensures r.None? ==> forall j :: 0 <= j < |args| ==> !StartsWith(args[j], key + "=")
  {
    if args == [] then None
    else if StartsWith(args[0], key + "=") then Some(0)
    else match FirstSetting(args[1..], key)
      case None => None
      case Some(j) => Some(j + 1)
  }

  /** The value of an argument: what follows its first `=`. */
  function SettingValue(arg: string): string
  {
    match Find(arg, "=")
    case Some(i) => arg[i + 1..]
    case None => arg
  }

  /** Two prefixes of one string: the shorter is a prefix of the longer. */
  lemma PrefixOfPrefix(a: string, p: string, q: string)
    requires StartsWith(a, p) && StartsWith(a, q) && |p| <= |q|
    ensures StartsWith(q, p)
  {
    assert q[..|p|] == a[..|q|][..|p|];
  }

  /** Two keys without `=` that one argument starts with, each followed by `=`, are the same key. */
  lemma SameKey(arg: string, k1: string, k2: string)
    requires '=' !in k1 && '=' !in k2
    requires StartsWith(arg, k1 + "=") && StartsWith(arg, k2 + "=")
    ensures k1 == k2
  {
    KeyBeforeEquals(arg, k1, k2);
    KeyBeforeEquals(arg, k2, k1);
    assert k1 == arg[..|k1|] == k2;
  }

  /** A key without `=` is no longer than any key an argument starts with, followed by `=`. */
  lemma KeyBeforeEquals(arg: string, k: string, other: string)
    requires '=' !in k
    requires StartsWith(arg, k + "=") && StartsWith(arg, other + "=")
    ensures |k| <= |other|
  {
    assert arg[|other|] == '=';
    assert forall j :: 0 <= j < |k| ==> arg[j] == k[j] && k[j] != '=';
  }

  /** An argument for key `big` rewritten as another for `big` still sets every key without `=` it set. */
  lemma RewriteKeepsKey(before: string, after: string, big: string, k: string)
    requires '=' !in k
    requires StartsWith(before, big + "=") && StartsWith(after, big + "=") && StartsWith(before, k + "=")
    ensures StartsWith(after, k + "=")
  {
    KeyBeforeEquals(before, k, big);
    PrefixOfPrefix(before, k + "=", big + "=");
    assert after[..|k + "="|] == (big + "=")[..|k + "="|];
  }

  /** A list with an argument setting the key has a first one. */
  lemma SettingAt(args: seq<string>, key: string, j: nat)
    requires j < |args| && StartsWith(args[j], key + "=")
    ensures FirstSetting(args, key).Some?
  {
  }

  /** Rewriting an argument as one for the same key keeps every key without `=` set. */
  lemma ReplaceKeeps(args: seq<string>, i: nat, arg: string, big: string, k: string)
    requires i < |args| && StartsWith(args[i], big + "=") && StartsWith(arg, big + "=")
    requires '=' !in k && FirstSetting(args, k).Some?
    ensures FirstSetting(args[i := arg], k).Some?
  {
    var j := FirstSetting(args, k).value;
    if j == i {
      RewriteKeepsKey(args[i], arg, big, k);
    }
    SettingAt(args[i := arg], k, j);
  }

  /** An argument for a key without `=` sets no other key without `=`. */
  lemma OtherKeyUnset(arg: string, big: string, k: string)
    requires '=' !in big && '=' !in k && k != big && StartsWith(arg, big + "=")
    ensures !StartsWith(arg, k + "=")
  {
    if StartsWith(arg, k + "=") {
      SameKey(arg, k, big);
    }
  }

  /** Appending an argument for another key leaves a key without a setting. */
  lemma AppendAddsNone(args: seq<string>, arg: string, big: string, k: string)
    requires '=' !in big && '=' !in k && k != big && StartsWith(arg, big + "=")
    requires FirstSetting(args, k).None?
    ensures FirstSetting(args + [arg], k).None?
  {
    OtherKeyUnset(arg, big, k);
    assert forall j :: 0 <= j < |args + [arg]| ==> !StartsWith((args + [arg])[j], k + "=");
  }

  /** Rewriting an argument as one for another key leaves a key without a setting. */
  lemma ReplaceAddsNone(args: seq<string>, i: nat, arg: string, big: string, k: string)
    requires i < |args|
    requires '=' !in big && '=' !in k && k != big && StartsWith(arg, big + "=")
    requires FirstSetting(args, k).None?
    ensures FirstSetting(args[i := arg], k).None?
  {
    OtherKeyUnset(arg, big, k);
    var after := args[i := arg];
    assert forall j :: 0 <= j < |after| ==> !StartsWith(after[j], k + "=");
  }

  /** An argument for another key without `=` sets no `OTHER_LDFLAGS` in place of another. */
  lemma LdflagsNotReplaced(args: seq<string>, i: nat, arg: string, big: string)
    requires i < |args| && '=' !in big && big != "OTHER_LDFLAGS" && StartsWith(arg, big + "=")
    requires FirstSetting(args, "OTHER_LDFLAGS").None?
    ensures FirstSetting(args[i := arg], "OTHER_LDFLAGS").None?
  {
    FixedKeys();
    ReplaceAddsNone(args, i, arg, big, "OTHER_LDFLAGS");
  }

  /** An argument for another key without `=` appends no `OTHER_LDFLAGS`. */
  lemma LdflagsNotAppended(args: seq<string>, arg: string, big: string)
    requires '=' !in big && big != "OTHER_LDFLAGS" && StartsWith(arg, big + "=")
    requires FirstSetting(args, "OTHER_LDFLAGS").None?
    ensures FirstSetting(args + [arg], "OTHER_LDFLAGS").None?
  {
    FixedKeys();
    AppendAddsNone(args, arg, big, "OTHER_LDFLAGS");
  }

  // ---------------------------------------------------------------- the settings the hook adds

  /**
   * The argument list after `addParam(key, value)`: the first setting of the
   * redirected key gets the value mixed into its own, or `KEY=value` is
   * appended.
   */
  function AddedParam(args: seq<string>, key: string, value: string): seq<string>
  {
    var k := ParamKey(key);
    match FirstSetting(args, k)
    case Some(i) => args[i := k + "=" + Mix(SettingValue(args[i]), value)]
    case None => args + [k + "=" + value]
  }

  /** The argument list after `addParam` of each pair, in order. */
  function AddedAll(args: seq<string>, pairs: seq<(string, string)>): seq<string>
    decreases |pairs|
  {
    if pairs == [] then args
    else
      var last := pairs[|pairs| - 1];
      AddedParam(AddedAll(args, pairs[..|pairs| - 1]), last.0, last.1)
  }

  /** One more pair is one more `addParam`. */
  lemma AddedSnoc(args: seq<string>, pairs: seq<(string, string)>, p: (string, string))
    ensures AddedAll(args, pairs + [p]) == AddedParam(AddedAll(args, pairs), p.0, p.1)
  {
    assert (pairs + [p])[..|pairs|] == pairs;
  }

  /** Adding two runs of pairs is adding the first run, then the second. */
  lemma {:induction false} AddedAllAppend(args: seq<string>, p: seq<(string, string)>, q: seq<(string, string)>)
    ensures AddedAll(args, p + q) == AddedAll(AddedAll(args, p), q)
    decreases |q|
  {
    if q == [] {
      assert p + q == p;
    } else {
      var init := q[..|q| - 1];
      assert p + q == (p + init) + [q[|q| - 1]];
      assert q == init + [q[|q| - 1]];
      AddedSnoc(args, p + init, q[|q| - 1]);
      AddedSnoc(AddedAll(args, p), init, q[|q| - 1]);
      AddedAllAppend(args, p, init);
    }
  }

  /** `ONLY_ACTIVE_ARCH=1`, for a development build on the simulator only. */
  function ArchPairs(developmentSimulator: bool): seq<(string, string)>
  {
    if developmentSimulator then [("ONLY_ACTIVE_ARCH", "1")] else []
  }

  /** Each custom header, as a header and as a framework search path. */
  function SearchPathPairs(headers: seq<string>): (r: seq<(string, string)>)
    ensures |r| == 2 * |headers|
    ensures forall i :: 0 <= i < |headers| ==>
              r[2 * i] == ("HEADER_SEARCH_PATHS", headers[i]) && r[2 * i + 1] == ("FRAMEWORK_SEARCH_PATHS", headers[i])
    decreases |headers|
  {
    if headers == [] then []
    else
      var h := headers[|headers| - 1];
      SearchPathPairs(headers[..|headers| - 1]) + [("HEADER_SEARCH_PATHS", h), ("FRAMEWORK_SEARCH_PATHS", h)]
  }

  /** `$(inherited)` for both search paths, each header, then `headers` unless JavaScriptCore is used. */
  function HeaderPairs(headers: seq<string>, useJscore: bool): seq<(string, string)>
  {
    [("HEADER_SEARCH_PATHS", "$(inherited)"), ("FRAMEWORK_SEARCH_PATHS", "$(inherited)")]
    + SearchPathPairs(headers)
    + (if useJscore then [] else [("HEADER_SEARCH_PATHS", "headers")])
  }

  /** The preprocessor flag every build gets, then the project directory. */
  function HyperloopPairs(projectDir: string): seq<(string, string)>
  {
    [("GCC_PREPROCESSOR_DEFINITIONS", "$(inherited) HYPERLOOP=1"), ("APPC_PROJECT_DIR", projectDir)]
  }

  /** Every setting `hookXcodebuild` adds, in the order it adds them. */
  function HookPairs(developmentSimulator: bool, flags: seq<(string, string)>, podSettings: seq<(string, string)>,
                     headers: seq<string>, useJscore: bool, projectDir: string): seq<(string, string)>
  {
    ArchPairs(developmentSimulator) + flags + podSettings
    + (if headers != [] then HeaderPairs(headers, useJscore) else [])
    + HyperloopPairs(projectDir)
  }

  /** Two settings of different keys, neither set yet, are appended as they are written. */
  lemma AddedTwoFresh(args: seq<string>, k1: string, v1: string, k2: string, v2: string)
    requires '=' !in k1 && '=' !in k2 && k1 != k2 && k1 != "OTHER_LDFLAGS" && k2 != "OTHER_LDFLAGS"
    requires FirstSetting(args, k1).None? && FirstSetting(args, k2).None?
    ensures AddedAll(args, [(k1, v1), (k2, v2)]) == args + [k1 + "=" + v1, k2 + "=" + v2]
  {
    var first := k1 + "=" + v1;
    assert StartsWith(first, k1 + "=") by {
      assert first[..|k1 + "="|] == k1 + "=";
    }
    AddedFresh(args, k1, v1);
    AppendAddsNone(args, first, k1, k2);
    AddedFresh(args + [first], k2, v2);
    AddedTwo(args, (k1, v1), (k2, v2));
  }

  /**
   * On arguments that set neither key yet, the Hyperloop settings are
   * appended as they are written.
   */
  lemma HyperloopParamsOnFresh(args: seq<string>, projectDir: string)
    requires FirstSetting(args, "GCC_PREPROCESSOR_DEFINITIONS").None? && FirstSetting(args, "APPC_PROJECT_DIR").None?
    ensures AddedAll(args, HyperloopPairs(projectDir))
         == args + ["GCC_PREPROCESSOR_DEFINITIONS" + "=" + "$(inherited) HYPERLOOP=1", "APPC_PROJECT_DIR" + "=" + projectDir]
  {
    FixedKeys();
    AddedTwoFresh(args, "GCC_PREPROCESSOR_DEFINITIONS", "$(inherited) HYPERLOOP=1", "APPC_PROJECT_DIR", projectDir);
  }

  /** A key without a setting is appended as `KEY=value`. */
  lemma AddedFresh(args: seq<string>, key: string, value: string)
    requires key != "OTHER_LDFLAGS" && FirstSetting(args, key).None?
    ensures AddedParam(args, key, value) == args + [key + "=" + value]
  {
  }

  /** The `xcodebuild` argument list the hook works on. */
  class XcodebuildArgs {
    var args: seq<string>

    constructor(args: seq<string>)
      ensures this.args == args
    {
      this.args := args;
    }

    /**
     * `addParam`: the first argument setting the key gets the new value
     * merged into its own; with none, `KEY=value` is appended. Every key
     * without `=` that was set stays set, and with a key without `=` no
     * other such key becomes set.
     */
    method AddParam(key: string, value: string)
      modifies this
      ensures var k := ParamKey(key);
        match FirstSetting(old(args), k)
        case Some(i) => args == old(args)[i := k + "=" + Mix(SettingValue(old(args)[i]), value)]
        case None => args == old(args) + [k + "=" + value]
      ensures args == AddedParam(old(args), key, value)
      ensures FirstSetting(args, ParamKey(key)).Some?
      ensures Grows(old(args), args)
      ensures '=' !in key ==> LdflagsUnset(old(args), args)
    {
      var k := ParamKey(key);
      ghost var before := args;
      for i := 0 to |args|
        invariant args == before
        invariant forall j :: 0 <= j < i ==> !StartsWith(args[j], k + "=")
      {
        if StartsWith(args[i], k + "=") {
          assert FirstSetting(args, k) == Some(i) by { FirstSettingIs(args, k, i); }
          var mixed := MixValues(SettingValue(args[i]), value);
          var merged := k + "=" + mixed;
          assert StartsWith(merged, k + "=") by { assert merged[..|k + "="|] == k + "="; }
          forall other | '=' !in other && FirstSetting(before, other).Some?
            ensures FirstSetting(before[i := merged], other).Some?
          {
            ReplaceKeeps(before, i, merged, k, other);
          }
          if '=' !in key && FirstSetting(before, "OTHER_LDFLAGS").None? {
            LdflagsNotReplaced(before, i, merged, k);
          }
          args := args[i := merged];
          SettingAt(args, k, i);
          return;
        }
      }
      assert FirstSetting(args, k).None?;
      var added := k + "=" + value;
      assert StartsWith(added, k + "=") by { assert added[..|k + "="|] == k + "="; }
      forall other | '=' !in other && FirstSetting(before, other).Some?
        ensures FirstSetting(before + [added], other).Some?
      {
        SettingAt(before + [added], other, FirstSetting(before, other).value);
      }
      if '=' !in key && FirstSetting(before, "OTHER_LDFLAGS").None? {
        LdflagsNotAppended(before, added, k);
      }
      args := args + [added];
      SettingAt(args, k, |args| - 1);
    }

    /** Each pair of an object's keys and values added in order. */
    method AddParams(settings: seq<(string, string)>)
      modifies this
      ensures args == AddedAll(old(args), settings)
      ensures Grows(old(args), args)
      ensures SetsKeys(args, settings, |settings|)
      ensures KeysWithoutEquals(settings, |settings|) ==> LdflagsUnset(old(args), args)
    {
      ghost var start := args;
      AppliedStart(start, settings);
      for i := 0 to |settings|
        invariant Applied(start, args, settings, i)
      {
        ghost var before := args;
        AddParam(settings[i].0, settings[i].1);
        AppliedStep(start, before, args, settings, i);
      }
      AppliedDone(start, args, settings);
    }

    /** The custom header paths, for headers and for frameworks. */
    method AddHeaders(headers: seq<string>, useJscore: bool)
      requires headers != []
      modifies this
      ensures args == AddedAll(old(args), HeaderPairs(headers, useJscore))
      ensures Grows(old(args), args) && LdflagsUnset(old(args), args)
      ensures FirstSetting(args, "HEADER_SEARCH_PATHS").Some? && FirstSetting(args, "FRAMEWORK_SEARCH_PATHS").Some?
    {
      ghost var start := args;
      AddInherited();
      HeadersStart(start, args, headers);
      for i := 0 to |headers|
        invariant HeadersSoFar(start, args, headers, i)
      {
        ghost var before := args;
        AddSearchPath(headers[i]);
        SearchPathStep(start, headers, i, before, args);
      }
      ghost var before := args;
      if !useJscore {
        FixedKeys();
        AddParam("HEADER_SEARCH_PATHS", "headers");
      }
      HeadersDone(start, before, args, headers, useJscore);
    }

    /** `$(inherited)` for the header and the framework search paths. */
    method AddInherited()
      modifies this
      ensures args == AddedAll(old(args), Inherited)
      ensures Grows(old(args), args) && LdflagsUnset(old(args), args)
      ensures FirstSetting(args, "HEADER_SEARCH_PATHS").Some? && FirstSetting(args, "FRAMEWORK_SEARCH_PATHS").Some?
    {
      FixedKeys();
      ghost var start := args;
      AddParam("HEADER_SEARCH_PATHS", "$(inherited)");
      ghost var mid := args;
      AddParam("FRAMEWORK_SEARCH_PATHS", "$(inherited)");
      GrowsTrans(start, mid, args);
      StillSet(mid, args, "HEADER_SEARCH_PATHS");
      AddedTwo(start, ("HEADER_SEARCH_PATHS", "$(inherited)"), ("FRAMEWORK_SEARCH_PATHS", "$(inherited)"));
    }

    /** One custom header, as a header and as a framework search path. */
    method AddSearchPath(header: string)
      modifies this
      ensures args == AddedAll(old(args), [("HEADER_SEARCH_PATHS", header), ("FRAMEWORK_SEARCH_PATHS", header)])
      ensures Grows(old(args), args) && LdflagsUnset(old(args), args)
    {
      FixedKeys();
      ghost var start := args;
      AddParam("HEADER_SEARCH_PATHS", header);
      ghost var mid := args;
      AddParam("FRAMEWORK_SEARCH_PATHS", header);
      GrowsTrans(start, mid, args);
      AddedTwo(start, ("HEADER_SEARCH_PATHS", header), ("FRAMEWORK_SEARCH_PATHS", header));
    }

    /**
     * `hookXcodebuild`: the settings the build adds, in order. Object keys
     * come as lists of pairs in their insertion order; `development` and
     * `simulator` together are one flag.
     */
    method HookXcodebuild(developmentSimulator: bool, flags: seq<(string, string)>, podSettings: seq<(string, string)>,
                          headers: seq<string>, useJscore: bool, projectDir: string)
      modifies this
      ensures args == AddedAll(old(args), HookPairs(developmentSimulator, flags, podSettings, headers, useJscore, projectDir))
      ensures FirstSetting(args, "GCC_PREPROCESSOR_DEFINITIONS").Some? && FirstSetting(args, "APPC_PROJECT_DIR").Some?
      ensures developmentSimulator ==> FirstSetting(args, "ONLY_ACTIVE_ARCH").Some?
      ensures headers != [] ==> FirstSetting(args, "HEADER_SEARCH_PATHS").Some? && FirstSetting(args, "FRAMEWORK_SEARCH_PATHS").Some?
      ensures SetsKeys(args, flags, |flags|) && SetsKeys(args, podSettings, |podSettings|)
      ensures KeysWithoutEquals(flags, |flags|) && KeysWithoutEquals(podSettings, |podSettings|) ==> LdflagsUnset(old(args), args)
    {
      FixedKeys();
      ghost var s0 := args;
      OnlyActiveArch(developmentSimulator);
      ghost var s1 := args;
      AddParams(flags);
      ghost var s2 := args;
      AddParams(podSettings);
      ghost var s3 := args;
      GrowsTrans(s1, s2, s3);
      SetsKeysGrows(s2, s3, flags, |flags|);
      if headers != [] {
        AddHeaders(headers, useJscore);
      }
      ghost var s4 := args;
      SetsKeysGrows(s3, s4, flags, |flags|);
      SetsKeysGrows(s3, s4, podSettings, |podSettings|);
      HyperloopParams(projectDir);
      SetsKeysGrows(s4, args, flags, |flags|);
      SetsKeysGrows(s4, args, podSettings, |podSettings|);
      GrowsTrans(s3, s4, args);
      GrowsTrans(s1, s3, args);
      if developmentSimulator {
        StillSet(s1, args, "ONLY_ACTIVE_ARCH");
      }
      if headers != [] {
        StillSet(s4, args, "HEADER_SEARCH_PATHS");
        StillSet(s4, args, "FRAMEWORK_SEARCH_PATHS");
      }
      HookPairsApplied(s0, s1, s2, s3, s4, args, developmentSimulator, flags, podSettings, headers, useJscore, projectDir);
    }

    /** Only the target architecture is built for a development build on the simulator. */
    method OnlyActiveArch(developmentSimulator: bool)
      modifies this
      ensures args == AddedAll(old(args), ArchPairs(developmentSimulator))
      ensures !developmentSimulator ==> args == old(args)
      ensures Grows(old(args), args) && LdflagsUnset(old(args), args)
      ensures developmentSimulator ==> FirstSetting(args, "ONLY_ACTIVE_ARCH").Some?
    {
      FixedKeys();
      if developmentSimulator {
        ghost var start := args;
        AddParam("ONLY_ACTIVE_ARCH", "1");
        AddedSnoc(start, [], ("ONLY_ACTIVE_ARCH", "1"));
        assert [] + [("ONLY_ACTIVE_ARCH", "1")] == ArchPairs(developmentSimulator);
      }
    }

    /** The preprocessor flag every build gets and the project directory. */
    method HyperloopParams(projectDir: string)
      modifies this
      ensures args == AddedAll(old(args), HyperloopPairs(projectDir))
      ensures Grows(old(args), args) && LdflagsUnset(old(args), args)
      ensures FirstSetting(args, "GCC_PREPROCESSOR_DEFINITIONS").Some? && FirstSetting(args, "APPC_PROJECT_DIR").Some?
    {
      FixedKeys();
      ghost var start := args;
      AddParam("GCC_PREPROCESSOR_DEFINITIONS", "$(inherited) HYPERLOOP=1");
      ghost var mid := args;
      AddParam("APPC_PROJECT_DIR", projectDir);
      GrowsTrans(start, mid, args);
      AddedTwo(start, ("GCC_PREPROCESSOR_DEFINITIONS", "$(inherited) HYPERLOOP=1"), ("APPC_PROJECT_DIR", projectDir));
    }
  }

  /** The first `i` pairs have been added to `start`, giving `args`. */
  ghost predicate Applied(start: seq<string>, args: seq<string>, settings: seq<(string, string)>, i: nat)
  {
    i <= |settings| && args == AddedAll(start, settings[..i]) && Grows(start, args) && SetsKeys(args, settings, i)
    && (KeysWithoutEquals(settings, i) ==> LdflagsUnset(start, args))
  }

  lemma AppliedStart(start: seq<string>, settings: seq<(string, string)>)
    ensures Applied(start, start, settings, 0)
  {
    assert settings[..0] == [];
  }

  lemma AppliedStep(start: seq<string>, before: seq<string>, after: seq<string>, settings: seq<(string, string)>, i: nat)
    requires i < |settings| && Applied(start, before, settings, i)
    requires after == AddedParam(before, settings[i].0, settings[i].1)
    requires Grows(before, after) && FirstSetting(after, ParamKey(settings[i].0)).Some?
    requires '=' !in settings[i].0 ==> LdflagsUnset(before, after)
    ensures Applied(start, after, settings, i + 1)
  {
    AddedSnoc(start, settings[..i], settings[i]);
    assert settings[..i + 1] == settings[..i] + [settings[i]];
    GrowsTrans(start, before, after);
    SetsKeysGrows(before, after, settings, i);
    SetsKeysStep(after, settings, i);
  }

  lemma AppliedDone(start: seq<string>, args: seq<string>, settings: seq<(string, string)>)
    requires Applied(start, args, settings, |settings|)
    ensures args == AddedAll(start, settings) && Grows(start, args) && SetsKeys(args, settings, |settings|)
    ensures KeysWithoutEquals(settings, |settings|) ==> LdflagsUnset(start, args)
  {
    assert settings[..|settings|] == settings;
  }

  /** Two pairs are two `addParam` calls. */
  lemma AddedTwo(args: seq<string>, a: (string, string), b: (string, string))
    ensures AddedAll(args, [a, b]) == AddedParam(AddedParam(args, a.0, a.1), b.0, b.1)
  {
    AddedSnoc(args, [], a);
    assert [] + [a] == [a];
    AddedSnoc(args, [a], b);
    assert [a] + [b] == [a, b];
  }

  const Inherited: seq<(string, string)> :=
    [("HEADER_SEARCH_PATHS", "$(inherited)"), ("FRAMEWORK_SEARCH_PATHS", "$(inherited)")]

  /** The header loop has added `$(inherited)` and the first `i` headers. */
  ghost predicate HeadersSoFar(start: seq<string>, args: seq<string>, headers: seq<string>, i: nat)
  {
    i <= |headers| && args == AddedAll(start, Inherited + SearchPathPairs(headers[..i]))
    && Grows(start, args) && LdflagsUnset(start, args)
    && FirstSetting(args, "HEADER_SEARCH_PATHS").Some? && FirstSetting(args, "FRAMEWORK_SEARCH_PATHS").Some?
  }

  lemma HeadersStart(start: seq<string>, args: seq<string>, headers: seq<string>)
    requires args == AddedAll(start, Inherited) && Grows(start, args) && LdflagsUnset(start, args)
    requires FirstSetting(args, "HEADER_SEARCH_PATHS").Some? && FirstSetting(args, "FRAMEWORK_SEARCH_PATHS").Some?
    ensures HeadersSoFar(start, args, headers, 0)
  {
    assert headers[..0] == [];
    assert Inherited + SearchPathPairs([]) == Inherited;
  }

  /** One round of the header loop adds the pairs of one more header. */
  lemma SearchPathStep(start: seq<string>, headers: seq<string>, i: nat, before: seq<string>, after: seq<string>)
    requires i < |headers| && HeadersSoFar(start, before, headers, i)
    requires after == AddedAll(before, [("HEADER_SEARCH_PATHS", headers[i]), ("FRAMEWORK_SEARCH_PATHS", headers[i])])
    requires Grows(before, after) && LdflagsUnset(before, after)
    ensures HeadersSoFar(start, after, headers, i + 1)
  {
    SearchPathAdded(start, headers, i, before, after);
    GrowsTrans(start, before, after);
    FixedKeys();
    StillSet(before, after, "HEADER_SEARCH_PATHS");
    StillSet(before, after, "FRAMEWORK_SEARCH_PATHS");
  }

  lemma SearchPathAdded(start: seq<string>, headers: seq<string>, i: nat, before: seq<string>, after: seq<string>)
    requires i < |headers|
    requires before == AddedAll(start, Inherited + SearchPathPairs(headers[..i]))
    requires after == AddedAll(before, [("HEADER_SEARCH_PATHS", headers[i]), ("FRAMEWORK_SEARCH_PATHS", headers[i])])
    ensures after == AddedAll(start, Inherited + SearchPathPairs(headers[..i + 1]))
  {
    var two := [("HEADER_SEARCH_PATHS", headers[i]), ("FRAMEWORK_SEARCH_PATHS", headers[i])];
    var prev := SearchPathPairs(headers[..i]);
    SearchPathSnoc(headers, i);
    assert Inherited + (prev + two) == (Inherited + prev) + two;
    AddedAllAppend(start, Inherited + prev, two);
  }

  lemma SearchPathSnoc(headers: seq<string>, i: nat)
    requires i < |headers|
    ensures SearchPathPairs(headers[..i + 1])
         == SearchPathPairs(headers[..i]) + [("HEADER_SEARCH_PATHS", headers[i]), ("FRAMEWORK_SEARCH_PATHS", headers[i])]
  {
    assert headers[..i + 1][..i] == headers[..i];
  }

  /** After the loop, `headers` is added unless JavaScriptCore is used. */
  lemma HeadersDone(start: seq<string>, before: seq<string>, after: seq<string>, headers: seq<string>, useJscore: bool)
    requires HeadersSoFar(start, before, headers, |headers|)
    requires useJscore ==> after == before
    requires !useJscore ==> after == AddedParam(before, "HEADER_SEARCH_PATHS", "headers")
    requires Grows(before, after) && LdflagsUnset(before, after)
    ensures after == AddedAll(start, HeaderPairs(headers, useJscore))
    ensures Grows(start, after) && LdflagsUnset(start, after)
    ensures FirstSetting(after, "HEADER_SEARCH_PATHS").Some? && FirstSetting(after, "FRAMEWORK_SEARCH_PATHS").Some?
  {
    assert headers[..|headers|] == headers;
    var paths := Inherited + SearchPathPairs(headers);
    if !useJscore {
      AddedSnoc(start, paths, ("HEADER_SEARCH_PATHS", "headers"));
    } else {
      assert paths + [] == paths;
    }
    GrowsTrans(start, before, after);
    FixedKeys();
    StillSet(before, after, "HEADER_SEARCH_PATHS");
    StillSet(before, after, "FRAMEWORK_SEARCH_PATHS");
  }

  /** The five steps of `hookXcodebuild` together add `HookPairs`. */
  lemma HookPairsApplied(s0: seq<string>, s1: seq<string>, s2: seq<string>, s3: seq<string>, s4: seq<string>,
                         s5: seq<string>, developmentSimulator: bool, flags: seq<(string, string)>,
                         podSettings: seq<(string, string)>, headers: seq<string>, useJscore: bool, projectDir: string)
    requires s1 == AddedAll(s0, ArchPairs(developmentSimulator))
    requires s2 == AddedAll(s1, flags) && s3 == AddedAll(s2, podSettings)
    requires s4 == AddedAll(s3, if headers != [] then HeaderPairs(headers, useJscore) else [])
    requires s5 == AddedAll(s4, HyperloopPairs(projectDir))
    ensures s5 == AddedAll(s0, HookPairs(developmentSimulator, flags, podSettings, headers, useJscore, projectDir))
  {
    var a := ArchPairs(developmentSimulator);
    var h := if headers != [] then HeaderPairs(headers, useJscore) else [];
    AddedAllAppend(s0, a, flags);
    AddedAllAppend(s0, a + flags, podSettings);
    AddedAllAppend(s0, a + flags + podSettings, h);
    AddedAllAppend(s0, a + flags + podSettings + h, HyperloopPairs(projectDir));
  }

  /** The settings the hook names itself have no `=` in their keys. */
  lemma FixedKeys()
    ensures '=' !in "ONLY_ACTIVE_ARCH" && '=' !in "HEADER_SEARCH_PATHS" && '=' !in "FRAMEWORK_SEARCH_PATHS"
    ensures '=' !in "GCC_PREPROCESSOR_DEFINITIONS" && '=' !in "APPC_PROJECT_DIR" && '=' !in "OTHER_LDFLAGS"
  {
  }

  /** Every key without `=` that was set is still set. */
  ghost predicate Grows(before: seq<string>, after: seq<string>)
  {
    forall k :: '=' !in k && FirstSetting(before, k).Some? ==> FirstSetting(after, k).Some?
  }

  lemma StillSet(before: seq<string>, after: seq<string>, k: string)
    requires Grows(before, after) && '=' !in k && FirstSetting(before, k).Some?
    ensures FirstSetting(after, k).Some?
  {
  }

  lemma GrowsTrans(a: seq<string>, b: seq<string>, c: seq<string>)
    requires Grows(a, b) && Grows(b, c)
    ensures Grows(a, c)
  {
  }

  /** No `OTHER_LDFLAGS` setting appears: the linker flags went to `HYPERLOOP_LDFLAGS`. */
  predicate LdflagsUnset(before: seq<string>, after: seq<string>)
  {
    FirstSetting(before, "OTHER_LDFLAGS").None? ==> FirstSetting(after, "OTHER_LDFLAGS").None?
  }

  /** The first `n` keys of `settings` have no `=`. */
  predicate KeysWithoutEquals(settings: seq<(string, string)>, n: nat)
    requires n <= |settings|
  {
    forall i :: 0 <= i < n ==> '=' !in settings[i].0
  }

  /** The first `n` keys of `settings` without `=` are set, under their redirected names. */
  predicate SetsKeys(args: seq<string>, settings: seq<(string, string)>, n: nat)
    requires n <= |settings|
  {
    forall j :: 0 <= j < n && '=' !in settings[j].0 ==> FirstSetting(args, ParamKey(settings[j].0)).Some?
  }

  lemma SetsKeysStep(args: seq<string>, settings: seq<(string, string)>, n: nat)
    requires n < |settings| && SetsKeys(args, settings, n) && FirstSetting(args, ParamKey(settings[n].0)).Some?
    ensures SetsKeys(args, settings, n + 1)
  {
  }

  lemma SetsKeysGrows(before: seq<string>, after: seq<string>, settings: seq<(string, string)>, n: nat)
    requires n <= |settings| && SetsKeys(before, settings, n) && Grows(before, after)
    ensures SetsKeys(after, settings, n)
  {
  }

  /** The first argument that sets a key is the one the search finds. */
  lemma {:induction false} FirstSettingIs(args: seq<string>, key: string, i: nat)
    requires i < |args| && StartsWith(args[i], key + "=")
    requires forall j :: 0 <= j < i ==> !StartsWith(args[j], key + "=")
    ensures FirstSetting(args, key) == Some(i)
  {
    if i > 0 {
      FirstSettingIs(args[1..], key, i - 1);
    }
  }
}
