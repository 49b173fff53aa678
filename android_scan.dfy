/**
 * How the Android build finds the native classes application code uses
 * (android/hooks/tasks/scan-references-task.js and its plugin twin
 * android/plugins/hyperloop/hooks/android/tasks/scan-references-task.js):
 * which `require`/`import` strings name a metabase class or a package of
 * them, how a single-type name falls back to a nested class, how the
 * plugin rewrites each resolved `require` to its generated wrapper with
 * `replaceAll`, and how the references map is kept across builds.
 *
 * Finding the strings in a file (the Babel traversal of the hooks task,
 * the regular-expression scan of the plugin task) is not modelled: what
 * they find is part of each source file.
 */
module ScanReferences {
  import opened Wrappers
  import opened Strs

  // ---------------------------------------------------------------------
  // replaceAll
  // ---------------------------------------------------------------------

  /** One round of `replaceAll`: the first occurrence of `needle` replaced by `rep`, or None when there is none. */
  function ReplaceFirst(s: string, needle: string, rep: string): (r: Option<string>)
    ensures r.None? <==> !Contains(s, needle)
    ensures r.Some? ==> |r.value| + |needle| == |s| + |rep|
  {
    match Find(s, needle)
    case None => None
    case Some(i) => Some(s[..i] + rep + s[i + |needle|..])
  }

  /**
   * `replaceAll` allowed at most `fuel` rounds: the string once no
   * occurrence is left, or None when occurrences remain after them.
   */
  function ReplaceAllWithin(s: string, needle: string, rep: string, fuel: nat): (r: Option<string>)
    ensures r.Some? ==> !Contains(r.value, needle)
    decreases fuel
  {
    match ReplaceFirst(s, needle, rep)
    case None => Some(s)
    case Some(t) => if fuel == 0 then None else ReplaceAllWithin(t, needle, rep, fuel - 1)
  }

  /** `replaceAll`, its loop bounded by `fuel` rounds. */
  method ReplaceAll(haystack: string, needle: string, replaceStr: string, fuel: nat) returns (r: Option<string>)
    ensures r == ReplaceAllWithin(haystack, needle, replaceStr, fuel)
  {
    var newBuffer := haystack;
    var rounds := fuel;
    var index := Find(newBuffer, needle);
    while index.Some?
      invariant index == Find(newBuffer, needle)
      invariant ReplaceAllWithin(newBuffer, needle, replaceStr, rounds) == ReplaceAllWithin(haystack, needle, replaceStr, fuel)
      decreases rounds
    {
      if rounds == 0 {
        return None;
      }
      var before := newBuffer[..index.value];
      var after := newBuffer[index.value + |needle|..];
      newBuffer := before + replaceStr + after;
      rounds := rounds - 1;
      index := Find(newBuffer, needle);
    }
    return Some(newBuffer);
  }

  /** More rounds than a finished replacement needs change nothing. */
  lemma {:induction false} ReplaceAllMoreFuel(s: string, needle: string, rep: string, fuel: nat, more: nat)
    requires fuel <= more && ReplaceAllWithin(s, needle, rep, fuel).Some?
    ensures ReplaceAllWithin(s, needle, rep, more) == ReplaceAllWithin(s, needle, rep, fuel)
    decreases fuel
  {
    match ReplaceFirst(s, needle, rep)
    case None =>
    case Some(t) =>
      ReplaceAllMoreFuel(t, needle, rep, fuel - 1, more - 1);
  }

  /**
   * A replacement shorter than the needle always finishes: every round
   * shortens the string, so `|s|` rounds are enough.
   */
  lemma {:induction false} ShorterReplacementFinishes(s: string, needle: string, rep: string)
    requires |rep| < |needle|
    ensures ReplaceAllWithin(s, needle, rep, |s|).Some?
    decreases |s|
  {
    match ReplaceFirst(s, needle, rep)
    case None =>
    case Some(t) =>
      ShorterReplacementFinishes(t, needle, rep);
      ReplaceAllMoreFuel(t, needle, rep, |t|, |s| - 1);
  }

  /** The first round keeps every occurrence the replacement carries. */
  lemma ReplaceFirstKeepsNeedle(s: string, needle: string, rep: string)
    requires Contains(rep, needle) && Contains(s, needle)
    ensures ReplaceFirst(s, needle, rep).Some? && Contains(ReplaceFirst(s, needle, rep).value, needle)
  {
    var i := Find(s, needle).value;
    var t := s[..i] + rep + s[i + |needle|..];
    var j := Find(rep, needle).value;
    assert t[i + j..i + j + |needle|] == rep[j..j + |needle|];
    ContainsAt(t, needle, i + j);
  }

  /**
   * A replacement that contains the needle never finishes on a string that
   * contains it, however many rounds it is given (an empty needle is
   * contained in everything).
   */
  lemma {:induction false} NeedleInReplacementDiverges(s: string, needle: string, rep: string, fuel: nat)
    requires Contains(rep, needle) && Contains(s, needle)
    ensures ReplaceAllWithin(s, needle, rep, fuel).None?
    decreases fuel
  {
    ReplaceFirstKeepsNeedle(s, needle, rep);
    if fuel > 0 {
      NeedleInReplacementDiverges(ReplaceFirst(s, needle, rep).value, needle, rep, fuel - 1);
    }
  }

  /** `replaceAll` starts again from the front after each round: two rounds, each on the first pair left. */
  lemma ReplaceAllExample()
    ensures ReplaceAllWithin("aaabcbaabea", "aa", "z", 2) == Some("zabcbzbea")
  {
    var s0, s1, s2 := "aaabcbaabea", "zabcbaabea", "zabcbzbea";
    PairAt(s0, 0);
    assert s0[..0] + "z" + s0[2..] == s1;
    assert ReplaceFirst(s0, "aa", "z") == Some(s1);
    forall k | 0 <= k < 5
      ensures s1[k] != 'a' || s1[k + 1] != 'a'
    {
      assert s1[0] == 'z' && s1[2] == 'b' && s1[4] == 'b';
    }
    PairAt(s1, 5);
    assert s1[..5] + "z" + s1[7..] == s2;
    assert ReplaceFirst(s1, "aa", "z") == Some(s2);
    forall k | 0 <= k < |s2| - 1
      ensures s2[k] != 'a' || s2[k + 1] != 'a'
    {
      assert s2[0] == 'z' && s2[2] == 'b' && s2[4] == 'b' && s2[6] == 'b' && s2[7] == 'e';
    }
    NoPair(s2);
  }

  /** The first `aa` of `s` is at `j` when `s` has `aa` there and no pair of `a` before it. */
  lemma PairAt(s: string, j: nat)
    requires j + 1 < |s| && s[j] == 'a' && s[j + 1] == 'a'
    requires forall k :: 0 <= k < j ==> s[k] != 'a' || s[k + 1] != 'a'
    ensures Find(s, "aa") == Some(j)
  {
    assert s[j..j + 2] == "aa";
    ContainsAt(s, "aa", j);
    FindFirst(s, "aa");
    var v := Find(s, "aa").value;
    assert MatchAt(s, "aa", v) && MatchAt(s, "aa", j);
    assert v <= j;
    assert s[v] == s[v..v + 2][0] && s[v + 1] == s[v..v + 2][1];
    assert s[v] == 'a' && s[v + 1] == 'a';
  }

  /** A string with no two `a` in a row has no `aa`. */
  lemma NoPair(s: string)
    requires forall k :: 0 <= k < |s| - 1 ==> s[k] != 'a' || s[k + 1] != 'a'
    ensures Find(s, "aa") == None
  {
    forall j
      ensures !MatchAt(s, "aa", j)
    {
      if 0 <= j && j + 2 <= |s| {
        assert s[j..j + 2] != "aa" by {
          assert s[j..j + 2][0] == s[j] && s[j..j + 2][1] == s[j + 1];
        }
      }
    }
  }

  // ---------------------------------------------------------------------
  // Single types and packages
  // ---------------------------------------------------------------------

  /**
   * `validateTypeName`'s fallback name: the last `.` turned into `$`.
   * Without a `.`, `lastIndexOf` gives -1 and the two slices give the name
   * minus its last character, then `$`, then the whole name.
   */
  function NestedName(className: string): (r: string)
  {
    match LastIndexOf(className, '.')
    case Some(j) => className[..j] + "$" + className[j + 1..]
    case None => (if className == [] then [] else className[..|className| - 1]) + "$" + className
  }

  /**
   * The fallback always holds a `$`; with a `.` it keeps the name's length,
   * and without one it is twice as long and ends with the name itself.
   */
  lemma NestedNameShape(className: string)
    ensures '$' in NestedName(className)
    ensures '.' in className ==> |NestedName(className)| == |className|
    ensures '.' !in className && className != [] ==>
      |NestedName(className)| == 2 * |className| && NestedName(className)[|className|..] == className
  {
  }

  /** With a `.`, the fallback is the name with its last `.` turned into `$` and nothing else changed. */
  lemma NestedNameSwapsLastDot(className: string, j: nat)
    requires j < |className| && className[j] == '.' && forall k :: j < k < |className| ==> className[k] != '.'
    ensures |NestedName(className)| == |className|
    ensures NestedName(className)[j] == '$'
    ensures forall k :: 0 <= k < |className| && k != j ==> NestedName(className)[k] == className[k]
  {
    assert LastIndexOf(className, '.') == Some(j);
  }

  /** Without a `.` the fallback doubles the name: `Foo` is looked up as `Fo$Foo`. */
  lemma NestedNameWithoutDot()
    ensures NestedName("Foo") == "Fo$Foo"
  {
    assert LastIndexOf("Foo", '.') == None;
  }

  /**
   * `validateTypeName`: the name itself when the metabase has that class,
   * otherwise the nested-class fallback when it has that, otherwise null.
   */
  function ValidateTypeName(classNames: seq<string>, className: string): (r: Option<string>)
    ensures r.Some? ==> r.value in classNames
    ensures className in classNames ==> r == Some(className)
    ensures className !in classNames ==> (r.Some? <==> NestedName(className) in classNames)
    ensures r.Some? && r.value != className ==> r.value == NestedName(className)
  {
    if className in classNames then Some(className)
    else if NestedName(className) in classNames then Some(NestedName(className))
    else None
  }

  /**
   * A name the model can turn into a package pattern: apart from `.` and a
   * final `*`, none of the regular-expression metacharacters the name
   * class admits (`?`, `[`, `\`, `*`).
   */
  predicate Plain(className: string)
  {
    (forall k :: 0 <= k < |className| ==> className[k] != '?' && className[k] != '[' && className[k] != '\\') &&
    (forall k :: 0 <= k < |className| - 1 ==> className[k] != '*')
  }

  /** One position of the pattern before the final `[A-Z]+[a-zA-Z0-9]+`: a literal character, or an unescaped `.`. */
  datatype Atom = Lit(ch: char) | AnyChar

  /**
   * The atoms `replace('.', '\\.')` leaves: only the first `.` is escaped,
   * every later `.` matches any character.
   */
  function PatternAtoms(s: string, dotSeen: bool): (r: seq<Atom>)
    ensures |r| == |s|
  {
    if s == [] then []
    else [if s[0] == '.' && dotSeen then AnyChar else Lit(s[0])] + PatternAtoms(s[1..], dotSeen || s[0] == '.')
  }

  /** The atom for each position: `AnyChar` exactly at a `.` after the first one. */
  lemma {:induction false} PatternAtomsAt(s: string, dotSeen: bool, k: nat)
    requires k < |s|
    ensures PatternAtoms(s, dotSeen)[k] ==
      if s[k] == '.' && (dotSeen || '.' in s[..k]) then AnyChar else Lit(s[k])
  {
    if k > 0 {
      var t, d := s[1..], dotSeen || s[0] == '.';
      PatternAtomsAt(t, d, k - 1);
      assert PatternAtoms(s, dotSeen)[k] == PatternAtoms(t, d)[k - 1];
      assert s[k] == t[k - 1];
      assert s[..k] == [s[0]] + t[..k - 1];
      assert ('.' in s[..k]) == (s[0] == '.' || '.' in t[..k - 1]);
    }
  }

  /**
   * The pattern `detectUsedClasses` builds: the atoms of the name, and when
   * it ends in `*` that `*` replaced by `[A-Z]+[a-zA-Z0-9]+`.
   */
  datatype PackagePattern = PackagePattern(atoms: seq<Atom>, tail: bool)

  function PatternOf(className: string): (r: PackagePattern)
    ensures r.tail <==> EndsWith(className, "*")
    ensures |r.atoms| == |className| - (if r.tail then 1 else 0)
  {
    if className != [] && className[|className| - 1] == '*' then
      PackagePattern(PatternAtoms(className[..|className| - 1], false), true)
    else
      PackagePattern(PatternAtoms(className, false), false)
  }

  /** What `.` does not match in a JavaScript regular expression. */
  predicate IsLineTerminator(c: char)
  {
    c == '\n' || c == '\r' || c == '\U{2028}' || c == '\U{2029}'
  }

  predicate AtomMatches(a: Atom, c: char)
  {
    if a.AnyChar? then !IsLineTerminator(c) else a.ch == c
  }

  /** `[A-Z]+[a-zA-Z0-9]+`: an upper-case letter, then at least one more letter or digit. */
  predicate IsSimpleName(t: string)
  {
    |t| >= 2 && IsUpper(t[0]) && forall k :: 1 <= k < |t| ==> IsLetter(t[k]) || IsDigit(t[k])
  }

  /** `mClass.match(new RegExp('^' + … + '$'))` for the pattern of `className`. */
  predicate MatchesPackage(mClass: string, className: string)
    requires Plain(className)
  {
    var p := PatternOf(className);
    |mClass| >= |p.atoms| &&
    (forall k :: 0 <= k < |p.atoms| ==> AtomMatches(p.atoms[k], mClass[k])) &&
    (if p.tail then IsSimpleName(mClass[|p.atoms|..]) else |mClass| == |p.atoms|)
  }

  /** A class directly in the package, with a simple name of two or more characters, matches. */
  lemma MemberOfPackageMatches(package: string, simpleName: string)
    requires Plain(package + ".*") && IsSimpleName(simpleName)
    ensures MatchesPackage(package + "." + simpleName, package + ".*")
  {
    var className := package + ".*";
    var mClass := package + "." + simpleName;
    assert className[..|className| - 1] == package + ".";
    var atoms := PatternAtoms(package + ".", false);
    forall k | 0 <= k < |atoms|
      ensures AtomMatches(atoms[k], mClass[k])
    {
      PatternAtomsAt(package + ".", false, k);
      assert mClass[k] == (package + ".")[k];
    }
    assert mClass[|atoms|..] == simpleName;
  }

  /**
   * A class the package pattern matches has a simple name of two or more
   * characters after one separator, and agrees with the package at every
   * character but its later dots; the separator is a `.` when the package
   * has none of its own.
   */
  lemma MatchedClassOfPackage(package: string, mClass: string)
    requires Plain(package + ".*") && MatchesPackage(mClass, package + ".*")
    ensures |mClass| >= |package| + 3 && IsSimpleName(mClass[|package| + 1..])
    ensures forall k :: 0 <= k < |package| && package[k] != '.' ==> mClass[k] == package[k]
    ensures '.' !in package ==> mClass[|package|] == '.'
  {
    var className := package + ".*";
    assert className[..|className| - 1] == package + ".";
    var atoms := PatternAtoms(package + ".", false);
    forall k | 0 <= k < |package| && package[k] != '.'
      ensures mClass[k] == package[k]
    {
      PatternAtomsAt(package + ".", false, k);
      assert AtomMatches(atoms[k], mClass[k]);
    }
    if '.' !in package {
      PatternAtomsAt(package + ".", false, |package|);
      assert (package + ".")[..|package|] == package;
      assert AtomMatches(atoms[|package|], mClass[|package|]);
    }
  }

  /** Later dots are not escaped: `a.b.*` also matches `a.bxCd`, a class of package `a`. */
  lemma UnescapedDotMatches()
    ensures Plain("a.b.*") && MatchesPackage("a.bxCd", "a.b.*")
  {
    var atoms := PatternAtoms("a.b.", false);
    assert "a.b.*"[..4] == "a.b.";
    PatternAtomsAt("a.b.", false, 0);
    PatternAtomsAt("a.b.", false, 1);
    PatternAtomsAt("a.b.", false, 2);
    PatternAtomsAt("a.b.", false, 3);
    assert "a.b."[..3] == "a.b";
    assert "a.bxCd"[4..] == "Cd";
  }

  /** The classes of `classNames` the pattern matches, in their order. */
  function Matching(classNames: seq<string>, className: string): (r: seq<string>)
    requires Plain(className)
    ensures forall x :: x in r <==> x in classNames && MatchesPackage(x, className)
  {
    if classNames == [] then []
    else
      var last := classNames[|classNames| - 1];
      Matching(classNames[..|classNames| - 1], className) + if MatchesPackage(last, className) then [last] else []
  }

  /** `detectUsedClasses`: every metabase class the package pattern matches, in metabase order. */
  method DetectUsedClasses(classNames: seq<string>, packageName: string) returns (usedClasses: seq<string>)
    requires Plain(packageName)
    ensures usedClasses == Matching(classNames, packageName)
  {
    usedClasses := [];
    for i := 0 to |classNames|
      invariant usedClasses == Matching(classNames[..i], packageName)
    {
      assert classNames[..i + 1][..i] == classNames[..i];
      if MatchesPackage(classNames[i], packageName) {
        usedClasses := usedClasses + [classNames[i]];
      }
    }
    assert classNames[..|classNames|] == classNames;
  }

  // ---------------------------------------------------------------------
  // One require
  // ---------------------------------------------------------------------

  /**
   * The wildcard test as written, `className.indexOf('.*') === className.length - 2`:
   * the first `.*` ends the name, or, since `indexOf` answers -1 when there
   * is none, the name is one character long.
   */
  predicate IsWildcardAsWritten(className: string)
    ensures |className| == 1 ==> IsWildcardAsWritten(className)
    ensures |className| != 1 && IsWildcardAsWritten(className) ==> EndsWith(className, ".*")
  {
    match Find(className, ".*")
    case Some(i) => i == |className| - 2
    case None => |className| == 1
  }

  /** The wildcard test as intended: the name ends in its first `.*`. */
  predicate IsWildcard(className: string)
    ensures IsWildcard(className) <==>
      EndsWith(className, ".*") && forall j :: 0 <= j < |className| - 2 ==> !MatchAt(className, ".*", j)
  {
    FindFirst(className, ".*");
    assert EndsWith(className, ".*") ==> MatchAt(className, ".*", |className| - 2);
    Find(className, ".*") == Some(|className| - 2)
  }

  /** The two tests part only on one-character names, which the written test takes for packages. */
  lemma WildcardTestsDiffer(className: string)
    ensures IsWildcardAsWritten(className) <==> IsWildcard(className) || |className| == 1
    ensures IsWildcard(className) ==> EndsWith(className, ".*") && |className| >= 2
  {
    if |className| == 1 {
      assert Find(className, ".*") == None;
    }
  }

  /** `slice(0, end)` with a negative `end` counted from the back, as JavaScript does. */
  function SliceTo(s: string, end: int): (r: string)
    ensures |r| <= |s|
  {
    if end >= 0 then (if end <= |s| then s[..end] else s)
    else if |s| + end > 0 then s[..|s| + end] else []
  }

  /** What the wrapper of a package or class is required as: `require('hyperloop/<name>')`. */
  function WrapperRequire(name: string): string
  {
    "require('hyperloop/" + name + "')"
  }

  /** The classes one require contributes and the statement it is rewritten to, if any. */
  datatype Resolution = Resolution(usedClasses: seq<string>, rewrite: Option<string>)

  /**
   * One require of `className`, as the extraction loop handles it with
   * the wildcard test `wildcard`: a package contributes the classes its
   * pattern matches and is rewritten to its package wrapper when there is
   * one; a single type contributes its validated name and is rewritten to
   * that class's wrapper; an unknown type contributes nothing.
   */
  function ResolveWith(classNames: seq<string>, className: string, wildcard: bool): (r: Resolution)
    requires Plain(className)
    ensures forall x :: x in r.usedClasses ==> x in classNames
    ensures r.rewrite.Some? <==> r.usedClasses != []
    ensures wildcard ==> r.usedClasses == Matching(classNames, className)
    ensures wildcard && r.rewrite.Some? ==> r.rewrite.value == WrapperRequire(SliceTo(className, |className| - 2))
    ensures !wildcard ==> match ValidateTypeName(classNames, className)
                          case None => r == Resolution([], None)
                          case Some(n) => r == Resolution([n], Some(WrapperRequire(n)))
  {
    if wildcard then
      var used := Matching(classNames, className);
      Resolution(used, if used != [] then Some(WrapperRequire(SliceTo(className, |className| - 2))) else None)
    else
      match ValidateTypeName(classNames, className)
      case None => Resolution([], None)
      case Some(n) => Resolution([n], Some(WrapperRequire(n)))
  }

  /** A require as the extraction loop handles it, with the intended wildcard test. */
  function Resolve(classNames: seq<string>, className: string): (r: Resolution)
    requires Plain(className)
    ensures forall x :: x in r.usedClasses ==> x in classNames
    ensures r.rewrite.Some? <==> r.usedClasses != []
  {
    ResolveWith(classNames, className, IsWildcard(className))
  }

  /** A require as the extraction loop handles it, with the wildcard test as written. */
  function ResolveAsWritten(classNames: seq<string>, className: string): (r: Resolution)
    requires Plain(className)
    ensures forall x :: x in r.usedClasses ==> x in classNames
  {
    ResolveWith(classNames, className, IsWildcardAsWritten(className))
  }

  /**
   * A wildcard require is rewritten to the wrapper of its package, the
   * name without `.*`, exactly when the package has a matching class.
   */
  lemma PackageRequireRewritten(classNames: seq<string>, package: string)
    requires Plain(package + ".*") && IsWildcard(package + ".*")
    ensures Resolve(classNames, package + ".*").usedClasses == Matching(classNames, package + ".*")
    ensures Resolve(classNames, package + ".*").rewrite.Some? ==>
      Resolve(classNames, package + ".*").rewrite.value == WrapperRequire(package)
  {
    var className := package + ".*";
    assert SliceTo(className, |className| - 2) == package;
  }

  /**
   * With a class `a` in the metabase, `require('a')` as written is taken
   * for a package: it still contributes `a`, but it is rewritten to
   * `require('hyperloop/')` instead of `require('hyperloop/a')`.
   */
  lemma OneCharacterRequire()
    ensures Plain("a")
    ensures ResolveAsWritten(["a"], "a") == Resolution(["a"], Some("require('hyperloop/')"))
    ensures Resolve(["a"], "a") == Resolution(["a"], Some("require('hyperloop/a')"))
  {
    OneCharacterTests();
    assert Matching(["a"], "a") == ["a"] by {
      assert PatternOf("a") == PackagePattern([Lit('a')], false);
      assert MatchesPackage("a", "a");
      assert ["a"][..0] == [];
    }
    assert SliceTo("a", -1) == [];
    assert ResolveWith(["a"], "a", true) == Resolution(["a"], Some(WrapperRequire([])));
    assert WrapperRequire([]) == "require('hyperloop/')";
    assert ValidateTypeName(["a"], "a") == Some("a");
    assert ResolveWith(["a"], "a", false) == Resolution(["a"], Some(WrapperRequire("a")));
    assert WrapperRequire("a") == "require('hyperloop/a')";
  }

  /** The name `a` is plain, and only the wildcard test as written takes it for a package. */
  lemma OneCharacterTests()
    ensures Plain("a") && IsWildcardAsWritten("a") && !IsWildcard("a")
  {
    assert Find("a", ".*") == None;
  }

  // ---------------------------------------------------------------------
  // One file
  // ---------------------------------------------------------------------

  /** Characters of the name class `[\w_/-\\.\\*]`: word characters, `/` to `\`, `.` and `*`. */
  predicate InNameClass(c: char)
  {
    IsWordChar(c) || ('/' <= c <= '\\') || c == '.' || c == '*'
  }

  /** The run of name characters starting at `i`, as long as it goes. */
  function RunFrom(s: string, i: nat): (r: string)
    requires i <= |s|
    ensures i + |r| <= |s| && s[i..i + |r|] == r
    ensures forall k :: 0 <= k < |r| ==> InNameClass(r[k])
    ensures i + |r| == |s| || !InNameClass(s[i + |r|])
    decreases |s| - i
  {
    if i < |s| && InNameClass(s[i]) then [s[i]] + RunFrom(s, i + 1) else []
  }

  /** `search` for the class: the first index at or after `i` holding a name character. */
  function FirstNameCharFrom(s: string, i: nat): (r: Option<nat>)
    requires i <= |s|
    ensures r.None? <==> forall k :: i <= k < |s| ==> !InNameClass(s[k])
    ensures r.Some? ==> i <= r.value < |s| && InNameClass(s[r.value])
    ensures r.Some? ==> forall k :: i <= k < r.value ==> !InNameClass(s[k])
    decreases |s| - i
  {
    if i == |s| then None
    else if InNameClass(s[i]) then Some(i)
    else FirstNameCharFrom(s, i + 1)
  }

  /**
   * `value.match(classOrPackageRegexp)[0]` in the hooks task: the first
   * maximal run of name characters in the literal, or null when it has none.
   */
  function FirstRun(s: string): (r: Option<string>)
    ensures r.None? <==> forall k :: 0 <= k < |s| ==> !InNameClass(s[k])
    ensures r.Some? ==> r.value != [] && forall k :: 0 <= k < |r.value| ==> InNameClass(r.value[k])
  {
    match FirstNameCharFrom(s, 0)
    case None => None
    case Some(j) => Some(RunFrom(s, j))
  }

  /** The names the literals of a file require, skipping literals without one. */
  function RunsOf(literals: seq<string>): (r: seq<string>)
    ensures |r| <= |literals|
    ensures forall c :: c in r <==> exists l :: l in literals && FirstRun(l) == Some(c)
  {
    if literals == [] then []
    else
      var last := literals[|literals| - 1];
      RunsOf(literals[..|literals| - 1]) + match FirstRun(last) case None => [] case Some(c) => [c]
  }

  /** Every name is one the model turns into a pattern. */
  predicate AllPlain(names: seq<string>)
  {
    forall i :: 0 <= i < |names| ==> Plain(names[i])
  }

  /** The classes a sequence of required names contributes, in order, duplicates kept. */
  function UsedIn(classNames: seq<string>, names: seq<string>): (r: seq<string>)
    requires AllPlain(names)
    ensures forall x :: x in r ==> x in classNames
  {
    if names == [] then []
    else UsedIn(classNames, names[..|names| - 1]) + Resolve(classNames, names[|names| - 1]).usedClasses
  }

  /** A name contributes its classes to the file's list. */
  lemma {:induction false} UsedInCollects(classNames: seq<string>, names: seq<string>, i: nat)
    requires AllPlain(names) && i < |names|
    ensures forall x :: x in Resolve(classNames, names[i]).usedClasses ==> x in UsedIn(classNames, names)
  {
    if i < |names| - 1 {
      UsedInCollects(classNames, names[..|names| - 1], i);
    }
  }

  /** The file's list is empty exactly when no name resolves to a class. */
  lemma {:induction false} UsedInEmpty(classNames: seq<string>, names: seq<string>)
    requires AllPlain(names)
    ensures UsedIn(classNames, names) == [] <==>
      forall i :: 0 <= i < |names| ==> Resolve(classNames, names[i]).usedClasses == []
  {
    if names != [] {
      var init, last := names[..|names| - 1], names[|names| - 1];
      UsedInEmpty(classNames, init);
      assert UsedIn(classNames, names) == UsedIn(classNames, init) + Resolve(classNames, last).usedClasses;
      assert forall i :: 0 <= i < |init| ==> init[i] == names[i];
    }
  }

  /** One require the plugin task's scan found: the whole statement and the name inside it. */
  datatype RequireMatch = RequireMatch(statement: string, className: string)

  /** What a source file holds for the scans: its text, the requires found in it, its string literals. */
  datatype SourceFile = SourceFile(content: string, calls: seq<RequireMatch>, literals: seq<string>)

  function NamesOf(calls: seq<RequireMatch>): (r: seq<string>)
    ensures |r| == |calls| && forall i :: 0 <= i < |calls| ==> r[i] == calls[i].className
  {
    seq(|calls|, i requires 0 <= i < |calls| => calls[i].className)
  }

  /**
   * The text after the plugin task's rewrites: each resolved require's
   * statement replaced everywhere by its wrapper require, in order; None
   * when a replacement does not finish within one round per character of
   * the text it works on.
   */
  function Rewritten(classNames: seq<string>, content: string, calls: seq<RequireMatch>): (r: Option<string>)
    requires AllPlain(NamesOf(calls))
    decreases |calls|
  {
    if calls == [] then Some(content)
    else
      assert AllPlain(NamesOf(calls[1..])) by {
        assert forall i :: 0 <= i < |calls| - 1 ==> NamesOf(calls[1..])[i] == NamesOf(calls)[i + 1];
      }
      match Resolve(classNames, calls[0].className).rewrite
      case None => Rewritten(classNames, content, calls[1..])
      case Some(str) =>
        match ReplaceAllWithin(content, calls[0].statement, str, |content| + 1)
        case None => None
        case Some(next) => Rewritten(classNames, next, calls[1..])
  }

  /** A file none of whose requires resolves keeps its text. */
  lemma {:induction false} NothingResolvedKeepsContent(classNames: seq<string>, content: string, calls: seq<RequireMatch>)
    requires AllPlain(NamesOf(calls))
    requires forall i :: 0 <= i < |calls| ==> Resolve(classNames, calls[i].className).rewrite.None?
    ensures Rewritten(classNames, content, calls) == Some(content)
    decreases |calls|
  {
    if calls != [] {
      assert AllPlain(NamesOf(calls[1..])) by {
        assert forall i :: 0 <= i < |calls| - 1 ==> NamesOf(calls[1..])[i] == NamesOf(calls)[i + 1];
      }
      assert Resolve(classNames, calls[0].className).rewrite.None?;
      NothingResolvedKeepsContent(classNames, content, calls[1..]);
    }
  }

  /** What `extractAndReplaceHyperloopRequires` answers for an existing file. */
  datatype Extraction = Extraction(usedClasses: seq<string>, replacedContent: Option<string>)
}
