/**
 * The rewrite of native requires and imports in app sources for iOS
 * (iphone/hooks/tasks/scan-references-task.js): which module names are
 * skipped, the token a require names, the redirect to the generated file,
 * the reference map it records, and the Soundex code used to suggest a
 * framework for a name that is not one.
 */
module IosScan {
  import opened Wrappers
  import opened Strs
  import opened JsStrings
  import opened JsValues

  // ---------------------------------------------------------------- module names

  /** `shouldSkip`: Alloy modules and relative or absolute paths are not native references. */
  predicate ShouldSkip(moduleName: string)
  {
    StartsWith(moduleName, "alloy/") || (moduleName != [] && (moduleName[0] == '.' || moduleName[0] == '/'))
  }

  /** `isBuiltin`: the one framework the generator provides itself. */
  predicate IsBuiltin(frameworkName: string)
  {
    frameworkName == "Titanium"
  }

  /** A character of `requireRegexp`: a word character, `/`, `-`, `\` or `.`. */
  predicate IsRequireChar(c: char)
  {
    IsWordChar(c) || c == '/' || c == '-' || c == '\\' || c == '.'
  }

  /** The longest prefix of `s` made of require characters. */
  function Run(s: string): (r: string)
    ensures |r| <= |s| && r == s[..|r|]
    ensures forall i :: 0 <= i < |r| ==> IsRequireChar(r[i])
    ensures |r| < |s| ==> !IsRequireChar(s[|r|])
  {
    if s == [] || !IsRequireChar(s[0]) then [] else [s[0]] + Run(s[1..])
  }

  /**
   * `match(requireRegexp)[0]`: the first maximal run of require characters,
   * None when there is none.
   */
  function RequireToken(s: string): (r: Option<string>)
    ensures r.None? <==> forall i :: 0 <= i < |s| ==> !IsRequireChar(s[i])
    ensures r.Some? ==> r.value != [] && forall i :: 0 <= i < |r.value| ==> IsRequireChar(r.value[i])
  {
    if s == [] then None
    else if IsRequireChar(s[0]) then Some(Run(s))
    else
      var rest := RequireToken(s[1..]);
      assert forall i :: 1 <= i < |s| ==> s[i] == s[1..][i - 1];
      rest
  }

  /** A name made only of require characters is its own token. */
  lemma {:induction false} WholeToken(s: string)
    requires s != [] && forall i :: 0 <= i < |s| ==> IsRequireChar(s[i])
    ensures RequireToken(s) == Some(s)
  {
    RunWhole(s);
  }

  lemma {:induction false} RunWhole(s: string)
    requires forall i :: 0 <= i < |s| ==> IsRequireChar(s[i])
    ensures Run(s) == s
  {
    if s != [] {
      RunWhole(s[1..]);
      assert [s[0]] + s[1..] == s;
    }
  }

  /** The generated file a native type is redirected to. */
  function HyperloopPath(pkg: string, className: string): string
  {
    "/hyperloop/" + ToLower(pkg) + "/" + ToLower(className)
  }

  /** The error thrown for a type its framework does not declare. */
  function MissingType(className: string, pkg: string, filename: string): string
  {
    "The iOS class \"" + className + "\" could not be found in the framework \"" + pkg + "\". (" + filename + ")"
  }

  // ---------------------------------------------------------------- soundEx

  /** The Soundex digit of an upper-case letter; vowels, H, W and Y have none. */
  function LetterCode(c: char): Option<nat>
  {
    if c in "BFPV" then Some(1)
    else if c in "CGJKQSXZ" then Some(2)
    else if c in "DT" then Some(3)
    else if c == 'L' then Some(4)
    else if c in "MN" then Some(5)
    else if c == 'R' then Some(6)
    else None
  }

  /** The letters A-Z of the upper-cased string, everything else removed. */
  function Letters(s: string): (r: string)
    ensures forall i :: 0 <= i < |r| ==> IsUpper(r[i])
  {
    if s == [] then []
    else
      var c := ToUpperChar(s[0]);
      (if IsUpper(c) then [c] else []) + Letters(s[1..])
  }

  function Codes(letters: string): (r: seq<Option<nat>>)
    ensures |r| == |letters|
    ensures forall i :: 0 <= i < |r| ==> r[i] == LetterCode(letters[i])
  {
    if letters == [] then [] else [LetterCode(letters[0])] + Codes(letters[1..])
  }

  /** The filter of the codes: each one is kept unless it equals the code just before it (`prev` for the first). */
  function Collapsed(prev: Option<nat>, codes: seq<Option<nat>>): (r: seq<Option<nat>>)
    ensures |r| <= |codes|
    ensures forall i :: 0 <= i < |r| ==> r[i] in codes
    decreases codes
  {
    if codes == [] then []
    else (if codes[0] != prev then [codes[0]] else []) + Collapsed(codes[0], codes[1..])
  }

  /** `join('')`: a digit for each code, nothing for a missing one. */
  function CodeString(codes: seq<Option<nat>>): (r: string)
    requires forall i :: 0 <= i < |codes| ==> codes[i].Some? ==> 1 <= codes[i].value <= 6
    ensures forall i :: 0 <= i < |r| ==> '1' <= r[i] <= '6'
  {
    if codes == [] then []
    else (if codes[0].Some? then [DigitChar(codes[0].value)] else []) + CodeString(codes[1..])
  }

  lemma {:induction false} CodesSmall(letters: string)
    ensures forall i :: 0 <= i < |Codes(letters)| ==> Codes(letters)[i].Some? ==> 1 <= Codes(letters)[i].value <= 6
  {
  }

  /**
   * `soundEx(str)`: the first letter, then the first three digits of the
   * collapsed codes of the others, padded with `0`. A string without a
   * letter gives `undefined000`, the first letter being undefined.
   */
  function SoundEx(s: string): (r: string)
    ensures r == "undefined000" <==> Letters(s) == []
    ensures Letters(s) != [] ==> |r| == 4 && r[0] == Letters(s)[0]
  {
    var letters := Letters(s);
    if letters == [] then "undefined000"
    else
      var collapsed := Collapsed(LetterCode(letters[0]), Codes(letters[1..]));
      CodesSmall(letters[1..]);
      [letters[0]] + (CodeString(collapsed) + "000")[..3]
  }

  /** A code is four characters: the first letter, upper-cased, and three digits from 0 to 6. */
  lemma SoundExShape(s: string)
    requires exists i :: 0 <= i < |s| && IsLetter(s[i])
    ensures |SoundEx(s)| == 4
    ensures SoundEx(s)[0] == Letters(s)[0] && IsUpper(SoundEx(s)[0])
    ensures forall i :: 1 <= i < 4 ==> '0' <= SoundEx(s)[i] <= '6'
  {
    LettersNonEmpty(s);
    var letters := Letters(s);
    CodesSmall(letters[1..]);
    var digits := CodeString(Collapsed(LetterCode(letters[0]), Codes(letters[1..]))) + "000";
    assert forall i :: 0 <= i < |digits| ==> '0' <= digits[i] <= '6';
  }

  lemma {:induction false} LettersNonEmpty(s: string)
    requires exists i :: 0 <= i < |s| && IsLetter(s[i])
    ensures Letters(s) != []
  {
    var i :| 0 <= i < |s| && IsLetter(s[i]);
    if i > 0 && !IsUpper(ToUpperChar(s[0])) {
      assert IsLetter(s[1..][i - 1]);
      LettersNonEmpty(s[1..]);
    }
  }

  lemma {:induction false} LettersIgnoreCase(s: string)
    ensures Letters(ToLower(s)) == Letters(s)
  {
    if s != [] {
      assert ToLower(s)[1..] == ToLower(s[1..]);
      LettersIgnoreCase(s[1..]);
    }
  }

  /** Case does not matter: `UIKit` and `uikit` have the same code. */
  lemma SoundExIgnoresCase(s: string)
    ensures SoundEx(ToLower(s)) == SoundEx(s)
  {
    LettersIgnoreCase(s);
  }

  /** A name without a letter has no first letter: its code is `undefined000`. */
  lemma {:induction false} SoundExWithoutLetters(s: string)
    requires forall i :: 0 <= i < |s| ==> !IsLetter(s[i])
    ensures Letters(s) == [] && SoundEx(s) == "undefined000"
  {
    if s != [] {
      assert forall i :: 0 <= i < |s[1..]| ==> s[1..][i] == s[i + 1];
      SoundExWithoutLetters(s[1..]);
    }
  }

  /** The frameworks suggested for a name that is none: those with the same Soundex code. */
  function Suggestions(pkg: string, frameworks: map<string, set<string>>): (r: set<string>)
    ensures forall n :: n in r <==> n in frameworks && SoundEx(n) == SoundEx(pkg)
  {
    set n | n in frameworks && SoundEx(n) == SoundEx(pkg)
  }

  // ---------------------------------------------------------------- require calls

  /** What happens to a `require(...)` call. */
  datatype RequireResult =
    | Skipped
    | NoFramework(pkg: string, suggestions: set<string>)
    | Redirected(pkg: string, className: string, target: string)

  /**
   * The `CallExpression` visitor on `require(arg)`, `arg` None when the
   * first argument is no string literal. The framework map gives, for each
   * framework, the names of its classes and enums.
   */
  function RequireRewrite(arg: Option<string>, frameworks: map<string, set<string>>, filename: string): (r: Result<RequireResult>)
    ensures arg.None? || ShouldSkip(arg.value) ==> r == Ok(Skipped)
    ensures r.Ok? && r.value.Redirected? ==> r.value.target == HyperloopPath(r.value.pkg, r.value.className)
    ensures r.Ok? && r.value.Redirected? ==> IsBuiltin(r.value.pkg) || (r.value.pkg in frameworks && r.value.className in frameworks[r.value.pkg])
    ensures r.Err? ==> exists c, p :: p in frameworks && c !in frameworks[p] && !IsBuiltin(p) && r.error == MissingType(c, p, filename)
  {
    if arg.None? || ShouldSkip(arg.value) || RequireToken(arg.value).None? then Ok(Skipped)
    else
      var tok := SplitChar(RequireToken(arg.value).value, '/');
      var pkg := tok[0];
      var className := if |tok| > 1 && tok[1] != [] then tok[1] else pkg;
      if IsBuiltin(pkg) then Ok(Redirected(pkg, className, HyperloopPath(pkg, className)))
      else if pkg !in frameworks then Ok(NoFramework(pkg, Suggestions(pkg, frameworks)))
      else if className !in frameworks[pkg] then Err(MissingType(className, pkg, filename))
      else Ok(Redirected(pkg, className, HyperloopPath(pkg, className)))
  }

  /** A name of word characters is a whole token of one piece. */
  lemma {:induction false} NameToken(name: string)
    requires name != [] && forall i :: 0 <= i < |name| ==> IsWordChar(name[i])
    ensures RequireToken(name) == Some(name)
    ensures SplitChar(name, '/') == [name]
  {
    WholeToken(name);
    assert '/' !in name by { forall i | 0 <= i < |name| ensures name[i] != '/' { } }
    SplitCharNone(name, '/');
  }

  /** `Framework/Type` of word characters is a whole token of two pieces. */
  lemma {:induction false} PathToken(pkg: string, className: string)
    requires pkg != [] && forall i :: 0 <= i < |pkg| ==> IsWordChar(pkg[i])
    requires forall i :: 0 <= i < |className| ==> IsWordChar(className[i])
    ensures RequireToken(pkg + "/" + className) == Some(pkg + "/" + className)
    ensures SplitChar(pkg + "/" + className, '/') == [pkg, className]
  {
    var s := pkg + "/" + className;
    forall i | 0 <= i < |s| ensures IsRequireChar(s[i]) {
      if i < |pkg| { assert s[i] == pkg[i]; } else if i > |pkg| { assert s[i] == className[i - |pkg| - 1]; }
    }
    WholeToken(s);
    assert '/' !in pkg by { forall i | 0 <= i < |pkg| ensures pkg[i] != '/' { } }
    assert '/' !in className by { forall i | 0 <= i < |className| ensures className[i] != '/' { } }
    SplitCharCons(pkg, '/', className);
    SplitCharNone(className, '/');
  }

  /** `Framework/Type` starts with `alloy/` only for the framework named `alloy`. */
  lemma {:induction false} AlloyPrefix(pkg: string, className: string)
    requires '/' !in pkg
    ensures StartsWith(pkg + "/" + className, "alloy/") ==> pkg == "alloy"
  {
    var s := pkg + "/" + className;
    if StartsWith(s, "alloy/") {
      assert forall k :: 0 <= k < 6 ==> s[k] == "alloy/"[k];
      assert forall k :: 0 <= k < 6 ==> ("alloy/"[k] == '/' <==> k == 5);
      assert s[|pkg|] == '/';
      assert forall i :: 0 <= i < |pkg| ==> s[i] == pkg[i] && s[i] != '/';
      assert s[5] == '/';
      assert |pkg| <= 5;
      assert "alloy/"[|pkg|] == '/';
      assert |pkg| == 5;
      assert pkg == s[..5];
    }
  }

  /** Only the framework named `alloy` makes `Framework/Type` an Alloy module. */
  lemma {:induction false} PathNotSkipped(pkg: string, className: string)
    requires pkg != [] && pkg != "alloy" && forall i :: 0 <= i < |pkg| ==> IsWordChar(pkg[i])
    ensures !ShouldSkip(pkg + "/" + className)
  {
    assert '/' !in pkg by { forall i | 0 <= i < |pkg| ensures pkg[i] != '/' { } }
    AlloyPrefix(pkg, className);
    assert (pkg + "/" + className)[0] == pkg[0];
  }

  /** A require of `Framework/Type` for a declared type goes to that type's generated file. */
  lemma RequireOfType(pkg: string, className: string, frameworks: map<string, set<string>>, filename: string)
    requires pkg != [] && className != [] && !IsBuiltin(pkg) && pkg != "alloy"
    requires forall i :: 0 <= i < |pkg| ==> IsWordChar(pkg[i])
    requires forall i :: 0 <= i < |className| ==> IsWordChar(className[i])
    requires pkg in frameworks && className in frameworks[pkg]
    ensures RequireRewrite(Some(pkg + "/" + className), frameworks, filename)
      == Ok(Redirected(pkg, className, HyperloopPath(pkg, className)))
  {
    PathToken(pkg, className);
    PathNotSkipped(pkg, className);
  }

  /** A redirected require is left alone when the file is scanned again. */
  lemma RequireRedirectStable(arg: Option<string>, frameworks: map<string, set<string>>, filename: string)
    requires RequireRewrite(arg, frameworks, filename).Ok? && RequireRewrite(arg, frameworks, filename).value.Redirected?
    ensures RequireRewrite(Some(RequireRewrite(arg, frameworks, filename).value.target), frameworks, filename) == Ok(Skipped)
  {
    var t := RequireRewrite(arg, frameworks, filename).value;
    assert t.target[0] == '/';
  }

  // ---------------------------------------------------------------- import declarations

  /** An import specifier: the imported name (None for a default import) and the local binding. */
  datatype Specifier = Specifier(imported: Option<string>, local: string)

  /** What happens to an `import` declaration. */
  datatype ImportResult =
    | ImportSkipped
    | ImportNoFramework(pkg: string, suggestions: set<string>)
    | ImportRewritten(refs: seq<(string, string)>, decls: seq<(string, string)>)

  /**
   * The specifiers of an import from `pkg`: each names a class (the imported
   * name, else the part after `/`) and becomes a default import of its
   * generated file. With `check` a class its framework does not declare
   * throws; a class left undefined throws a `TypeError` when lower-cased.
   */
  function SpecifierRewrites(pkg: string, file: Option<string>, specs: seq<Specifier>, types: set<string>,
                             check: bool, filename: string): (r: Result<ImportResult>)
    ensures r.Ok? ==> r.value.ImportRewritten? && |r.value.refs| == |specs| && |r.value.decls| == |specs|
    ensures r.Ok? ==> forall i :: 0 <= i < |specs| ==>
      r.value.refs[i].0 == pkg && r.value.decls[i] == (specs[i].local, HyperloopPath(pkg, r.value.refs[i].1))
    ensures r.Ok? ==> forall i :: 0 <= i < |specs| ==>
      (if specs[i].imported.Some? then r.value.refs[i].1 == specs[i].imported.value else file == Some(r.value.refs[i].1))
    ensures r.Ok? && check ==> forall i :: 0 <= i < |specs| ==> r.value.refs[i].1 in types
    decreases specs
  {
    if specs == [] then Ok(ImportRewritten([], []))
    else
      var className := if specs[0].imported.Some? then specs[0].imported else file;
      var lookedUp := if className.Some? then className.value else "undefined";
      if check && lookedUp !in types then Err(MissingType(lookedUp, pkg, filename))
      else if className.None? then Err(TypeError)
      else
        var rest := SpecifierRewrites(pkg, file, specs[1..], types, check, filename);
        if rest.Err? then rest
        else
          Ok(ImportRewritten([(pkg, className.value)] + rest.value.refs,
                             [(specs[0].local, HyperloopPath(pkg, className.value))] + rest.value.decls))
  }

  /**
   * The `ImportDeclaration` visitor on `import ... from source`, `source`
   * None when it is no string literal. As written the type test reads
   * `!isBuiltin`, the function itself, which is never false, so no class is
   * checked; the intended test, `!wasBuiltin`, checks every class of a
   * framework other than the builtin one.
   */
  function ImportRewrite(source: Option<string>, specs: seq<Specifier>, frameworks: map<string, set<string>>,
                         filename: string, asWritten: bool): (r: Result<ImportResult>)
    ensures source.None? || ShouldSkip(source.value) ==> r == Ok(ImportSkipped)
    ensures r.Ok? && r.value.ImportRewritten? ==> forall i :: 0 <= i < |r.value.decls| ==> ShouldSkip(r.value.decls[i].1)
    ensures !asWritten && r.Ok? && r.value.ImportRewritten? ==> forall i :: 0 <= i < |r.value.refs| ==>
      IsBuiltin(r.value.refs[i].0) || (r.value.refs[i].0 in frameworks && r.value.refs[i].1 in frameworks[r.value.refs[i].0])
  {
    if source.None? || ShouldSkip(source.value) || RequireToken(source.value).None? then Ok(ImportSkipped)
    else
      var tok := SplitChar(RequireToken(source.value).value, '/');
      var pkg := tok[0];
      var file := if |tok| > 1 then Some(tok[1]) else None;
      if pkg !in frameworks && !IsBuiltin(pkg) then Ok(ImportNoFramework(pkg, Suggestions(pkg, frameworks)))
      else
        var types := if pkg in frameworks then frameworks[pkg] else {};
        var r := SpecifierRewrites(pkg, file, specs, types, !asWritten && !IsBuiltin(pkg), filename);
        assert r.Ok? ==> forall i :: 0 <= i < |r.value.decls| ==> r.value.decls[i].1[0] == '/';
        r
  }

  /** The counterexample: as written an import of a class its framework lacks is rewritten, not refused. */
  lemma ImportUncheckedAsWritten()
    ensures ImportRewrite(Some("UIKit"), [Specifier(Some("NoSuchView"), "V")], map["UIKit" := {"UIView"}], "app.js", true).Ok?
    ensures ImportRewrite(Some("UIKit"), [Specifier(Some("NoSuchView"), "V")], map["UIKit" := {"UIView"}], "app.js", false).Err?
  {
    NameToken("UIKit");
    assert !ShouldSkip("UIKit") by { assert "UIKit"[0] == 'U'; }
  }

  // ---------------------------------------------------------------- the reference map

  /** `appendReference`: `value` joins the end of the list under `key`. */
  function Appended(refs: map<string, seq<string>>, key: string, value: string): (r: map<string, seq<string>>)
    ensures r.Keys == refs.Keys + {key}
    ensures r[key] == (if key in refs then refs[key] else []) + [value]
    ensures forall k :: k in refs && k != key ==> r[k] == refs[k]
  {
    refs[key := (if key in refs then refs[key] else []) + [value]]
  }

  /** The map after each pair of `pairs` is appended in order. */
  function AppendedAll(refs: map<string, seq<string>>, pairs: seq<(string, string)>): map<string, seq<string>>
    decreases pairs
  {
    if pairs == [] then refs else AppendedAll(Appended(refs, pairs[0].0, pairs[0].1), pairs[1..])
  }

  /** The values recorded under `key` in `pairs`, in order. */
  function ValuesOf(pairs: seq<(string, string)>, key: string): (r: seq<string>)
    ensures |r| <= |pairs|
  {
    if pairs == [] then []
    else (if pairs[0].0 == key then [pairs[0].1] else []) + ValuesOf(pairs[1..], key)
  }

  /**
   * The reference map holds, under each framework, the types recorded for
   * it in the order they were met, after what it held before; a framework
   * never recorded keeps its entry or stays absent.
   */
  lemma {:induction false} AppendedAllValues(refs: map<string, seq<string>>, pairs: seq<(string, string)>, key: string)
    ensures key in AppendedAll(refs, pairs) <==> key in refs || ValuesOf(pairs, key) != []
    ensures key in AppendedAll(refs, pairs) ==>
      AppendedAll(refs, pairs)[key] == (if key in refs then refs[key] else []) + ValuesOf(pairs, key)
    decreases pairs
  {
    if pairs != [] {
      var next := Appended(refs, pairs[0].0, pairs[0].1);
      AppendedAllValues(next, pairs[1..], key);
      if pairs[0].0 == key {
        assert (if key in refs then refs[key] else []) + [pairs[0].1] + ValuesOf(pairs[1..], key)
          == (if key in refs then refs[key] else []) + ([pairs[0].1] + ValuesOf(pairs[1..], key));
      }
    }
  }

  /** The state of one file's scan: the references found so far and whether the source changed. */
  class Scanner {
    var references: map<string, seq<string>>
    var modified: bool
    const frameworks: map<string, set<string>>
    const filename: string

    constructor(frameworks: map<string, set<string>>, filename: string)
      ensures references == map[] && !modified
      ensures this.frameworks == frameworks && this.filename == filename
    {
      references := map[];
      modified := false;
      this.frameworks := frameworks;
      this.filename := filename;
    }

    method AppendReference(key: string, value: string)
      modifies this
      ensures references == Appended(old(references), key, value)
      ensures modified == old(modified)
    {
      if key in references {
        var existing := references[key];
        existing := existing + [value];
        references := references[key := existing];
      } else {
        assert [] + [value] == [value];
        references := references[key := [value]];
      }
    }

    /** The `CallExpression` visitor: the new argument of a redirected require, None when the call is left alone. */
    method VisitRequire(arg: Option<string>) returns (r: Result<Option<string>>)
      modifies this
      ensures r.Err? <==> RequireRewrite(arg, frameworks, filename).Err?
      ensures r.Err? ==> r.error == RequireRewrite(arg, frameworks, filename).error
      ensures r.Ok? && RequireRewrite(arg, frameworks, filename).value.Redirected? ==>
        var red := RequireRewrite(arg, frameworks, filename).value;
        r.value == Some(red.target) && modified && references == Appended(old(references), red.pkg, red.className)
      ensures r.Ok? && !RequireRewrite(arg, frameworks, filename).value.Redirected? ==>
        r.value.None? && modified == old(modified) && references == old(references)
    {
      var outcome := RequireRewrite(arg, frameworks, filename);
      if outcome.Err? {
        return Err(outcome.error);
      }
      match outcome.value
      case Redirected(pkg, className, target) =>
        AppendReference(pkg, className);
        modified := true;
        return Ok(Some(target));
      case _ =>
        return Ok(None);
    }

    /**
     * The `ImportDeclaration` visitor: the replacing declarations, one per
     * specifier (local name, target), empty when the declaration is left
     * alone. A throw leaves the scan, so its partial state is not stated.
     */
    method VisitImport(source: Option<string>, specs: seq<Specifier>, asWritten: bool) returns (r: Result<seq<(string, string)>>)
      modifies this
      ensures r.Err? <==> ImportRewrite(source, specs, frameworks, filename, asWritten).Err?
      ensures r.Ok? && ImportRewrite(source, specs, frameworks, filename, asWritten).value.ImportRewritten? ==>
        var res := ImportRewrite(source, specs, frameworks, filename, asWritten).value;
        r.value == res.decls && references == AppendedAll(old(references), res.refs)
        && modified == (old(modified) || res.decls != [])
      ensures r.Ok? && !ImportRewrite(source, specs, frameworks, filename, asWritten).value.ImportRewritten? ==>
        r.value == [] && references == old(references) && modified == old(modified)
    {
      var outcome := ImportRewrite(source, specs, frameworks, filename, asWritten);
      if outcome.Err? {
        return Err(outcome.error);
      }
      if !outcome.value.ImportRewritten? {
        return Ok([]);
      }
      var refs := outcome.value.refs;
      ghost var start := references;
      for i := 0 to |refs|
        invariant AppendedAll(start, refs) == AppendedAll(references, refs[i..])
        invariant modified == old(modified)
      {
        assert refs[i..][1..] == refs[i + 1..];
        AppendReference(refs[i].0, refs[i].1);
      }
      assert refs[|refs|..] == [];
      var replacements := outcome.value.decls;
      if |replacements| > 0 {
        modified := true;
      }
      return Ok(replacements);
    }
  }
}
