/**
 * The import lines of a generated wrapper (iphone/hooks/generate/imports.js):
 * each class or struct a wrapper uses is required from the lower-cased path
 * of its generated file.
 */
module GenImports {
  import opened Wrappers
  import opened Strs
  import opened Json
  import opened JsValues

  const ImportHead := "\t$imports."
  const RequireHead := " = require('/hyperloop/"
  const RequireTail := "');"

  /** `generateImport`: `name` bound to the generated file at the lower-cased path `fp`. */
  function GenerateImport(name: string, fp: string): (r: string)
    ensures StartsWith(r, ImportHead + name + RequireHead) && EndsWith(r, RequireTail)
    ensures |r| == |ImportHead| + |name| + |RequireHead| + |fp| + |RequireTail|
  {
    var r := ImportHead + name + RequireHead + ToLower(fp) + RequireTail;
    assert r == (ImportHead + name + RequireHead) + (ToLower(fp) + RequireTail);
    assert r == (ImportHead + name + RequireHead + ToLower(fp)) + RequireTail;
    r
  }

  /** The path an import line of `name` requires, read back from the line. */
  function ImportedPath(line: string, name: string): (r: Option<string>)
    ensures r.Some? ==> |r.value| + |ImportHead| + |name| + |RequireHead| + |RequireTail| == |line|
  {
    var head := ImportHead + name + RequireHead;
    if StartsWith(line, head) && |head| + |RequireTail| <= |line| && EndsWith(line, RequireTail) then
      Some(line[|head|..|line| - |RequireTail|])
    else None
  }

  /** Reading the line back gives the lower-cased path. */
  lemma ImportRoundTrip(name: string, fp: string)
    ensures ImportedPath(GenerateImport(name, fp), name) == Some(ToLower(fp))
  {
    var head := ImportHead + name + RequireHead;
    var line := GenerateImport(name, fp);
    assert line == head + ToLower(fp) + RequireTail;
    assert line[|head|..|line| - |RequireTail|] == ToLower(fp);
  }

  lemma ToLowerIdempotent(s: string)
    ensures ToLower(ToLower(s)) == ToLower(s)
  {
    var t := ToLower(s);
    forall i | 0 <= i < |s|
      ensures ToLower(t)[i] == t[i]
    {
      assert !IsUpper(t[i]);
    }
  }

  /** Lower-casing the path before the call changes nothing. */
  lemma GenerateImportLowered(name: string, fp: string)
    ensures GenerateImport(name, ToLower(fp)) == GenerateImport(name, fp)
  {
    ToLowerIdempotent(fp);
  }

  // ---------------------------------------------------------------- makeImports

  /** A class or struct of the metabase, of which only the framework and file name are read. */
  datatype ImportEntry = ImportEntry(framework: Option<Json>, filename: Option<Json>)

  /** The imports object in the order `Object.keys` lists it; None is an entry that is falsy. */
  type Imports = seq<(string, Option<ImportEntry>)>

  /** An `NSObject` without a framework is given `Foundation`, in the metabase's own object. */
  function WithDefaultFramework(k: string, e: Option<ImportEntry>): (r: Option<ImportEntry>)
    ensures r.None? <==> e.None?
    ensures e.Some? && k == "NSObject" && !IsTruthyOpt(e.value.framework) ==> r == Some(e.value.(framework := Some(JStr("Foundation"))))
    ensures !(e.Some? && k == "NSObject" && !IsTruthyOpt(e.value.framework)) ==> r == e
  {
    if k == "NSObject" && e.Some? && !IsTruthyOpt(e.value.framework) then Some(e.value.(framework := Some(JStr("Foundation"))))
    else e
  }

  /**
   * The line of one entry: under its framework when it has one, else under
   * its file name; an entry with neither is only warned about.
   */
  function ImportLine(k: string, e: Option<ImportEntry>): (r: Option<string>)
  {
    match WithDefaultFramework(k, e)
    case None => None
    case Some(entry) =>
      if IsTruthyOpt(entry.framework) then Some(GenerateImport(k, ToLower(JsToString(entry.framework.value) + "/" + k)))
      else if IsTruthyOpt(entry.filename) then Some(GenerateImport(k, JsToString(entry.filename.value)))
      else None
  }

  /** The lines of the entries, in order. */
  function ImportLines(m: Imports): (r: seq<string>)
    decreases |m|
    ensures |r| <= |m|
  {
    if m == [] then []
    else
      var last := m[|m| - 1];
      ImportLines(m[..|m| - 1]) + OptLine(ImportLine(last.0, last.1))
  }

  function OptLine(o: Option<string>): (r: seq<string>)
    ensures forall l :: l in r <==> o == Some(l)
  {
    match o
    case None => []
    case Some(l) => [l]
  }

  /** The imports object after the call: only a framework-less `NSObject` has changed. */
  function Defaulted(m: Imports): (r: Imports)
    ensures |r| == |m|
    ensures forall i :: 0 <= i < |m| ==> r[i] == (m[i].0, WithDefaultFramework(m[i].0, m[i].1))
  {
    seq(|m|, i requires 0 <= i < |m| => (m[i].0, WithDefaultFramework(m[i].0, m[i].1)))
  }

  /** `makeImports`: the lines of every entry joined by newlines, and the `NSObject` entry given its framework. */
  method MakeImports(imports: Imports) returns (text: string, updated: Imports)
    ensures text == Join(ImportLines(imports), "\n")
    ensures updated == Defaulted(imports)
  {
    var results: seq<string> := [];
    updated := [];
    var i := 0;
    while i < |imports|
      invariant 0 <= i <= |imports|
      invariant results == ImportLines(imports[..i])
      invariant updated == Defaulted(imports[..i])
    {
      var (k, e) := imports[i];
      ImportsStep(imports, i);
      if k == "NSObject" && e.Some? && !IsTruthyOpt(e.value.framework) {
        e := Some(e.value.(framework := Some(JStr("Foundation"))));
      }
      updated := updated + [(k, e)];
      if e.Some? {
        if IsTruthyOpt(e.value.framework) {
          results := results + [GenerateImport(k, ToLower(JsToString(e.value.framework.value) + "/" + k))];
        } else if IsTruthyOpt(e.value.filename) {
          results := results + [GenerateImport(k, JsToString(e.value.filename.value))];
        }
      }
      i := i + 1;
    }
    assert imports[..i] == imports;
    text := Join(results, "\n");
  }

  /** One more entry adds its own line, if any, and its own defaulted entry. */
  lemma ImportsStep(imports: Imports, i: nat)
    requires i < |imports|
    ensures ImportLines(imports[..i + 1]) == ImportLines(imports[..i]) + OptLine(ImportLine(imports[i].0, imports[i].1))
    ensures Defaulted(imports[..i + 1]) == Defaulted(imports[..i]) + [(imports[i].0, WithDefaultFramework(imports[i].0, imports[i].1))]
  {
    assert imports[..i + 1][..i] == imports[..i];
  }

  /** A line is produced for an entry exactly when it is truthy and has a framework or a file name. */
  lemma ImportLinesMember(m: Imports, l: string)
    ensures l in ImportLines(m) <==> exists i :: 0 <= i < |m| && ImportLine(m[i].0, m[i].1) == Some(l)
  {
    if l in ImportLines(m) {
      ImportLinesSound(m, l);
    }
    if exists i :: 0 <= i < |m| && ImportLine(m[i].0, m[i].1) == Some(l) {
      var i :| 0 <= i < |m| && ImportLine(m[i].0, m[i].1) == Some(l);
      ImportLinesComplete(m, i);
    }
  }

  /** Every line comes from some entry. */
  lemma {:induction false} ImportLinesSound(m: Imports, l: string)
    requires l in ImportLines(m)
    decreases |m|
    ensures exists i :: 0 <= i < |m| && ImportLine(m[i].0, m[i].1) == Some(l)
  {
    var n := |m| - 1;
    ImportsStep(m, n);
    assert m[..n + 1] == m;
    if l in ImportLines(m[..n]) {
      ImportLinesSound(m[..n], l);
      var i :| 0 <= i < n && ImportLine(m[..n][i].0, m[..n][i].1) == Some(l);
      assert m[..n][i] == m[i];
    } else {
      assert ImportLine(m[n].0, m[n].1) == Some(l);
    }
  }

  /** Every entry's line, if any, is among the lines. */
  lemma {:induction false} ImportLinesComplete(m: Imports, i: nat)
    requires i < |m| && ImportLine(m[i].0, m[i].1).Some?
    decreases |m|
    ensures ImportLine(m[i].0, m[i].1).value in ImportLines(m)
  {
    var n := |m| - 1;
    ImportsStep(m, n);
    assert m[..n + 1] == m;
    if i < n {
      assert m[..n][i] == m[i];
      ImportLinesComplete(m[..n], i);
    }
  }

  /** An `NSObject` that has no framework is required from Foundation's files. */
  lemma NSObjectFromFoundation(e: ImportEntry)
    requires !IsTruthyOpt(e.framework)
    ensures ImportLine("NSObject", Some(e)) == Some(GenerateImport("NSObject", "Foundation/NSObject"))
    ensures ImportedPath(ImportLine("NSObject", Some(e)).value, "NSObject") == Some(ToLower("Foundation/NSObject"))
  {
    DefaultFrameworkLine("NSObject", e, "Foundation/NSObject");
    ImportRoundTrip("NSObject", "Foundation/NSObject");
  }

  lemma DefaultFrameworkLine(k: string, e: ImportEntry, p: string)
    requires k == "NSObject" && !IsTruthyOpt(e.framework) && p == "Foundation" + "/" + k
    ensures ImportLine(k, Some(e)) == Some(GenerateImport(k, p))
  {
    var d := WithDefaultFramework(k, Some(e)).value;
    assert d.framework == Some(JStr("Foundation")) && IsTruthy(JStr("Foundation"));
    assert JsToString(d.framework.value) + "/" + k == p;
    GenerateImportLowered(k, p);
  }

  /** An entry with a framework is required from `framework/name`, lower-cased. */
  lemma FrameworkPath(k: string, e: ImportEntry)
    requires IsTruthyOpt(WithDefaultFramework(k, Some(e)).value.framework)
    ensures
      var fw := WithDefaultFramework(k, Some(e)).value.framework.value;
      ImportedPath(ImportLine(k, Some(e)).value, k) == Some(ToLower(JsToString(fw) + "/" + k))
  {
    var fw := WithDefaultFramework(k, Some(e)).value.framework.value;
    var p := ToLower(JsToString(fw) + "/" + k);
    ImportRoundTrip(k, p);
    ToLowerIdempotent(JsToString(fw) + "/" + k);
  }
}
