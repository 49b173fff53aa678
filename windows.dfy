/**
 * How the Windows build hook (windows/hooks/hyperloop.js) recognises native
 * API references in application code: which `require`/`import` strings
 * name a Windows or third-party type or namespace, and the names it records
 * for namespaces, imported classes and native events.
 */
module WindowsHooks {
  import opened Wrappers
  import opened Strs

  /**
   * A reference to a native API: it starts with the name of a configured
   * third-party library followed by `.`, or with `Windows.` or `System.`.
   */
  predicate IsWindowsAPI(thirdpartyLibraries: seq<string>, value: string)
  {
    (exists i :: 0 <= i < |thirdpartyLibraries| && StartsWith(value, thirdpartyLibraries[i] + ".")) ||
    StartsWith(value, "Windows.") || StartsWith(value, "System.")
  }

  /** `hasWindowsAPI`, with its loop over the third-party libraries. */
  method HasWindowsAPI(thirdpartyLibraries: seq<string>, value: string) returns (b: bool)
    ensures b <==> IsWindowsAPI(thirdpartyLibraries, value)
  {
    for i := 0 to |thirdpartyLibraries|
      invariant forall j :: 0 <= j < i ==> !StartsWith(value, thirdpartyLibraries[j] + ".")
    {
      if StartsWith(value, thirdpartyLibraries[i] + ".") {
        return true;
      }
    }
    return StartsWith(value, "Windows.") || StartsWith(value, "System.");
  }

  /** `hasWindowsNamespace`: a native API reference ending in `.*`. */
  predicate IsWindowsNamespace(thirdpartyLibraries: seq<string>, value: string)
  {
    IsWindowsAPI(thirdpartyLibraries, value) && EndsWith(value, ".*")
  }

  /** The package of a namespace reference: the reference without its `.*`. */
  function PackageName(value: string): (r: string)
    requires EndsWith(value, ".*")
    ensures r + ".*" == value
  {
    value[..|value| - 2]
  }

  /** What a `require` of a string literal records. */
  datatype NativeReference =
    | NativeNamespace(package: string)
    | NativeType(name: string)

  /**
   * A `require` of a native API records its package when it is a namespace
   * and the type itself otherwise; other strings record nothing.
   */
  function RequireReference(thirdpartyLibraries: seq<string>, value: string): (r: Option<NativeReference>)
    ensures r.None? <==> !IsWindowsAPI(thirdpartyLibraries, value)
    ensures r.Some? && r.value.NativeNamespace? ==> r.value.package + ".*" == value
    ensures r.Some? && r.value.NativeType? ==> r.value.name == value && !EndsWith(value, ".*")
  {
    if !IsWindowsAPI(thirdpartyLibraries, value) then None
    else if IsWindowsNamespace(thirdpartyLibraries, value) then Some(NativeNamespace(PackageName(value)))
    else Some(NativeType(value))
  }

  /**
   * The class an import specifier names: for a namespace import, the
   * imported name inside the package; otherwise the imported module itself.
   */
  function ImportedClassName(thirdpartyLibraries: seq<string>, source: string, imported: string): (r: string)
    requires IsWindowsAPI(thirdpartyLibraries, source)
    ensures IsWindowsNamespace(thirdpartyLibraries, source) ==> r == PackageName(source) + "." + imported
    ensures !IsWindowsNamespace(thirdpartyLibraries, source) ==> r == source
  {
    if IsWindowsNamespace(thirdpartyLibraries, source) then PackageName(source) + "." + imported else source
  }

  /** A class imported from a namespace is itself a native API reference. */
  lemma ImportedClassIsNative(thirdpartyLibraries: seq<string>, source: string, imported: string)
    requires IsWindowsNamespace(thirdpartyLibraries, source)
    ensures IsWindowsAPI(thirdpartyLibraries, ImportedClassName(thirdpartyLibraries, source, imported))
  {
    var name := ImportedClassName(thirdpartyLibraries, source, imported);
    var package := PackageName(source);
    assert name == package + "." + imported;
    if exists i :: 0 <= i < |thirdpartyLibraries| && StartsWith(source, thirdpartyLibraries[i] + ".") {
      var i :| 0 <= i < |thirdpartyLibraries| && StartsWith(source, thirdpartyLibraries[i] + ".");
      PrefixCarries(source, package, ".", imported, thirdpartyLibraries[i] + ".");
    } else if StartsWith(source, "Windows.") {
      PrefixCarries(source, package, ".", imported, "Windows.");
    } else {
      PrefixCarries(source, package, ".", imported, "System.");
    }
  }

  /**
   * A prefix of `package + ".*"` that ends in `.` is also a prefix of
   * `package + "." + imported`.
   */
  lemma PrefixCarries(source: string, package: string, dot: string, imported: string, prefix: string)
    requires source == package + ".*" && dot == "." && |prefix| > 0 && prefix[|prefix| - 1] == '.'
    requires StartsWith(source, prefix)
    ensures StartsWith(package + dot + imported, prefix)
  {
    var name := package + dot + imported;
    assert |prefix| <= |package| + 1;
    forall k | 0 <= k < |prefix|
      ensures name[k] == prefix[k]
    {
      assert source[k] == prefix[k];
      if k < |package| {
        assert name[k] == package[k] == source[k];
      } else {
        assert name[k] == '.' == source[k];
      }
    }
  }

  /** Every `.` of a type name replaced by `_` (the global regular-expression replace). */
  function Underscored(s: string): (r: string)
    ensures |r| == |s| && '.' !in r
    ensures forall i :: 0 <= i < |s| ==> r[i] == if s[i] == '.' then '_' else s[i]
  {
    if s == [] then [] else [if s[0] == '.' then '_' else s[0]] + Underscored(s[1..])
  }

  /** The key a native event is recorded under: the event name, `_`, and the type with `_` for `.`. */
  function EventSignature(eventName: string, constructorType: string): (r: string)
    ensures |r| == |eventName| + 1 + |constructorType|
    ensures r[..|eventName| + 1] == eventName + "_"
    ensures '.' !in eventName ==> '.' !in r
  {
    eventName + "_" + Underscored(constructorType)
  }

  /**
   * Two events with names free of `_` are recorded under the same key only
   * when they are the same event on types that differ at most where one has
   * `.` and the other `_`.
   */
  lemma EventSignatureInjective(e1: string, t1: string, e2: string, t2: string)
    requires '_' !in e1 && '_' !in e2
    requires EventSignature(e1, t1) == EventSignature(e2, t2)
    ensures e1 == e2 && Underscored(t1) == Underscored(t2)
  {
    var s := EventSignature(e1, t1);
    FirstUnderscore(e1, Underscored(t1));
    FirstUnderscore(e2, Underscored(t2));
    if |e1| != |e2| {
      assert false;
    }
    assert e1 == s[..|e1|] == e2;
    assert Underscored(t1) == s[|e1| + 1..] == Underscored(t2);
  }

  /** In `e + "_" + u` with no `_` in `e`, the first `_` is at index `|e|`. */
  lemma FirstUnderscore(e: string, u: string)
    requires '_' !in e
    ensures (e + "_" + u)[|e|] == '_'
    ensures forall k :: 0 <= k < |e| ==> (e + "_" + u)[k] != '_'
  {
    forall k | 0 <= k < |e|
      ensures (e + "_" + u)[k] != '_'
    {
      assert (e + "_" + u)[k] == e[k];
    }
  }
}
