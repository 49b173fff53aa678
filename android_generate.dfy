/**
 * The Android wrapper generator's class bookkeeping
 * (android/hooks/metabase/generate.js): which metabase classes a set of
 * referenced classes pulls in, the identifiers it makes safe for
 * JavaScript, and the package wrappers it writes.
 */
module AndroidGenerate {
  import opened Strs
  import Order

  /** A method overload: its return type and argument types. */
  datatype MethodDef = MethodDef(returnType: string, args: seq<string>)

  /**
   * A class of the Java metabase: its superclass (`""` when it has none),
   * its method overloads in the order the metabase lists them, and the
   * types of its fields and constants.
   */
  datatype ClassDef = ClassDef(superClass: string, methods: seq<MethodDef>, properties: seq<string>)

  type Metabase = map<string, ClassDef>

  /** The types the overloads mention, in order: each overload's return type, then its argument types. */
  function MethodTypes(methods: seq<MethodDef>): (r: seq<string>)
    ensures forall m :: m in methods ==> m.returnType in r && forall a :: a in m.args ==> a in r
    ensures forall t :: t in r ==> exists m :: m in methods && (t == m.returnType || t in m.args)
  {
    if methods == [] then []
    else [methods[0].returnType] + methods[0].args + MethodTypes(methods[1..])
  }

  /**
   * The names a class's expansion visits, in the source's order: the
   * superclass, each overload's return and argument types, the field types.
   */
  function Dependencies(c: ClassDef): (r: seq<string>)
    ensures c.superClass != "" ==> c.superClass in r
    ensures forall m :: m in c.methods ==> m.returnType in r && forall a :: a in m.args ==> a in r
    ensures forall p :: p in c.properties ==> p in r
  {
    (if c.superClass != "" then [c.superClass] else []) + MethodTypes(c.methods) + c.properties
  }

  /** Every dependency of `c` that the metabase knows has been expanded. */
  ghost predicate Closed(mb: Metabase, c: string, done: seq<string>)
    requires c in mb
  {
    forall d :: d in Dependencies(mb[c]) && d in mb ==> d in done
  }

  /** The index of the first `$` of an inner class name. */
  function FirstDollar(s: string): (i: nat)
    requires '$' in s
    ensures i < |s| && s[i] == '$' && '$' !in s[..i]
  {
    if s[0] == '$' then 0 else 1 + FirstDollar(s[1..])
  }

  /**
   * `x` is listed for the expanded class `c`: the class itself, the
   * enclosing class of an inner class, or a metabase class nested directly
   * or deeper in a class that is not inner.
   */
  ghost predicate Pushes(mb: Metabase, c: string, x: string)
  {
    x == c ||
    ('$' in c && x == c[..FirstDollar(c)]) ||
    ('$' !in c && x in mb && StartsWith(x, c + "$"))
  }

  /** The names listed in `expanded` are exactly those the classes expanded here push. */
  ghost predicate Lists(mb: Metabase, done: seq<string>, done2: seq<string>, expanded: seq<string>)
  {
    (forall x :: x in expanded ==> exists c :: c in done2 && c !in done && Pushes(mb, c, x)) &&
    (forall c, x :: c in done2 && c !in done && Pushes(mb, c, x) ==> x in expanded)
  }

  /** `done2` extends `done` with distinct metabase classes. */
  ghost predicate Extends(mb: Metabase, done: seq<string>, done2: seq<string>)
  {
    |done| <= |done2| && done2[..|done|] == done &&
    (forall i :: |done| <= i < |done2| ==> done2[i] in mb && done2[i] !in done2[..i])
  }

  /**
   * Each class expanded since `done` is one of the `roots` or a dependency
   * of a class expanded before it: nothing is expanded that the roots do not reach.
   */
  ghost predicate Reached(mb: Metabase, done: seq<string>, done2: seq<string>, roots: set<string>)
    requires Extends(mb, done, done2)
  {
    forall i :: |done| <= i < |done2| ==>
      done2[i] in roots || exists j :: |done| <= j < i && done2[i] in Dependencies(mb[done2[j]])
  }

  /** Every name of `names` that the metabase knows is expanded in `done`. */
  ghost predicate AllExpanded(mb: Metabase, names: seq<string>, done: seq<string>)
  {
    forall d :: d in names && d in mb ==> d in done
  }

  lemma AllExpandedStep(mb: Metabase, names: seq<string>, i: nat, done2: seq<string>, done3: seq<string>)
    requires i < |names|
    requires AllExpanded(mb, names[..i], done2)
    requires forall x :: x in done2 ==> x in done3
    requires names[i] in mb ==> names[i] in done3
    ensures AllExpanded(mb, names[..i + 1], done3)
  {
    assert names[..i + 1] == names[..i] + [names[i]];
  }

  /** Every class expanded since `done` has all its metabase dependencies expanded. */
  ghost predicate NewClosed(mb: Metabase, done: seq<string>, done2: seq<string>)
  {
    forall c :: c in done2 && c !in done && c in mb ==> Closed(mb, c, done2)
  }

  /** The metabase classes not expanded yet. */
  ghost function Unvisited(mb: Metabase, done: seq<string>): nat
  {
    |mb.Keys - set x | x in done|
  }

  lemma ExtendsTrans(mb: Metabase, a: seq<string>, b: seq<string>, c: seq<string>)
    requires Extends(mb, a, b) && Extends(mb, b, c)
    ensures Extends(mb, a, c)
    ensures forall x :: x in a ==> x in b
    ensures forall x :: x in b ==> x in c
  {
    assert c[..|b|][..|a|] == c[..|a|];
    forall i | |a| <= i < |c|
      ensures c[i] in mb && c[i] !in c[..i]
    {
      if i < |b| {
        assert c[..i] == b[..i];
        assert c[i] == b[i];
      }
    }
    assert forall j :: 0 <= j < |a| ==> b[j] == a[j];
    assert forall j :: 0 <= j < |b| ==> c[j] == b[j];
  }

  lemma UnvisitedShrinks(mb: Metabase, done: seq<string>, className: string, done2: seq<string>)
    requires className in mb && className !in done
    requires forall x :: x in done ==> x in done2
    requires className in done2
    ensures Unvisited(mb, done2) < Unvisited(mb, done)
  {
    var before := mb.Keys - set x | x in done;
    var after := mb.Keys - set x | x in done2;
    assert after <= before;
    assert className in before - after;
    assert before == after + (before - after);
    assert |before - after| >= 1;
  }

  /**
   * `expandClassDependencies` with the shared `done` list threaded through:
   * a class missing from the metabase or already expanded lists nothing;
   * otherwise the class is marked and listed, its dependencies are
   * expanded in order, and then its enclosing class (an inner class) or
   * its nested metabase classes (any other class) are listed unexpanded.
   */
  method ExpandClass(mb: Metabase, className: string, done: seq<string>) returns (expanded: seq<string>, done2: seq<string>)
    decreases Unvisited(mb, done), 1
    ensures Extends(mb, done, done2)
    ensures Reached(mb, done, done2, {className})
    ensures className in mb ==> className in done2
    ensures className !in mb || className in done ==> expanded == [] && done2 == done
    ensures NewClosed(mb, done, done2)
    ensures Lists(mb, done, done2, expanded)
  {
    if className !in mb || className in done {
      assert done[..|done|] == done;
      return [], done;
    }
    var listed;
    listed, done2 := ExpandDependenciesOf(mb, className, done);
    var own: seq<string>;
    if '$' in className {
      own := [className[..FirstDollar(className)]];
    } else {
      own := NestedClasses(mb, className);
    }
    ExtendsTrans(mb, done, done + [className], done2);
    ListsDone(mb, className, done, done2, listed, own);
    ClosedDone(mb, className, done, done2);
    expanded := [className] + listed + own;
  }

  /**
   * The middle of `expandClassDependencies`: `className` marked as expanded,
   * then each of its dependencies expanded in turn.
   */
  method ExpandDependenciesOf(mb: Metabase, className: string, done: seq<string>) returns (listed: seq<string>, done2: seq<string>)
    requires className in mb && className !in done
    decreases Unvisited(mb, done), 0
    ensures Extends(mb, done + [className], done2) && Extends(mb, done, done2)
    ensures Reached(mb, done, done2, {className})
    ensures AllExpanded(mb, Dependencies(mb[className]), done2)
    ensures NewClosed(mb, done + [className], done2)
    ensures Lists(mb, done + [className], done2, listed)
  {
    done2 := done + [className];
    listed := [];
    var deps := Dependencies(mb[className]);
    ExpandingStart(mb, className, done, deps);
    for i := 0 to |deps|
      invariant ExpandingSoFar(mb, className, done, deps, i, done2, listed)
    {
      ExpandingShrinks(mb, className, done, deps, i, done2, listed);
      var more, done3 := ExpandClass(mb, deps[i], done2);
      ExpandStep(mb, className, done, deps, i, done2, done3, listed, more);
      listed := listed + more;
      done2 := done3;
    }
    ExpandingDone(mb, className, done, deps, done2, listed);
  }

  /** Nothing is expanded yet but `className` itself. */
  lemma ExpandingStart(mb: Metabase, className: string, done: seq<string>, deps: seq<string>)
    requires className in mb && className !in done
    ensures ExpandingSoFar(mb, className, done, deps, 0, done + [className], [])
  {
    var start := done + [className];
    assert start[..|done|] == done;
    assert start[..|start|] == start;
  }

  /** Each round leaves fewer classes to expand than there were before `className`. */
  lemma ExpandingShrinks(mb: Metabase, className: string, done: seq<string>, deps: seq<string>, i: nat,
                         done2: seq<string>, listed: seq<string>)
    requires className in mb && className !in done && i <= |deps|
    requires ExpandingSoFar(mb, className, done, deps, i, done2, listed)
    ensures Unvisited(mb, done2) < Unvisited(mb, done)
  {
    ExtendsTrans(mb, done, done + [className], done2);
    UnvisitedShrinks(mb, done, className, done2);
  }

  /** Once every dependency is expanded, the contract of `ExpandDependenciesOf` holds. */
  lemma ExpandingDone(mb: Metabase, className: string, done: seq<string>, deps: seq<string>,
                      done2: seq<string>, listed: seq<string>)
    requires className in mb && deps == Dependencies(mb[className])
    requires ExpandingSoFar(mb, className, done, deps, |deps|, done2, listed)
    ensures Extends(mb, done + [className], done2) && Extends(mb, done, done2)
    ensures Reached(mb, done, done2, {className})
    ensures AllExpanded(mb, Dependencies(mb[className]), done2)
    ensures NewClosed(mb, done + [className], done2)
    ensures Lists(mb, done + [className], done2, listed)
  {
    assert deps[..|deps|] == deps;
  }

  /**
   * The state of `expandClassDependencies` once the first `i` dependencies
   * of `className` are expanded.
   */
  ghost predicate ExpandingSoFar(mb: Metabase, className: string, done: seq<string>, deps: seq<string>, i: nat,
                                 done2: seq<string>, listed: seq<string>)
    requires i <= |deps|
  {
    Extends(mb, done + [className], done2) && Extends(mb, done, done2) &&
    Reached(mb, done, done2, {className}) &&
    AllExpanded(mb, deps[..i], done2) &&
    NewClosed(mb, done + [className], done2) &&
    Lists(mb, done + [className], done2, listed)
  }

  /** Expanding the next dependency keeps `ExpandingSoFar`. */
  lemma ExpandStep(mb: Metabase, className: string, done: seq<string>, deps: seq<string>, i: nat,
                   done2: seq<string>, done3: seq<string>, listed: seq<string>, more: seq<string>)
    requires className in mb && className !in done && deps == Dependencies(mb[className]) && i < |deps|
    requires ExpandingSoFar(mb, className, done, deps, i, done2, listed)
    requires Extends(mb, done2, done3) && Reached(mb, done2, done3, {deps[i]})
    requires deps[i] in mb ==> deps[i] in done3
    requires NewClosed(mb, done2, done3) && Lists(mb, done2, done3, more)
    ensures ExpandingSoFar(mb, className, done, deps, i + 1, done3, listed + more)
  {
    var start := done + [className];
    ListsStep(mb, start, done2, done3, listed, more);
    ReachedStep(mb, className, done, done2, done3, deps[i]);
    ExtendsTrans(mb, start, done2, done3);
    ExtendsTrans(mb, done, done2, done3);
    AllExpandedStep(mb, deps, i, done2, done3);
  }

  /** Expanding one more dependency keeps the listing of the classes expanded so far. */
  lemma ListsStep(mb: Metabase, base: seq<string>, done2: seq<string>, done3: seq<string>, listed: seq<string>, more: seq<string>)
    requires Extends(mb, base, done2) && Extends(mb, done2, done3)
    requires Lists(mb, base, done2, listed) && Lists(mb, done2, done3, more)
    ensures Lists(mb, base, done3, listed + more)
  {
    ExtendsTrans(mb, base, done2, done3);
  }

  /** What a dependency of `className` expands is reached from `className`. */
  lemma ReachedStep(mb: Metabase, className: string, done: seq<string>, done2: seq<string>, done3: seq<string>, dep: string)
    requires className in mb && className !in done
    requires Extends(mb, done + [className], done2) && Extends(mb, done, done2) && Extends(mb, done2, done3)
    requires dep in Dependencies(mb[className])
    requires Reached(mb, done, done2, {className}) && Reached(mb, done2, done3, {dep})
    ensures Extends(mb, done, done3) && Reached(mb, done, done3, {className})
  {
    ExtendsTrans(mb, done, done2, done3);
    assert done3[..|done2|] == done2;
    assert done2[|done|] == className;
    forall i | |done| <= i < |done3|
      ensures done3[i] in {className} || exists j :: |done| <= j < i && done3[i] in Dependencies(mb[done3[j]])
    {
      if i < |done2| {
        assert done3[i] == done2[i];
        if done2[i] !in {className} {
          var j :| |done| <= j < i && done2[i] in Dependencies(mb[done2[j]]);
          assert done3[j] == done2[j];
        }
      } else if done3[i] == dep {
        assert done3[|done|] == className;
      }
    }
  }

  /** Once a class's own names are listed, the whole expansion is listed. */
  lemma ListsDone(mb: Metabase, className: string, done: seq<string>, done2: seq<string>, listed: seq<string>, own: seq<string>)
    requires className in mb && className !in done
    requires Extends(mb, done + [className], done2) && Extends(mb, done, done2)
    requires Lists(mb, done + [className], done2, listed)
    requires forall x :: x in own ==> Pushes(mb, className, x)
    requires forall x :: Pushes(mb, className, x) ==> x == className || x in own
    ensures Lists(mb, done, done2, [className] + listed + own)
  {
    assert done2[|done|] == className;
    var expanded := [className] + listed + own;
    forall x | x in expanded
      ensures exists c :: c in done2 && c !in done && Pushes(mb, c, x)
    {
      if x !in listed {
        assert Pushes(mb, className, x);
      }
    }
  }

  /** Once its dependencies are expanded, a class joins the closed expansion. */
  lemma ClosedDone(mb: Metabase, className: string, done: seq<string>, done2: seq<string>)
    requires className in mb
    requires NewClosed(mb, done + [className], done2) && AllExpanded(mb, Dependencies(mb[className]), done2)
    ensures NewClosed(mb, done, done2)
  {
  }

  /** The metabase classes nested in `className`: its inner classes at any depth. */
  method NestedClasses(mb: Metabase, className: string) returns (nested: seq<string>)
    ensures forall x :: x in nested <==> x in mb && StartsWith(x, className + "$")
  {
    nested := [];
    var others := mb.Keys;
    while others != {}
      invariant others <= mb.Keys
      invariant forall x :: x in nested <==> x in mb && x !in others && StartsWith(x, className + "$")
      decreases |others|
    {
      var otherClass := PickKey(others);
      if StartsWith(otherClass, className + "$") {
        nested := nested + [otherClass];
      }
      others := others - {otherClass};
    }
  }

  /**
   * `r` is what `expandDependencies` answers for `classes`: the names the
   * expanded classes push, sorted and without duplicates, where the
   * classes expanded are distinct metabase classes, closed under
   * dependencies and each reached from a referenced class.
   */
  ghost predicate IsExpansion(mb: Metabase, classes: seq<string>, r: seq<string>)
  {
    exists done ::
      Extends(mb, [], done) && Reached(mb, [], done, set c | c in classes) &&
      AllExpanded(mb, classes, done) && NewClosed(mb, [], done) &&
      Order.Increasing(r) && forall x :: x in r <==> exists c :: c in done && Pushes(mb, c, x)
  }

  /**
   * `expandDependencies`: every referenced class expanded, one after the
   * other with a shared `done` list, and the names listed sorted with
   * duplicates dropped.  `done` is returned as a ghost: the classes expanded
   * are exactly the metabase classes the references reach, in the order
   * they were expanded, and the names listed are those those classes push.
   */
  method ExpandDependencies(mb: Metabase, classes: seq<string>) returns (r: seq<string>, ghost done: seq<string>)
    ensures Extends(mb, [], done)
    ensures Reached(mb, [], done, set c | c in classes)
    ensures AllExpanded(mb, classes, done)
    ensures NewClosed(mb, [], done)
    ensures Order.Increasing(r)
    ensures forall x :: x in r <==> exists c :: c in done && Pushes(mb, c, x)
    ensures IsExpansion(mb, classes, r)
  {
    var expanded: seq<string> := [];
    var visited: seq<string> := [];
    for i := 0 to |classes|
      invariant Extends(mb, [], visited)
      invariant Reached(mb, [], visited, set c | c in classes[..i])
      invariant AllExpanded(mb, classes[..i], visited)
      invariant NewClosed(mb, [], visited)
      invariant Lists(mb, [], visited, expanded)
    {
      var more, next := ExpandClass(mb, classes[i], visited);
      ListsStep(mb, [], visited, next, expanded, more);
      ReachedRoots(mb, classes[..i], classes[i], visited, next);
      ExtendsTrans(mb, [], visited, next);
      AllExpandedStep(mb, classes, i, visited, next);
      expanded := expanded + more;
      visited := next;
    }
    assert classes[..|classes|] == classes;
    done := visited;
    r := SortedUnique(expanded);
  }

  /** Expanding one more referenced class adds it to the roots of the expansion. */
  lemma ReachedRoots(mb: Metabase, roots: seq<string>, c: string, done: seq<string>, done2: seq<string>)
    requires Extends(mb, [], done) && Extends(mb, done, done2)
    requires Reached(mb, [], done, set x | x in roots) && Reached(mb, done, done2, {c})
    requires NewClosed(mb, [], done) && NewClosed(mb, done, done2)
    ensures Extends(mb, [], done2) && Reached(mb, [], done2, set x | x in roots + [c])
    ensures NewClosed(mb, [], done2)
  {
    ExtendsTrans(mb, [], done, done2);
    var all := set x | x in roots + [c];
    forall i | 0 <= i < |done2|
      ensures done2[i] in all || exists j :: 0 <= j < i && done2[i] in Dependencies(mb[done2[j]])
    {
      if i < |done| {
        assert done2[i] == done[i];
        if done[i] !in all {
          var j :| 0 <= j < i && done[i] in Dependencies(mb[done[j]]);
          assert done2[j] == done[j];
        }
      }
    }
  }

  /** `list.sort()` followed by the filter that keeps the first of equal names. */
  method SortedUnique(names: seq<string>) returns (r: seq<string>)
    ensures Order.Increasing(r)
    ensures forall x :: x in r <==> x in names
  {
    var keys := set x | x in names;
    r := Order.SortKeys(keys);
    Order.SortedKeysIncreasing(keys);
  }

  /** The reserved words of JavaScript (and Java) that `safeName` renames. */
  const Keywords: set<string> := KeywordsPart1 + KeywordsPart2 + KeywordsPart3

  const KeywordsPart1: set<string> := {
    "case", "catch", "char", "class", "const", "continue", "debugger", "default", "delete",
    "do", "double", "else", "enum", "eval", "export", "extends", "false", "final", "finally",
    "float"
  }

  const KeywordsPart2: set<string> := {
    "for", "function", "goto", "if", "implements", "import", "in", "instanceof", "int",
    "interface", "let", "long", "native", "new", "null", "package", "private", "protected",
    "public", "return"
  }

  const KeywordsPart3: set<string> := {
    "short", "static", "super", "switch", "synchronized", "this", "throw", "throws",
    "transient", "true", "try", "typeof", "undefined", "var", "void", "volatile", "while",
    "with", "yield"
  }

  /** The global objects of JavaScript that `safeName` renames. */
  const BuiltinTypes: set<string> := BuiltinTypesPart1 + BuiltinTypesPart2 + BuiltinTypesPart3

  const BuiltinTypesPart1: set<string> := {
    "Array", "ArrayBuffer", "Atomics", "Boolean", "DataView", "Date", "Error", "EvalError",
    "Float32Array", "Float64Array", "Function", "Generator", "GeneratorFunction", "Infinity",
    "Int16Array", "Int32Array", "Int8Array", "InternalError"
  }

  const BuiltinTypesPart2: set<string> := {
    "Intl", "Collator", "DateTimeFormat", "NumberFormat", "Iterator", "JSON", "Map", "Math",
    "NaN", "Number", "Object", "ParallelArray", "Promise", "Proxy", "RangeError",
    "ReferenceError", "Reflect", "RegExp"
  }

  const BuiltinTypesPart3: set<string> := {
    "SIMD", "Set", "SharedArrayBuffer", "StopIteration", "String", "Symbol", "SyntaxError",
    "TypeError", "TypedArray", "URIError", "Uint16Array", "Uint32Array", "Uint8Array",
    "Uint8ClampedArray", "WeakMap", "WeakSet"
  }

  /** The global functions of JavaScript that `safeName` renames. */
  const BuiltinFunctions: set<string> := {
    "decodeURI", "decodeURIComponent", "encodeURI", "encodeURIComponent", "escape", "eval",
    "isFinite", "isNaN", "parseFloat", "parseInt", "unescape", "uneval"
  }

  /** A name that must not be used as a JavaScript identifier as it stands. */
  predicate Unsafe(name: string)
  {
    name in Keywords || name in BuiltinTypes || name in BuiltinFunctions || (|name| > 0 && IsDigit(name[0]))
  }

  /** `safeName`: an unsafe name gets a leading `_`; any other name is kept. */
  function SafeName(name: string): (r: string)
    ensures Unsafe(name) ==> r == "_" + name
    ensures !Unsafe(name) ==> r == name
  {
    if name in Keywords then "_" + name
    else if name in BuiltinTypes then "_" + name
    else if name in BuiltinFunctions then "_" + name
    else if |name| > 0 && IsDigit(name[0]) then "_" + name
    else name
  }

  /** No reserved name begins with `_`. */
  lemma UnderscoredIsSafe(name: string)
    requires |name| > 0 && name[0] == '_'
    ensures !Unsafe(name)
  {
    NotKeyword(name);
    NotBuiltinType(name);
    assert name !in BuiltinFunctions;
  }

  lemma NotKeyword(name: string)
    requires |name| > 0 && name[0] == '_'
    ensures name !in Keywords
  {
    NotKeywordPart1(name);
    NotKeywordPart2(name);
    NotKeywordPart3(name);
  }

  lemma NotKeywordPart1(name: string)
    requires |name| > 0 && name[0] == '_'
    ensures name !in KeywordsPart1
  {
  }

  lemma NotKeywordPart2(name: string)
    requires |name| > 0 && name[0] == '_'
    ensures name !in KeywordsPart2
  {
  }

  lemma NotKeywordPart3(name: string)
    requires |name| > 0 && name[0] == '_'
    ensures name !in KeywordsPart3
  {
  }

  lemma NotBuiltinType(name: string)
    requires |name| > 0 && name[0] == '_'
    ensures name !in BuiltinTypes
  {
    NotBuiltinTypePart1(name);
    NotBuiltinTypePart2(name);
    NotBuiltinTypePart3(name);
  }

  lemma NotBuiltinTypePart1(name: string)
    requires |name| > 0 && name[0] == '_'
    ensures name !in BuiltinTypesPart1
  {
  }

  lemma NotBuiltinTypePart2(name: string)
    requires |name| > 0 && name[0] == '_'
    ensures name !in BuiltinTypesPart2
  {
  }

  lemma NotBuiltinTypePart3(name: string)
    requires |name| > 0 && name[0] == '_'
    ensures name !in BuiltinTypesPart3
  {
  }

  /** A safe name is never reserved nor starts with a digit, and making it safe again changes nothing. */
  lemma SafeNameIsSafe(name: string)
    ensures !Unsafe(SafeName(name))
    ensures SafeName(SafeName(name)) == SafeName(name)
  {
    if Unsafe(name) {
      UnderscoredIsSafe("_" + name);
    }
  }

  /**
   * The package of a class name: everything before its last `.`.  A name
   * without a `.` loses its last character (`slice(0, -1)`).
   */
  function PackageOf(className: string): string
  {
    match LastIndexOf(className, '.')
    case Some(j) => className[..j]
    case None => if className == [] then [] else className[..|className| - 1]
  }

  /**
   * `k` is an enclosing package of `pkg`: the first parts of `pkg`, up to
   * one of its `.` (the `packageParts.slice(0, i + 1).join('.')` of the
   * source, for each `.` of the package).
   */
  predicate IsAncestor(k: string, pkg: string)
  {
    |k| < |pkg| && pkg[|k|] == '.' && pkg[..|k|] == k
  }

  /** `k` gets a package wrapper on account of the package `pkg`. */
  predicate Covers(pkg: string, k: string)
  {
    k == pkg || IsAncestor(k, pkg)
  }

  /** The classes of `classes` that belong to the package `k`, in order. */
  function InPackage(classes: seq<string>, k: string): seq<string>
  {
    if classes == [] then []
    else
      var last := classes[|classes| - 1];
      InPackage(classes[..|classes| - 1], k) + (if PackageOf(last) == k then [last] else [])
  }

  /** A package lists exactly the classes whose package it is. */
  lemma {:induction false} InPackageMembers(classes: seq<string>, k: string)
    ensures forall x :: x in InPackage(classes, k) <==> x in classes && PackageOf(x) == k
  {
    if classes != [] {
      var init := classes[..|classes| - 1];
      InPackageMembers(init, k);
      assert classes == init + [classes[|classes| - 1]];
    }
  }

  /** The classes among the first `i` that belong to the package `k`. */
  ghost function InPrefix(classes: seq<string>, i: nat, k: string): seq<string>
    requires i <= |classes|
  {
    InPackage(classes[..i], k)
  }

  /** One more class considered: it joins the list of its own package only. */
  lemma InPrefixStep(classes: seq<string>, i: nat)
    requires i < |classes|
    ensures forall k ::
      InPrefix(classes, i + 1, k) == InPrefix(classes, i, k) + if PackageOf(classes[i]) == k then [classes[i]] else []
  {
    assert classes[..i + 1][..i] == classes[..i];
  }

  /** The ends of the loops: nothing considered yet, and everything considered. */
  lemma InPrefixEnds(classes: seq<string>)
    ensures forall k :: InPrefix(classes, 0, k) == []
    ensures forall k :: InPrefix(classes, |classes|, k) == InPackage(classes, k)
  {
    assert classes[..|classes|] == classes;
  }

  /** Some class of `classes` puts the package `k` in the map. */
  predicate Covered(classes: seq<string>, k: string)
  {
    classes != [] && (Covers(PackageOf(classes[|classes| - 1]), k) || Covered(classes[..|classes| - 1], k))
  }

  lemma {:induction false} CoveredMeans(classes: seq<string>, k: string)
    ensures Covered(classes, k) <==> exists c :: c in classes && Covers(PackageOf(c), k)
  {
    if classes != [] {
      var init := classes[..|classes| - 1];
      CoveredMeans(init, k);
      assert classes == init + [classes[|classes| - 1]];
      if exists c :: c in classes && Covers(PackageOf(c), k) {
        var c :| c in classes && Covers(PackageOf(c), k);
        if c != classes[|classes| - 1] {
          assert c in init;
        }
      }
    }
  }

  /** Covered by one of the first `i` classes. */
  ghost predicate CoveredPrefix(classes: seq<string>, i: nat, k: string)
    requires i <= |classes|
  {
    Covered(classes[..i], k)
  }

  lemma CoveredStep(classes: seq<string>, i: nat)
    requires i < |classes|
    ensures forall k :: CoveredPrefix(classes, i + 1, k) <==>
      CoveredPrefix(classes, i, k) || Covers(PackageOf(classes[i]), k)
  {
    assert classes[..i + 1][..i] == classes[..i];
  }

  lemma CoveredEnds(classes: seq<string>)
    ensures forall k :: !CoveredPrefix(classes, 0, k)
    ensures forall k :: CoveredPrefix(classes, |classes|, k) <==> Covered(classes, k)
  {
    assert classes[..|classes|] == classes;
  }

  /** `pkg` and its enclosing packages given an entry, empty when new. */
  method AddPackages(packages: map<string, seq<string>>, pkg: string) returns (r: map<string, seq<string>>)
    ensures forall k :: k in r <==> k in packages || Covers(pkg, k)
    ensures forall k :: k in r ==> r[k] == if k in packages then packages[k] else []
  {
    r := if pkg in packages then packages else packages[pkg := []];
    for j := 0 to |pkg|
      invariant forall k :: k in r <==> k in packages || k == pkg || (IsAncestor(k, pkg) && |k| < j)
      invariant forall k :: k in r ==> r[k] == if k in packages then packages[k] else []
    {
      if pkg[j] == '.' {
        var ancestor := pkg[..j];
        if ancestor !in r {
          r := r[ancestor := []];
        }
      }
    }
  }

  /**
   * The package map of `generateFromJSON`: the packages of the removed
   * classes and of the generated classes, with their enclosing packages,
   * each listing its generated classes and then the classes whose
   * wrappers already exist.
   */
  method PackageMap(classesToGenerate: seq<string>, removedClasses: seq<string>, existingClasses: seq<string>)
    returns (packages: map<string, seq<string>>)
    ensures forall k :: k in packages <==>
      exists c :: (c in removedClasses || c in classesToGenerate) && Covers(PackageOf(c), k)
    ensures forall k :: k in packages ==>
      packages[k] == InPackage(classesToGenerate, k) + InPackage(existingClasses, k)
  {
    packages := RemovedPackages(removedClasses);
    packages := AddGenerated(packages, classesToGenerate);
    ghost var generated := packages;
    packages := AddExisting(packages, classesToGenerate, existingClasses);
    forall k
      ensures k in packages <==>
        exists c :: (c in removedClasses || c in classesToGenerate) && Covers(PackageOf(c), k)
    {
      CoveredMeans(removedClasses, k);
      CoveredMeans(classesToGenerate, k);
    }
  }

  /** The first loop of `generateFromJSON`: an empty entry for each package of a removed class. */
  method RemovedPackages(removedClasses: seq<string>) returns (packages: map<string, seq<string>>)
    ensures forall k :: k in packages <==> Covered(removedClasses, k)
    ensures forall k :: k in packages ==> packages[k] == []
  {
    packages := map[];
    CoveredEnds(removedClasses);
    for i := 0 to |removedClasses|
      invariant forall k :: k in packages <==> CoveredPrefix(removedClasses, i, k)
      invariant forall k :: k in packages ==> packages[k] == []
    {
      CoveredStep(removedClasses, i);
      packages := AddPackages(packages, PackageOf(removedClasses[i]));
    }
  }

  /** `writeClassWrappers`: each generated class appended to its package, enclosing packages added. */
  method AddGenerated(packages0: map<string, seq<string>>, classesToGenerate: seq<string>)
    returns (packages: map<string, seq<string>>)
    requires forall k :: k in packages0 ==> packages0[k] == []
    ensures forall k :: k in packages <==> k in packages0 || Covered(classesToGenerate, k)
    ensures forall k :: k in packages ==> packages[k] == InPackage(classesToGenerate, k)
  {
    packages := packages0;
    InPrefixEnds(classesToGenerate);
    CoveredEnds(classesToGenerate);
    for i := 0 to |classesToGenerate|
      invariant GeneratedSoFar(packages0, classesToGenerate, i, packages)
    {
      var className := classesToGenerate[i];
      var packageName := PackageOf(className);
      ghost var before := packages;
      var packageArray := if packageName in packages then packages[packageName] else [];
      packages := packages[packageName := packageArray + [className]];
      packages := AddPackages(packages, packageName);
      GeneratedStep(packages0, classesToGenerate, i, before, packages);
    }
  }

  /**
   * The package map once the first `i` generated classes are added: the
   * packages given plus those covering a class added, each listing the
   * added classes in it.
   */
  ghost predicate GeneratedSoFar(packages0: map<string, seq<string>>, classes: seq<string>, i: nat, packages: map<string, seq<string>>)
    requires i <= |classes|
  {
    (forall k :: k in packages <==> k in packages0 || CoveredPrefix(classes, i, k)) &&
    (forall k :: k in packages ==> packages[k] == InPrefix(classes, i, k)) &&
    (forall k :: k !in packages ==> InPrefix(classes, i, k) == [])
  }

  /** Adding one more generated class, then its packages, keeps `GeneratedSoFar`. */
  lemma GeneratedStep(packages0: map<string, seq<string>>, classes: seq<string>, i: nat,
                      before: map<string, seq<string>>, after: map<string, seq<string>>)
    requires i < |classes| && GeneratedSoFar(packages0, classes, i, before)
    requires var pkg := PackageOf(classes[i]);
      var mid := before[pkg := (if pkg in before then before[pkg] else []) + [classes[i]]];
      (forall k :: k in after <==> k in mid || Covers(pkg, k)) &&
      (forall k :: k in after ==> after[k] == if k in mid then mid[k] else [])
    ensures GeneratedSoFar(packages0, classes, i + 1, after)
  {
    InPrefixStep(classes, i);
    CoveredStep(classes, i);
  }

  /** A package's list once the first `i` existing classes are considered. */
  ghost function Listed(classesToGenerate: seq<string>, existingClasses: seq<string>, i: nat, k: string): seq<string>
    requires i <= |existingClasses|
  {
    InPackage(classesToGenerate, k) + InPrefix(existingClasses, i, k)
  }

  lemma ListedStep(classesToGenerate: seq<string>, existingClasses: seq<string>, i: nat)
    requires i < |existingClasses|
    ensures forall k ::
      Listed(classesToGenerate, existingClasses, i + 1, k) ==
      Listed(classesToGenerate, existingClasses, i, k) + if PackageOf(existingClasses[i]) == k then [existingClasses[i]] else []
  {
    InPrefixStep(existingClasses, i);
  }

  lemma ListedEnds(classesToGenerate: seq<string>, existingClasses: seq<string>)
    ensures forall k :: Listed(classesToGenerate, existingClasses, 0, k) == InPackage(classesToGenerate, k)
    ensures forall k ::
      Listed(classesToGenerate, existingClasses, |existingClasses|, k) == InPackage(classesToGenerate, k) + InPackage(existingClasses, k)
  {
    InPrefixEnds(existingClasses);
  }

  /** Each class whose wrapper exists appended to its package when that package has an entry. */
  method AddExisting(packages0: map<string, seq<string>>, classesToGenerate: seq<string>, existingClasses: seq<string>)
    returns (packages: map<string, seq<string>>)
    requires forall k :: k in packages0 ==> packages0[k] == InPackage(classesToGenerate, k)
    ensures forall k :: k in packages <==> k in packages0
    ensures forall k :: k in packages ==>
      packages[k] == InPackage(classesToGenerate, k) + InPackage(existingClasses, k)
  {
    packages := packages0;
    ListedEnds(classesToGenerate, existingClasses);
    for i := 0 to |existingClasses|
      invariant forall k :: k in packages <==> k in packages0
      invariant forall k :: k in packages ==> packages[k] == Listed(classesToGenerate, existingClasses, i, k)
    {
      var className := existingClasses[i];
      var packageName := PackageOf(className);
      ListedStep(classesToGenerate, existingClasses, i);
      if packageName in packages {
        packages := packages[packageName := packages[packageName] + [className]];
      }
    }
  }

  /** Some key of a non-empty set of class names. */
  method PickKey(keys: set<string>) returns (k: string)
    requires keys != {}
    ensures k in keys
  {
    k :| k in keys;
  }
}
