/**
 * The code generator of the iOS hooks (iphone/hooks/generate/code-generator.js):
 * custom classes merged into the class list, unused classes stripped with
 * their import closure put back, the lines of the bindings bootstrap, and
 * the rewriting of framework imports to umbrella headers.
 */
module GenCode {
  import opened Wrappers
  import opened Json
  import opened JsValues
  import opened Strs
  import opened JsStrings

  /** A class of the source set as `class.js` hands it over, with what the generator reads of it. */
  datatype ClassInfo = ClassInfo(
    className: string,           // `class.name`
    framework: Option<Json>,
    superclass: Option<string>,  // the name of the superclass entry, None when it is falsy
    classMethods: nat,
    classProperties: nat,
    instanceMethods: nat,
    instanceProperties: nat,
    imports: seq<string>,        // the `name` of each import entry, in key order
    custom: bool,
    name: Option<string>)

  predicate Distinct(s: seq<string>)
  {
    forall i, j :: 0 <= i < j < |s| ==> s[i] != s[j]
  }

  // ---------------------------------------------------------------- mergeCustomClasses

  /** A custom class as it enters the class list: marked custom and named after its class. */
  function AsCustom(c: ClassInfo): (r: ClassInfo)
    ensures r.custom && r.name == Some(c.className)
    ensures r.(custom := c.custom, name := c.name) == c
  {
    c.(custom := true, name := Some(c.className))
  }

  /** The class list after the custom classes are merged in: a custom class replaces a native one of the same key. */
  function Overlaid(classes: map<string, ClassInfo>, customs: map<string, ClassInfo>): (r: map<string, ClassInfo>)
    ensures r.Keys == classes.Keys + customs.Keys
    ensures forall k :: k in customs ==> r[k] == AsCustom(customs[k])
    ensures forall k :: k in classes && k !in customs ==> r[k] == classes[k]
  {
    map k | k in classes.Keys + customs.Keys :: if k in customs then AsCustom(customs[k]) else classes[k]
  }

  // ---------------------------------------------------------------- stripUnusedClasses

  /** The names some class uses as its superclass (`superclassMap`). */
  function Superclasses(classes: map<string, ClassInfo>): (r: set<string>)
    ensures forall n :: n in r <==> exists k :: k in classes && classes[k].superclass == Some(n)
  {
    set k | k in classes && classes[k].superclass.Some? :: classes[k].superclass.value
  }

  predicate HasMembers(c: ClassInfo)
  {
    c.classMethods > 0 || c.classProperties > 0 || c.instanceMethods > 0 || c.instanceProperties > 0
  }

  /** `framework + '/' + class.name`, an absent framework printing as `undefined`. */
  function QualifiedName(c: ClassInfo): string
  {
    OptToString(c.framework) + "/" + c.className
  }

  /** Some require path of the app contains the lower-cased qualified name. */
  predicate ExplicitlyRequired(paths: seq<string>, c: ClassInfo)
  {
    exists p :: p in paths && Contains(p, ToLower(QualifiedName(c)))
  }

  /** A class kept for its own sake: it has members, is a superclass, or is required by path. */
  predicate KeptOnItsOwn(classes: map<string, ClassInfo>, paths: seq<string>, k: string)
    requires k in classes
  {
    HasMembers(classes[k]) || classes[k].className in Superclasses(classes) || ExplicitlyRequired(paths, classes[k])
  }

  /** Every name of `s` is a class, and every import of one of them is in `s` or is a struct. */
  ghost predicate ImportClosed(classes: map<string, ClassInfo>, structs: set<string>, s: set<string>)
  {
    forall k :: k in s ==> k in classes && forall i :: i in classes[k].imports ==> i in s || i in structs
  }

  /** `s` holds every class kept on its own and is closed under imports. */
  ghost predicate Covers(classes: map<string, ClassInfo>, structs: set<string>, paths: seq<string>, s: set<string>)
  {
    (forall k :: k in classes && KeptOnItsOwn(classes, paths, k) ==> k in s) && ImportClosed(classes, structs, s)
  }

  function NotFound(n: string): string
  {
    n + " not found!"
  }

  /**
   * `enqueMissingImports`: each import that is neither used nor a struct
   * joins the end of the queue unless it is already queued. Import entries
   * are the metabase's own class objects, so the source's test by identity
   * is a test by name.
   */
  method EnqueueMissing(queue: seq<string>, imports: seq<string>, used: set<string>, structs: set<string>)
    returns (q: seq<string>)
    ensures |queue| <= |q| && q[..|queue|] == queue
    ensures forall x :: x in q[|queue|..] ==> x in imports && x !in used && x !in structs && x !in queue
    ensures forall i :: i in imports ==> i in used || i in structs || i in q
    ensures forall x :: x in queue ==> x in q
    ensures forall x :: x in q ==> x in queue || (x in imports && x !in used && x !in structs)
    ensures Distinct(queue) ==> Distinct(q)
  {
    q := queue;
    for j := 0 to |imports|
      invariant |queue| <= |q| && q[..|queue|] == queue
      invariant forall x :: x in q[|queue|..] ==> x in imports[..j] && x !in used && x !in structs && x !in queue
      invariant forall i :: i in imports[..j] ==> i in used || i in structs || i in q
      invariant Distinct(queue) ==> Distinct(q)
    {
      var n := imports[j];
      assert imports[..j + 1] == imports[..j] + [n];
      if n !in used && n !in structs && n !in q {
        q := q + [n];
      }
    }
    forall x | x in queue ensures x in q {
      var j :| 0 <= j < |queue| && queue[j] == x;
      assert q[..|queue|][j] == x;
    }
    forall x | x in q ensures x in queue || x in q[|queue|..] {
      var j :| 0 <= j < |q| && q[j] == x;
      if j < |queue| { assert q[..|queue|][j] == x; } else { assert q[|queue|..][j - |queue|] == x; }
    }
  }

  /** The imports of every used class, queued as `enqueMissingImports` queues them. */
  method EnqueueUsedImports(classes: map<string, ClassInfo>, structs: set<string>, used: map<string, ClassInfo>)
    returns (queue: seq<string>)
    requires forall k :: k in used ==> k in classes && used[k] == classes[k]
    ensures forall k :: k in used ==> forall i :: i in classes[k].imports ==> i in used || i in structs || i in queue
    ensures forall x :: x in queue ==> x !in used && x !in structs && exists k :: k in used && x in classes[k].imports
    ensures Distinct(queue)
  {
    queue := [];
    var todo := used.Keys;
    while todo != {}
      invariant todo <= used.Keys
      invariant forall k :: k in used && k !in todo ==> forall i :: i in classes[k].imports ==> i in used || i in structs || i in queue
      invariant forall x :: x in queue ==> x !in used && x !in structs && exists k :: k in used && x in classes[k].imports
      invariant Distinct(queue)
      decreases todo
    {
      var k :| k in todo;
      queue := EnqueueMissing(queue, classes[k].imports, used.Keys, structs);
      todo := todo - {k};
    }
  }

  /**
   * The reintegration loop: the last queued name is popped and, when it is
   * a class, used and its own missing imports queued. The result closes
   * `used` under imports and lies inside every closed set holding `used`
   * and the queue (`s`); a popped name that is no class throws.
   */
  method Reintegrate(classes: map<string, ClassInfo>, structs: set<string>, used0: map<string, ClassInfo>,
                     queue0: seq<string>, ghost s: set<string>)
    returns (r: Result<map<string, ClassInfo>>)
    requires forall k :: k in used0 ==> k in classes && used0[k] == classes[k]
    requires forall k :: k in used0 ==> forall i :: i in classes[k].imports ==> i in used0 || i in structs || i in queue0
    requires forall x :: x in queue0 ==> x !in used0 && x !in structs
    requires Distinct(queue0)
    ensures r.Ok? ==> used0.Keys <= r.value.Keys
    ensures r.Ok? ==> forall k :: k in r.value ==> k in classes && r.value[k] == classes[k]
    ensures r.Ok? ==> ImportClosed(classes, structs, r.value.Keys)
    ensures ImportClosed(classes, structs, s) && used0.Keys <= s && (forall x :: x in queue0 ==> x in s)
      ==> r.Ok? && r.value.Keys <= s
    ensures r.Err? ==> exists n :: n !in classes && n !in structs && r.error == NotFound(n)
  {
    ghost var covered := ImportClosed(classes, structs, s) && used0.Keys <= s && (forall x :: x in queue0 ==> x in s);
    var used := used0;
    var queue := queue0;
    while queue != []
      invariant used0.Keys <= used.Keys
      invariant forall k :: k in used ==> k in classes && used[k] == classes[k]
      invariant forall k :: k in used ==> forall i :: i in classes[k].imports ==> i in used || i in structs || i in queue
      invariant forall x :: x in queue ==> x !in used && x !in structs
      invariant covered ==> used.Keys <= s && forall x :: x in queue ==> x in s
      invariant Distinct(queue)
      decreases classes.Keys - used.Keys, |queue|
    {
      var n := queue[|queue| - 1];
      var rest := queue[..|queue| - 1];
      assert queue == rest + [n];
      assert n !in rest by {
        forall j | 0 <= j < |rest| ensures rest[j] != n { assert queue[j] == rest[j]; }
      }
      if n !in classes {
        return Err(NotFound(n));
      }
      used := used[n := classes[n]];
      queue := EnqueueMissing(rest, classes[n].imports, used.Keys, structs);
    }
    return Ok(used);
  }

  // ---------------------------------------------------------------- generateBootstrap

  /** Each type name of a source with its `framework` value, in key order. */
  type Bindings = seq<(string, Option<Json>)>

  function Redirect(from: string, to: string): string
  {
    "binding.redirect('" + from + "', '" + to + "');"
  }

  function RequireName(framework: string, typeName: string): string
  {
    "/hyperloop/" + ToLower(framework) + "/" + ToLower(typeName)
  }

  /** The lines one type adds: the framework is lower-cased, so a truthy one that is not a string throws. */
  function TypeBindings(typeName: string, framework: Option<Json>, isModule: bool): Result<seq<string>>
  {
    if !IsTruthyOpt(framework) then Ok([])
    else if !framework.value.JStr? then Err(TypeError)
    else
      var fw := framework.value.s;
      Ok((if fw != typeName then [Redirect(fw + "/" + typeName, RequireName(fw, typeName))] else [])
        + (if isModule then [Redirect(fw, RequireName(fw, typeName))] else []))
  }

  /** The lines of a whole source, the first error winning. */
  function BindingLines(entries: Bindings, isModule: bool): Result<seq<string>>
  {
    if entries == [] then Ok([])
    else
      var head := TypeBindings(entries[0].0, entries[0].1, isModule);
      if head.Err? then head
      else
        var rest := BindingLines(entries[1..], isModule);
        if rest.Err? then rest else Ok(head.value + rest.value)
  }

  /** `line` is one of the lines the type at `e` adds. */
  predicate Emits(e: (string, Option<Json>), isModule: bool, line: string)
  {
    IsTruthyOpt(e.1) && e.1.value.JStr?
    && ((e.1.value.s != e.0 && line == Redirect(e.1.value.s + "/" + e.0, RequireName(e.1.value.s, e.0)))
        || (isModule && line == Redirect(e.1.value.s, RequireName(e.1.value.s, e.0))))
  }

  /** A type whose framework is truthy but not a string. */
  predicate BadFramework(e: (string, Option<Json>))
  {
    IsTruthyOpt(e.1) && !e.1.value.JStr?
  }

  /** The bindings throw exactly when some type's framework is truthy but not a string. */
  lemma {:induction false} BindingErrors(entries: Bindings, isModule: bool)
    ensures BindingLines(entries, isModule).Err? <==> exists i :: 0 <= i < |entries| && BadFramework(entries[i])
  {
    if entries != [] {
      BindingErrors(entries[1..], isModule);
      if BindingLines(entries[1..], isModule).Err? {
        var i :| 0 <= i < |entries[1..]| && BadFramework(entries[1..][i]);
        assert BadFramework(entries[i + 1]);
      }
      if exists i :: 0 <= i < |entries| && BadFramework(entries[i]) {
        var i :| 0 <= i < |entries| && BadFramework(entries[i]);
        if i > 0 {
          assert BadFramework(entries[1..][i - 1]);
        }
      }
    }
  }

  /** A line is emitted exactly when some type with a string framework emits it. */
  lemma {:induction false} BindingLinesMember(entries: Bindings, isModule: bool, line: string)
    requires BindingLines(entries, isModule).Ok?
    ensures line in BindingLines(entries, isModule).value
      <==> exists i :: 0 <= i < |entries| && Emits(entries[i], isModule, line)
  {
    if entries != [] {
      BindingLinesMember(entries[1..], isModule, line);
      if exists i :: 0 <= i < |entries| && Emits(entries[i], isModule, line) {
        var i :| 0 <= i < |entries| && Emits(entries[i], isModule, line);
        if i > 0 {
          assert Emits(entries[1..][i - 1], isModule, line);
        }
      }
      if line in BindingLines(entries[1..], isModule).value {
        var i :| 0 <= i < |entries[1..]| && Emits(entries[1..][i], isModule, line);
        assert Emits(entries[i + 1], isModule, line);
      }
    }
  }

  /** The whole bootstrap: classes, then structs, then modules, a missing source adding nothing. */
  function BootstrapLines(classes: Option<Bindings>, structs: Option<Bindings>, modules: Option<Bindings>): Result<seq<string>>
  {
    var c := if classes.None? then Ok([]) else BindingLines(classes.value, false);
    var s := if structs.None? then Ok([]) else BindingLines(structs.value, false);
    var m := if modules.None? then Ok([]) else BindingLines(modules.value, true);
    if c.Err? then c else if s.Err? then s else if m.Err? then m else Ok(c.value + s.value + m.value)
  }

  /** `prefix` put before the lines of `r`, an error passing through. */
  function Appended(prefix: seq<string>, r: Result<seq<string>>): Result<seq<string>>
  {
    if r.Err? then r else Ok(prefix + r.value)
  }

  lemma AppendedAssoc(a: seq<string>, b: seq<string>, r: Result<seq<string>>)
    ensures Appended([], r) == r
    ensures Appended(a, Ok([])) == Ok(a)
    ensures Appended(a, Appended(b, r)) == Appended(a + b, r)
  {
    assert a + [] == a;
    if r.Ok? {
      assert [] + r.value == r.value;
      assert a + (b + r.value) == (a + b) + r.value;
    }
  }

  /** `fetchBindingsFrom`: the lines of one source appended to `lines`. */
  method FetchBindings(source: Option<Bindings>, isModule: bool, lines: seq<string>) returns (r: Result<seq<string>>)
    ensures source.None? ==> r == Ok(lines)
    ensures source.Some? ==> r == Appended(lines, BindingLines(source.value, isModule))
  {
    if source.None? {
      return Ok(lines);
    }
    var entries := source.value;
    var acc := lines;
    var i := 0;
    assert entries[0..] == entries;
    assert acc[|lines|..] == [];
    AppendedAssoc([], [], BindingLines(entries, isModule));
    while i < |entries|
      invariant 0 <= i <= |entries|
      invariant |lines| <= |acc| && acc[..|lines|] == lines
      invariant BindingLines(entries, isModule) == Appended(acc[|lines|..], BindingLines(entries[i..], isModule))
    {
      var typeName := entries[i].0;
      var framework := entries[i].1;
      assert entries[i..][0] == entries[i];
      assert entries[i..][1..] == entries[i + 1..];
      var added: seq<string> := [];
      if IsTruthyOpt(framework) {
        if !framework.value.JStr? {
          assert BindingLines(entries[i..], isModule) == Err(TypeError);
          return Err(TypeError);
        }
        var fw := framework.value.s;
        var requireName := RequireName(fw, typeName);
        assert TypeBindings(typeName, framework, isModule)
          == Ok((if fw != typeName then [Redirect(fw + "/" + typeName, requireName)] else [])
                + (if isModule then [Redirect(fw, requireName)] else []));
        if fw != typeName {
          added := added + [Redirect(fw + "/" + typeName, requireName)];
        }
        assert added == if fw != typeName then [Redirect(fw + "/" + typeName, requireName)] else [];
        if isModule {
          added := added + [Redirect(fw, requireName)];
        }
        assert added == (if fw != typeName then [Redirect(fw + "/" + typeName, requireName)] else [])
                        + (if isModule then [Redirect(fw, requireName)] else []);
        assert TypeBindings(typeName, framework, isModule) == Ok(added);
      } else {
        assert TypeBindings(typeName, framework, isModule) == Ok(added);
      }
      assert TypeBindings(typeName, framework, isModule) == Ok(added);
      assert entries[i..] != [] && entries[i..][0].0 == typeName && entries[i..][0].1 == framework;
      assert BindingLines(entries[i..], isModule) == Appended(added, BindingLines(entries[i..][1..], isModule));
      assert (acc + added)[|lines|..] == acc[|lines|..] + added;
      AppendedAssoc(acc[|lines|..], added, BindingLines(entries[i + 1..], isModule));
      acc := acc + added;
      i := i + 1;
    }
    assert acc == lines + acc[|lines|..];
    assert entries[i..] == [];
    assert acc[|lines|..] + [] == acc[|lines|..];
    assert BindingLines(entries, isModule) == Ok(acc[|lines|..]);
    return Ok(acc);
  }

  /** `generateBootstrap`: the text of `hyperloop.bindings.js`, its lines joined by newlines and ended by one. */
  method GenerateBootstrap(classes: Option<Bindings>, structs: Option<Bindings>, modules: Option<Bindings>)
    returns (r: Result<string>)
    ensures r.Ok? <==> BootstrapLines(classes, structs, modules).Ok?
    ensures r.Ok? ==> r.value == Join(BootstrapLines(classes, structs, modules).value, "\n") + "\n"
  {
    var c := FetchBindings(classes, false, []);
    if c.Err? {
      return Err(c.error);
    }
    var s := FetchBindings(structs, false, c.value);
    if s.Err? {
      return Err(s.error);
    }
    var m := FetchBindings(modules, true, s.value);
    if m.Err? {
      return Err(m.error);
    }
    ghost var lc := if classes.None? then Ok([]) else BindingLines(classes.value, false);
    ghost var ls := if structs.None? then Ok([]) else BindingLines(structs.value, false);
    ghost var lm := if modules.None? then Ok([]) else BindingLines(modules.value, true);
    AppendedAssoc([], [], lc);
    AppendedAssoc(c.value, [], ls);
    AppendedAssoc(s.value, [], lm);
    assert c == lc;
    assert s == Appended(lc.value, ls);
    assert m == Appended(s.value, lm);
    assert m.value == BootstrapLines(classes, structs, modules).value;
    return Ok(Join(m.value, "\n") + "\n");
  }

  // ---------------------------------------------------------------- umbrella headers

  /** A framework's `umbrellaHeader`: null, absent, or a path. */
  datatype Umbrella = NullHeader | NoHeader | HeaderPath(path: string)

  /** The builder's metadata of a framework. */
  datatype FrameworkMeta = FrameworkMeta(name: string, umbrellaHeader: Umbrella)

  /** `path.basename(p)`: the part after the last `/`. */
  function Basename(p: string): (r: string)
    ensures '/' !in r
  {
    var parts := SplitChar(p, '/');
    parts[|parts| - 1]
  }

  /** `path.basename(p, '.h')`: the base name without a `.h` that is not the whole name. */
  function BasenameNoExt(p: string): (r: string)
    ensures '/' !in r
  {
    var b := Basename(p);
    if EndsWith(b, ".h") && |b| > 2 then b[..|b| - 2] else b
  }

  /** `header.split('/')[0]`. */
  function HeaderFramework(h: string): (r: string)
    ensures '/' !in r
  {
    SplitChar(h, '/')[0]
  }

  /** `header.split('/')[1]`, absent when the header has no `/`. */
  function HeaderFile(h: string): Option<string>
  {
    var parts := SplitChar(h, '/');
    if |parts| > 1 then Some(parts[1]) else None
  }

  /** A header `fw/file` of two plain parts splits back into them. */
  lemma SplitHeader(fw: string, file: string)
    requires '/' !in fw && '/' !in file
    ensures HeaderFramework(fw + "/" + file) == fw
    ensures HeaderFile(fw + "/" + file) == Some(file)
  {
    SplitCharCons(fw, '/', file);
    SplitCharNone(file, '/');
  }

  /**
   * What `fixCustomImports` does with one header: nothing for an unknown
   * framework or a null umbrella header, a `TypeError` from `path.basename`
   * when the umbrella header is absent, and a new header `fw/<umbrella
   * basename>` when that basename differs from the header's file part.
   */
  function FixOne(h: string, frameworks: map<string, FrameworkMeta>): Result<Option<string>>
  {
    var fw := HeaderFramework(h);
    if fw !in frameworks then Ok(None)
    else
      match frameworks[fw].umbrellaHeader
      case NullHeader => Ok(None)
      case NoHeader => Err(TypeError)
      case HeaderPath(p) =>
        var base := BasenameNoExt(p);
        if HeaderFile(h) != Some(base) then Ok(Some(fw + "/" + base)) else Ok(None)
  }

  /** The keys after the headers `hs` are processed in order, starting from `s0`. */
  function FixFrom(s0: set<string>, hs: seq<string>, frameworks: map<string, FrameworkMeta>): (r: Result<set<string>>)
    ensures r.Err? ==> r.error == TypeError
  {
    if hs == [] then Ok(s0)
    else
      var prev := FixFrom(s0, hs[..|hs| - 1], frameworks);
      var h := hs[|hs| - 1];
      if prev.Err? then prev
      else
        match FixOne(h, frameworks)
        case Err(e) => Err(e)
        case Ok(None) => prev
        case Ok(Some(n)) => Ok(prev.value + {n} - {h})
  }

  /** The keys of an object whose `Object.keys` lists `keys`. */
  function KeySet(keys: seq<string>): (r: set<string>)
    ensures forall k :: k in r <==> k in keys
  {
    if keys == [] then {} else {keys[0]} + KeySet(keys[1..])
  }

  /** `fixCustomImports` on an imports object whose keys are `keys`. */
  function FixedImports(keys: seq<string>, frameworks: map<string, FrameworkMeta>): Result<set<string>>
  {
    FixFrom(KeySet(keys), keys, frameworks)
  }

  /** A rewritten header is never rewritten again. */
  lemma RewriteFixed(h: string, n: string, frameworks: map<string, FrameworkMeta>)
    requires FixOne(h, frameworks) == Ok(Some(n))
    ensures FixOne(n, frameworks) == Ok(None)
  {
    var fw := HeaderFramework(h);
    var base := BasenameNoExt(frameworks[fw].umbrellaHeader.path);
    SplitHeader(fw, base);
  }

  /** The imports throw exactly when some header's framework is known but has no umbrella header. */
  lemma {:induction false} FixErrors(s0: set<string>, hs: seq<string>, frameworks: map<string, FrameworkMeta>)
    ensures FixFrom(s0, hs, frameworks).Err? <==> exists i :: 0 <= i < |hs| && FixOne(hs[i], frameworks).Err?
  {
    if hs != [] {
      var init := hs[..|hs| - 1];
      FixErrors(s0, init, frameworks);
      if exists i :: 0 <= i < |init| && FixOne(init[i], frameworks).Err? {
        var i :| 0 <= i < |init| && FixOne(init[i], frameworks).Err?;
        assert hs[i] == init[i];
      }
      if exists i :: 0 <= i < |hs| && FixOne(hs[i], frameworks).Err? {
        var i :| 0 <= i < |hs| && FixOne(hs[i], frameworks).Err?;
        if i < |init| {
          assert init[i] == hs[i];
        }
      }
    }
  }

  /** The headers of `hs` left as they are. */
  function Untouched(hs: seq<string>, frameworks: map<string, FrameworkMeta>): (r: set<string>)
    ensures forall h :: h in r <==> h in hs && FixOne(h, frameworks) == Ok(None)
  {
    if hs == [] then {}
    else
      var h := hs[|hs| - 1];
      assert forall g :: g in hs <==> g in hs[..|hs| - 1] || g == h by { assert hs == hs[..|hs| - 1] + [h]; }
      Untouched(hs[..|hs| - 1], frameworks) + (if FixOne(h, frameworks) == Ok(None) then {h} else {})
  }

  /** The headers the rewritten ones of `hs` become. */
  function Rewritten(hs: seq<string>, frameworks: map<string, FrameworkMeta>): (r: set<string>)
    ensures forall n :: n in r ==> exists h :: h in hs && FixOne(h, frameworks) == Ok(Some(n))
    ensures forall h :: (h in hs && FixOne(h, frameworks).Ok? && FixOne(h, frameworks).value.Some?
                         ==> FixOne(h, frameworks).value.value in r)
  {
    if hs == [] then {}
    else
      var h := hs[|hs| - 1];
      assert forall g :: g in hs <==> g in hs[..|hs| - 1] || g == h by { assert hs == hs[..|hs| - 1] + [h]; }
      Rewritten(hs[..|hs| - 1], frameworks)
        + (if FixOne(h, frameworks).Ok? && FixOne(h, frameworks).value.Some? then {FixOne(h, frameworks).value.value} else {})
  }

  /** Set algebra of one step: `h` leaves the pending keys for the untouched ones. */
  lemma Kept(h: string, a: set<string>, b: set<string>, c: set<string>)
    ensures {h} + a + b + c == a + (b + {h}) + c
  {
  }

  /** Set algebra of one step: `h` leaves the pending keys and `n` joins the rewritten ones. */
  lemma Swapped(h: string, n: string, a: set<string>, b: set<string>, c: set<string>)
    requires h !in a && h !in b && h !in c && h != n
    ensures ({h} + a + b + c) + {n} - {h} == a + b + (c + {n})
  {
  }

  /** The key at `i` appears nowhere else among the keys. */
  lemma DistinctAt(keys: seq<string>, i: nat)
    requires Distinct(keys) && i < |keys|
    ensures keys[i] !in keys[i + 1..] && keys[i] !in keys[..i]
  {
    forall j | i + 1 <= j < |keys| ensures keys[j] != keys[i] { }
  }

  /** The sets of one more header, by their definitions. */
  lemma FixUnfold(keys: seq<string>, i: nat, frameworks: map<string, FrameworkMeta>)
    requires 0 < i <= |keys|
    ensures keys[..i - 1] == keys[..i][..i - 1] && keys[..i][i - 1] == keys[i - 1]
    ensures FixOne(keys[i - 1], frameworks) == Ok(None) ==>
      (Untouched(keys[..i], frameworks) == Untouched(keys[..i - 1], frameworks) + {keys[i - 1]}
       && Rewritten(keys[..i], frameworks) == Rewritten(keys[..i - 1], frameworks))
    ensures FixOne(keys[i - 1], frameworks).Ok? && FixOne(keys[i - 1], frameworks).value.Some? ==>
      (Untouched(keys[..i], frameworks) == Untouched(keys[..i - 1], frameworks)
       && Rewritten(keys[..i], frameworks) == Rewritten(keys[..i - 1], frameworks) + {FixOne(keys[i - 1], frameworks).value.value})
  {
    assert keys[..i][..i - 1] == keys[..i - 1];
  }

  lemma {:induction false} FixPrefix(keys: seq<string>, i: nat, frameworks: map<string, FrameworkMeta>)
    requires Distinct(keys) && i <= |keys|
    requires FixFrom(KeySet(keys), keys[..i], frameworks).Ok?
    ensures FixFrom(KeySet(keys), keys[..i], frameworks).value
      == KeySet(keys[i..]) + Untouched(keys[..i], frameworks) + Rewritten(keys[..i], frameworks)
  {
    if i == 0 {
      assert keys[0..] == keys;
      assert keys[..0] == [];
    } else {
      var h := keys[i - 1];
      var init := keys[..i - 1];
      FixUnfold(keys, i, frameworks);
      FixPrefix(keys, i - 1, frameworks);
      var prev := FixFrom(KeySet(keys), init, frameworks).value;
      var rest := KeySet(keys[i..]);
      var u := Untouched(init, frameworks);
      var w := Rewritten(init, frameworks);
      assert prev == {h} + rest + u + w by {
        assert keys[i - 1..][0] == h && keys[i - 1..][1..] == keys[i..];
      }
      assert h !in rest && h !in init by {
        DistinctAt(keys, i - 1);
      }
      match FixOne(h, frameworks)
      case Ok(None) =>
        Kept(h, rest, u, w);
        calc {
          FixFrom(KeySet(keys), keys[..i], frameworks).value;
          ({h} + rest + u + w);
          rest + (u + {h}) + w;
        }
      case Ok(Some(n)) =>
        assert h !in w by {
          if h in w {
            var g :| g in init && FixOne(g, frameworks) == Ok(Some(h));
            RewriteFixed(g, h, frameworks);
          }
        }
        assert h != n by { RewriteFixed(h, n, frameworks); }
        Swapped(h, n, rest, u, w);
        calc {
          FixFrom(KeySet(keys), keys[..i], frameworks).value;
          ({h} + rest + u + w) + {n} - {h};
          rest + u + (w + {n});
        }
    }
  }

  /**
   * With no error, `fixCustomImports` keeps every header it leaves alone and
   * replaces each of the others by its rewrite, whatever the order of the keys.
   */
  lemma FixedImportsContents(keys: seq<string>, frameworks: map<string, FrameworkMeta>)
    requires Distinct(keys)
    requires FixedImports(keys, frameworks).Ok?
    ensures FixedImports(keys, frameworks).value == Untouched(keys, frameworks) + Rewritten(keys, frameworks)
  {
    assert keys[..|keys|] == keys;
    FixPrefix(keys, |keys|, frameworks);
    assert keys[|keys|..] == [];
  }

  /** `convertToUmbrellaHeaderImports`' import of a framework: its umbrella header, or `Name/Name.h` without one. */
  function UmbrellaImport(meta: FrameworkMeta): (r: string)
    ensures '/' in r
  {
    var file := if meta.umbrellaHeader.HeaderPath? && meta.umbrellaHeader.path != "" then Basename(meta.umbrellaHeader.path)
                else meta.name + ".h";
    assert (meta.name + "/" + file)[|meta.name|] == '/';
    meta.name + "/" + file
  }

  /** The framework keys after `ks` are processed in order: a known framework gives way to its umbrella import. */
  function ConvertFrom(s0: set<string>, ks: seq<string>, frameworks: map<string, FrameworkMeta>): set<string>
  {
    if ks == [] then s0
    else
      var prev := ConvertFrom(s0, ks[..|ks| - 1], frameworks);
      var k := ks[|ks| - 1];
      if k in frameworks then prev - {k} + {UmbrellaImport(frameworks[k])} else prev
  }

  function Converted(keys: seq<string>, frameworks: map<string, FrameworkMeta>): set<string>
  {
    ConvertFrom(KeySet(keys), keys, frameworks)
  }

  /** The keys of `ks` that name no known framework. */
  function UnknownKeys(ks: seq<string>, frameworks: map<string, FrameworkMeta>): (r: set<string>)
    ensures forall k :: k in r <==> k in ks && k !in frameworks
  {
    if ks == [] then {}
    else
      var k := ks[|ks| - 1];
      assert forall g :: g in ks <==> g in ks[..|ks| - 1] || g == k by { assert ks == ks[..|ks| - 1] + [k]; }
      UnknownKeys(ks[..|ks| - 1], frameworks) + (if k !in frameworks then {k} else {})
  }

  /** The umbrella imports of the known frameworks among `ks`. */
  function UmbrellaImports(ks: seq<string>, frameworks: map<string, FrameworkMeta>): (r: set<string>)
    ensures forall n :: n in r ==> '/' in n
    ensures forall k :: k in ks && k in frameworks ==> UmbrellaImport(frameworks[k]) in r
  {
    if ks == [] then {}
    else
      var k := ks[|ks| - 1];
      assert forall g :: g in ks <==> g in ks[..|ks| - 1] || g == k by { assert ks == ks[..|ks| - 1] + [k]; }
      UmbrellaImports(ks[..|ks| - 1], frameworks) + (if k in frameworks then {UmbrellaImport(frameworks[k])} else {})
  }

  lemma Replaced(k: string, u: string, a: set<string>, b: set<string>, c: set<string>)
    requires k !in a && k !in b && k !in c
    ensures ({k} + a + b + c) - {k} + {u} == a + b + (c + {u})
  {
  }

  /** The sets of one more key, by their definitions. */
  lemma ConvertUnfold(keys: seq<string>, i: nat, frameworks: map<string, FrameworkMeta>)
    requires 0 < i <= |keys|
    ensures keys[..i - 1] == keys[..i][..i - 1] && keys[..i][i - 1] == keys[i - 1]
    ensures keys[i - 1] in frameworks ==> UnknownKeys(keys[..i], frameworks) == UnknownKeys(keys[..i - 1], frameworks)
    ensures keys[i - 1] !in frameworks ==> UnknownKeys(keys[..i], frameworks) == UnknownKeys(keys[..i - 1], frameworks) + {keys[i - 1]}
    ensures keys[i - 1] in frameworks ==> (UmbrellaImports(keys[..i], frameworks)
      == UmbrellaImports(keys[..i - 1], frameworks) + {UmbrellaImport(frameworks[keys[i - 1]])})
    ensures keys[i - 1] !in frameworks ==> UmbrellaImports(keys[..i], frameworks) == UmbrellaImports(keys[..i - 1], frameworks)
  {
    assert keys[..i][..i - 1] == keys[..i - 1];
  }

  lemma {:induction false} ConvertPrefix(keys: seq<string>, i: nat, frameworks: map<string, FrameworkMeta>)
    requires Distinct(keys) && i <= |keys|
    requires forall k :: k in keys ==> '/' !in k
    ensures ConvertFrom(KeySet(keys), keys[..i], frameworks)
      == KeySet(keys[i..]) + UnknownKeys(keys[..i], frameworks) + UmbrellaImports(keys[..i], frameworks)
  {
    if i == 0 {
      assert keys[0..] == keys;
      assert keys[..0] == [];
    } else {
      var k := keys[i - 1];
      var init := keys[..i - 1];
      ConvertUnfold(keys, i, frameworks);
      ConvertPrefix(keys, i - 1, frameworks);
      var prev := ConvertFrom(KeySet(keys), init, frameworks);
      var rest := KeySet(keys[i..]);
      var unknown := UnknownKeys(init, frameworks);
      var imports := UmbrellaImports(init, frameworks);
      assert prev == {k} + rest + unknown + imports by {
        assert keys[i - 1..][0] == k && keys[i - 1..][1..] == keys[i..];
      }
      assert k !in rest by {
        DistinctAt(keys, i - 1);
      }
      assert k !in imports by {
        assert k in keys;
      }
      assert ConvertFrom(KeySet(keys), keys[..i], frameworks)
        == if k in frameworks then prev - {k} + {UmbrellaImport(frameworks[k])} else prev;
      if k in frameworks {
        Replaced(k, UmbrellaImport(frameworks[k]), rest, unknown, imports);
        calc {
          ConvertFrom(KeySet(keys), keys[..i], frameworks);
          ({k} + rest + unknown + imports) - {k} + {UmbrellaImport(frameworks[k])};
          rest + unknown + (imports + {UmbrellaImport(frameworks[k])});
        }
      } else {
        Kept(k, rest, unknown, imports);
        calc {
          ConvertFrom(KeySet(keys), keys[..i], frameworks);
          ({k} + rest + unknown + imports);
          rest + (unknown + {k}) + imports;
        }
      }
    }
  }

  /**
   * With framework names free of `/`, each known framework gives way to its
   * umbrella import and every other key is kept.
   */
  lemma ConvertedContents(keys: seq<string>, frameworks: map<string, FrameworkMeta>)
    requires Distinct(keys)
    requires forall k :: k in keys ==> '/' !in k
    ensures Converted(keys, frameworks) == UnknownKeys(keys, frameworks) + UmbrellaImports(keys, frameworks)
  {
    assert keys[..|keys|] == keys;
    ConvertPrefix(keys, |keys|, frameworks);
    assert keys[|keys|..] == [];
  }

  // ---------------------------------------------------------------- generateCustoms

  /**
   * Whether `generateCustoms` writes `custom.m`. As written it compares
   * `Object.keys` of the array of class names with the number 0, which is
   * never true, so the file is always written; the intended guard skips it
   * when there are no custom classes.
   */
  predicate GeneratesCustoms(classNames: seq<string>, asWritten: bool)
  {
    asWritten || classNames != []
  }

  /** The counterexample: with no custom classes the file is still written as the code stands. */
  lemma CustomsWithoutClasses()
    ensures GeneratesCustoms([], true)
    ensures !GeneratesCustoms([], false)
  {
  }

  /** The generator: the class list it rewrites in place, and the inputs it reads. */
  class CodeGenerator {
    var classes: map<string, ClassInfo>
    const customs: map<string, ClassInfo>
    const structs: set<string>
    const userRequires: seq<string>
    const frameworks: map<string, FrameworkMeta>

    constructor(classes: map<string, ClassInfo>, customs: map<string, ClassInfo>, structs: set<string>,
                userRequires: seq<string>, frameworks: map<string, FrameworkMeta>)
      ensures this.classes == classes && this.customs == customs && this.structs == structs
      ensures this.userRequires == userRequires && this.frameworks == frameworks
    {
      this.classes := classes;
      this.customs := customs;
      this.structs := structs;
      this.userRequires := userRequires;
      this.frameworks := frameworks;
    }

    /** `mergeCustomClasses`: each custom class, marked custom, replaces the class of its key. */
    method MergeCustomClasses()
      modifies this
      ensures classes == Overlaid(old(classes), customs)
    {
      var todo := customs.Keys;
      while todo != {}
        invariant todo <= customs.Keys
        invariant classes.Keys == old(classes).Keys + (customs.Keys - todo)
        invariant forall k :: k in classes ==> classes[k] == if k in customs && k !in todo then AsCustom(customs[k]) else old(classes)[k]
        decreases todo
      {
        var className :| className in todo;
        var info := customs[className];
        info := info.(custom := true);
        info := info.(name := Some(info.className));
        classes := classes[className := info];
        todo := todo - {className};
      }
      assert classes == Overlaid(old(classes), customs);
    }

    /**
     * `stripUnusedClasses`: the classes kept on their own, then every import
     * of a kept class that is not a struct, until nothing is missing. An
     * import that is no class throws `<name> not found!`. The result is the
     * least set closed that way: it lies inside every other (`s`), and it
     * exists exactly when some such set does.
     */
    method StripUnusedClasses(ghost s: set<string>) returns (r: Result<map<string, ClassInfo>>)
      ensures r.Ok? ==> forall k :: k in r.value ==> k in classes && r.value[k] == classes[k]
      ensures r.Ok? ==> forall k :: k in classes && KeptOnItsOwn(classes, userRequires, k) ==> k in r.value
      ensures r.Ok? ==> ImportClosed(classes, structs, r.value.Keys)
      ensures Covers(classes, structs, userRequires, s) ==> r.Ok? && r.value.Keys <= s
      ensures r.Err? ==> exists n :: n !in classes && n !in structs && r.error == NotFound(n)
    {
      var used := map k | k in classes && KeptOnItsOwn(classes, userRequires, k) :: classes[k];
      var queue := EnqueueUsedImports(classes, structs, used);
      if Covers(classes, structs, userRequires, s) {
        forall x | x in queue ensures x in s {
          var k :| k in used && x in classes[k].imports;
          assert k in s;
        }
      }
      r := Reintegrate(classes, structs, used, queue, s);
    }

    /**
     * The class list `generate` works on: the custom classes merged in, then
     * the unused ones stripped; a missing import stops generation.
     */
    method PrepareClasses() returns (r: Result<()>)
      modifies this
      ensures r.Err? ==> classes == Overlaid(old(classes), customs)
      ensures r.Ok? ==> classes.Keys <= Overlaid(old(classes), customs).Keys
      ensures r.Ok? ==> forall k :: k in classes ==> classes[k] == Overlaid(old(classes), customs)[k]
      ensures r.Ok? ==> ImportClosed(Overlaid(old(classes), customs), structs, classes.Keys)
    {
      MergeCustomClasses();
      var stripped := StripUnusedClasses({});
      if stripped.Err? {
        return Err(stripped.error);
      }
      classes := stripped.value;
      return Ok(());
    }

    /** `fixCustomImports` over the keys of an imports object, in order. */
    method FixCustomImports(keys: seq<string>) returns (r: Result<set<string>>)
      ensures r == FixedImports(keys, frameworks)
    {
      var imports := KeySet(keys);
      var i := 0;
      while i < |keys|
        invariant 0 <= i <= |keys|
        invariant FixFrom(KeySet(keys), keys[..i], frameworks) == Ok(imports)
      {
        var header := keys[i];
        assert keys[..i + 1][..i] == keys[..i];
        var fw := HeaderFramework(header);
        if fw in frameworks {
          var umbrella := frameworks[fw].umbrellaHeader;
          if umbrella.NoHeader? {
            assert FixOne(keys[i], frameworks) == Err(TypeError);
            FixErrors(KeySet(keys), keys, frameworks);
            return Err(TypeError);
          }
          if umbrella.HeaderPath? {
            var base := BasenameNoExt(umbrella.path);
            if HeaderFile(header) != Some(base) {
              var newHeader := fw + "/" + base;
              imports := imports + {newHeader} - {header};
            }
          }
        }
        i := i + 1;
      }
      assert keys[..|keys|] == keys;
      return Ok(imports);
    }

    /** `convertToUmbrellaHeaderImports` over the keys of a frameworks object, in order. */
    method ConvertToUmbrellaHeaderImports(keys: seq<string>) returns (r: set<string>)
      ensures r == Converted(keys, frameworks)
    {
      r := KeySet(keys);
      for i := 0 to |keys|
        invariant r == ConvertFrom(KeySet(keys), keys[..i], frameworks)
      {
        var name := keys[i];
        assert keys[..i + 1][..i] == keys[..i];
        if name in frameworks {
          var meta := frameworks[name];
          var umbrellaImport := meta.name + "/" + meta.name + ".h";
          assert umbrellaImport == meta.name + "/" + (meta.name + ".h");
          if meta.umbrellaHeader.HeaderPath? && meta.umbrellaHeader.path != "" {
            umbrellaImport := meta.name + "/" + Basename(meta.umbrellaHeader.path);
          }
          assert umbrellaImport == UmbrellaImport(meta);
          r := r - {name} + {umbrellaImport};
        }
      }
      assert keys[..|keys|] == keys;
    }

    /**
     * `generateCustoms`: when it runs, the custom imports are fixed and
     * `custom.m` is written with them; `None` when it is skipped.
     */
    method GenerateCustoms(classNames: seq<string>, importKeys: seq<string>, asWritten: bool)
      returns (r: Result<Option<set<string>>>)
      ensures !GeneratesCustoms(classNames, asWritten) ==> r == Ok(None)
      ensures GeneratesCustoms(classNames, asWritten) ==> (r.Err? <==> FixedImports(importKeys, frameworks).Err?)
      ensures GeneratesCustoms(classNames, asWritten) && r.Ok? ==> r.value == Some(FixedImports(importKeys, frameworks).value)
    {
      if !GeneratesCustoms(classNames, asWritten) {
        return Ok(None);
      }
      var imports := FixCustomImports(importKeys);
      if imports.Err? {
        return Err(imports.error);
      }
      return Ok(Some(imports.value));
    }
  }
}
