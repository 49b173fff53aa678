/**
 * The bookkeeping of `generateFromJSON` (iphone/hooks/generate/index.js):
 * `merge`, the module table that collects each framework's functions,
 * constants, enum values and blocks, the inverse map of custom class files,
 * the `NSObject` root class and the names of structs.
 */
module GenIndex {
  import opened Wrappers
  import opened Json
  import opened JsValues
  import opened Strs
  import opened JsStrings
  import GenClass
  import GenModule

  // ---------------------------------------------------------------- merge

  /** `merge(src, dest)`: `dest` keeps its own members and gains those of `src` it lacks. */
  function Merged<V>(src: Option<map<string, V>>, dest: map<string, V>): (r: map<string, V>)
    ensures src.None? ==> r == dest
    ensures src.Some? ==> r.Keys == src.value.Keys + dest.Keys
    ensures forall k :: k in dest ==> k in r && r[k] == dest[k]
    ensures src.Some? ==> forall k :: k in src.value && k !in dest ==> r[k] == src.value[k]
  {
    if src.None? then dest else src.value + dest
  }

  /** The members of `s` among the keys in `done`. */
  function Part<V>(s: map<string, V>, done: set<string>): map<string, V>
  {
    map k | k in done && k in s :: s[k]
  }

  lemma PartNone<V>(s: map<string, V>, dest: map<string, V>)
    ensures Part(s, {}) + dest == dest
  {
    assert Part(s, {}) == map[];
  }

  /** Copying one more key of `s` into the partial merge. */
  lemma MergeStep<V>(s: map<string, V>, dest: map<string, V>, done: set<string>, k: string, r: map<string, V>)
    requires k in s && k !in done && r == Part(s, done) + dest
    ensures (if k in r then r else r[k := s[k]]) == Part(s, done + {k}) + dest
  {
    var next := if k in r then r else r[k := s[k]];
    var want := Part(s, done + {k}) + dest;
    assert forall x :: x in next <==> x in want;
    assert forall x :: x in next ==> next[x] == want[x];
  }

  /** The `for (var k in src)` loop of `merge`, copying one missing key at a time. */
  method Merge<V>(src: Option<map<string, V>>, dest: map<string, V>) returns (r: map<string, V>)
    ensures r == Merged(src, dest)
  {
    r := dest;
    if src.Some? {
      var s := src.value;
      var rest := s.Keys;
      ghost var done: set<string> := {};
      PartNone(s, dest);
      while rest != {}
        invariant rest + done == s.Keys && rest !! done
        invariant r == Part(s, done) + dest
        decreases |rest|
      {
        var k :| k in rest;
        MergeStep(s, dest, done, k, r);
        if k !in r {
          r := r[k := s[k]];
        }
        rest := rest - {k};
        done := done + {k};
      }
      PartAll(s, done);
    }
  }

  lemma PartAll<V>(s: map<string, V>, done: set<string>)
    requires done == s.Keys
    ensures Part(s, done) == s
  {
  }

  /** Merging the same source twice adds nothing the first merge did not. */
  lemma MergedIdempotent<V>(src: Option<map<string, V>>, dest: map<string, V>)
    ensures Merged(src, Merged(src, dest)) == Merged(src, dest)
  {
    var once := Merged(src, dest);
    var twice := Merged(src, once);
    assert forall k :: k in twice <==> k in once;
  }

  // ---------------------------------------------------------------- makeModule

  /** A declaration that belongs to a framework's module: a class, a function, a constant, an enum or a block list. */
  datatype Declaration = Declaration(name: string, framework: Option<Json>, filename: Option<Json>, customSource: Option<Json>)

  /** A module as `makeModule` creates it and the loops of `generateFromJSON` fill it. */
  datatype ModuleDraft = ModuleDraft(
    name: string, filename: Option<Json>, functions: seq<string>, variables: seq<string>,
    staticVariables: map<string, Json>, blocks: seq<Json>, customSource: bool)

  /** The key of a declaration's module: its framework, as a property name. */
  function ModuleKey(e: Declaration): string
    requires IsTruthyOpt(e.framework)
  {
    JsToString(e.framework.value)
  }

  /** The module a declaration creates: no members yet, `customSource` defaulting to false. */
  function NewModule(e: Declaration): ModuleDraft
    requires IsTruthyOpt(e.framework)
  {
    ModuleDraft(ModuleKey(e), e.filename, [], [], map[], [], IsTruthyOpt(e.customSource))
  }

  /** The table after `makeModule(modules, e)`: a module is created only for a new framework. */
  function Registered(modules: map<string, ModuleDraft>, e: Declaration): (r: map<string, ModuleDraft>)
  {
    if !IsTruthyOpt(e.framework) || ModuleKey(e) in modules then modules
    else modules[ModuleKey(e) := NewModule(e)]
  }

  /** What a declaration adds to its module: a function's or a constant's name. */
  datatype MemberKind = Functions | Variables

  function WithMember(m: ModuleDraft, kind: MemberKind, name: string): ModuleDraft
  {
    match kind
    case Functions => m.(functions := m.functions + [name])
    case Variables => m.(variables := m.variables + [name])
  }

  function MembersOf(m: ModuleDraft, kind: MemberKind): seq<string>
  {
    match kind
    case Functions => m.functions
    case Variables => m.variables
  }

  /** The table after each declaration has been registered and added to its module. */
  function Collected(modules: map<string, ModuleDraft>, decls: seq<Declaration>, kind: MemberKind): map<string, ModuleDraft>
    decreases |decls|
  {
    if decls == [] then modules
    else
      var m := Collected(modules, decls[..|decls| - 1], kind);
      var e := decls[|decls| - 1];
      if IsTruthyOpt(e.framework) then
        var r := Registered(m, e);
        r[ModuleKey(e) := WithMember(r[ModuleKey(e)], kind, e.name)]
      else m
  }

  /** The names of the declarations of framework `k`, in order. */
  function NamesIn(decls: seq<Declaration>, k: string): seq<string>
    decreases |decls|
  {
    if decls == [] then []
    else
      var e := decls[|decls| - 1];
      NamesIn(decls[..|decls| - 1], k) + (if IsTruthyOpt(e.framework) && ModuleKey(e) == k then [e.name] else [])
  }

  /** A framework no declaration names has no names. */
  lemma {:induction false} NamesInNone(decls: seq<Declaration>, k: string)
    requires !DeclaredIn(decls, k)
    decreases |decls|
    ensures NamesIn(decls, k) == []
  {
    if decls != [] {
      var init := decls[..|decls| - 1];
      forall j | 0 <= j < |init| && IsTruthyOpt(init[j].framework)
        ensures ModuleKey(init[j]) != k
      {
        assert init[j] == decls[j];
      }
      NamesInNone(init, k);
    }
  }

  /** A declaration of framework `k` among the first `decls`. */
  predicate DeclaredIn(decls: seq<Declaration>, k: string)
  {
    exists i :: 0 <= i < |decls| && IsTruthyOpt(decls[i].framework) && ModuleKey(decls[i]) == k
  }

  /** The object of the enum values, the block lists and the module table as `generateFromJSON` fills them. */
  class ModuleTable {
    var modules: map<string, ModuleDraft>

    constructor ()
      ensures modules == map[]
    {
      modules := map[];
    }

    /** `makeModule(modules, e)`: the module of `e`'s framework, created when it is new; none without a framework. */
    method MakeModule(e: Declaration) returns (key: Option<string>)
      modifies this
      ensures key.None? <==> !IsTruthyOpt(e.framework)
      ensures key.Some? ==> key.value == ModuleKey(e) && key.value in modules
      ensures modules == Registered(old(modules), e)
    {
      if !IsTruthyOpt(e.framework) {
        return None;
      }
      var k := JsToString(e.framework.value);
      if k !in modules {
        modules := modules[k := NewModule(e)];
      }
      key := Some(k);
    }

    /** The loop over `json.functions` (or `json.vars`): each declaration's name is pushed onto its module. */
    method AddMembers(decls: seq<Declaration>, kind: MemberKind)
      modifies this
      ensures modules == Collected(old(modules), decls, kind)
    {
      var i := 0;
      while i < |decls|
        invariant 0 <= i <= |decls|
        invariant modules == Collected(old(modules), decls[..i], kind)
      {
        assert decls[..i + 1][..i] == decls[..i];
        var key := MakeModule(decls[i]);
        if key.Some? {
          modules := modules[key.value := WithMember(modules[key.value], kind, decls[i].name)];
        }
        i := i + 1;
      }
      assert decls[..i] == decls;
    }

    /**
     * The loop over `json.enums`: an enum with values copies each of them
     * into its module's static variables, a later value replacing an
     * earlier one of the same name.
     */
    method AddEnums(enums: seq<(Declaration, Option<map<string, Json>>)>)
      modifies this
      ensures modules == EnumsCollected(old(modules), enums)
    {
      var i := 0;
      while i < |enums|
        invariant 0 <= i <= |enums|
        invariant modules == EnumsCollected(old(modules), enums[..i])
      {
        assert enums[..i + 1][..i] == enums[..i];
        var (e, values) := enums[i];
        var key := MakeModule(e);
        if key.Some? && values.Some? {
          var statics := CopyValues(modules[key.value].staticVariables, values.value);
          modules := modules[key.value := modules[key.value].(staticVariables := statics)];
        }
        i := i + 1;
      }
      assert enums[..i] == enums;
    }

    /**
     * The loop over `json.blocks`: the blocks of each key go to the module
     * of the framework the key names, a custom header path standing for
     * the framework that includes it; falsy blocks are skipped.
     */
    method AddBlocks(blocks: seq<(string, seq<Option<Json>>)>, customFrameworks: map<string, string>)
      modifies this
      ensures modules == BlocksCollected(old(modules), blocks, customFrameworks)
    {
      var i := 0;
      while i < |blocks|
        invariant 0 <= i <= |blocks|
        invariant modules == BlocksCollected(old(modules), blocks[..i], customFrameworks)
      {
        assert blocks[..i + 1][..i] == blocks[..i];
        var (k, list) := blocks[i];
        var key := MakeModule(BlockDeclaration(k, customFrameworks));
        if key.Some? {
          var pushed := PushBlocks(modules[key.value].blocks, list);
          modules := modules[key.value := modules[key.value].(blocks := pushed)];
        }
        i := i + 1;
      }
      assert blocks[..i] == blocks;
    }
  }

  /** The inner `forEach` over an enum's values. */
  method CopyValues(statics: map<string, Json>, values: map<string, Json>) returns (r: map<string, Json>)
    ensures r == statics + values
  {
    r := statics;
    var rest := values.Keys;
    ghost var done: set<string> := {};
    CopyNone(statics, values);
    while rest != {}
      invariant rest + done == values.Keys && rest !! done
      invariant r == statics + Part(values, done)
      decreases |rest|
    {
      var n :| n in rest;
      CopyStep(statics, values, done, n);
      r := r[n := values[n]];
      rest := rest - {n};
      done := done + {n};
    }
    PartAll(values, done);
  }

  lemma CopyNone(statics: map<string, Json>, values: map<string, Json>)
    ensures statics + Part(values, {}) == statics
  {
    assert Part(values, {}) == map[];
  }

  lemma CopyStep(statics: map<string, Json>, values: map<string, Json>, done: set<string>, n: string)
    requires n in values
    ensures (statics + Part(values, done))[n := values[n]] == statics + Part(values, done + {n})
  {
    var a := (statics + Part(values, done))[n := values[n]];
    var b := statics + Part(values, done + {n});
    assert forall x :: x in a <==> x in b;
    assert forall x :: x in a ==> a[x] == b[x];
  }

  /** The table after the enums have been registered and their values copied. */
  function EnumsCollected(modules: map<string, ModuleDraft>, enums: seq<(Declaration, Option<map<string, Json>>)>): map<string, ModuleDraft>
    decreases |enums|
  {
    if enums == [] then modules
    else
      var m := EnumsCollected(modules, enums[..|enums| - 1]);
      var (e, values) := enums[|enums| - 1];
      if IsTruthyOpt(e.framework) then
        var r := Registered(m, e);
        if values.Some? then r[ModuleKey(e) := r[ModuleKey(e)].(staticVariables := r[ModuleKey(e)].staticVariables + values.value)]
        else r
      else m
  }

  /** The framework of a block list's key: a header path of a custom class stands for the framework that includes it. */
  function BlockFramework(k: string, customFrameworks: map<string, string>): (r: string)
    ensures (k == [] || k[0] != '/') ==> r == k
    ensures k != [] && k[0] == '/' && k in customFrameworks && customFrameworks[k] != [] ==> r == customFrameworks[k]
    ensures k != [] && k[0] == '/' && (k !in customFrameworks || customFrameworks[k] == []) ==> r == k
  {
    if k != [] && k[0] == '/' && k in customFrameworks && customFrameworks[k] != [] then customFrameworks[k] else k
  }

  /** `{framework: frameworkName, filename: ''}`: the declaration a block list registers its module with. */
  function BlockDeclaration(k: string, customFrameworks: map<string, string>): Declaration
  {
    Declaration(BlockFramework(k, customFrameworks), Some(JStr(BlockFramework(k, customFrameworks))), Some(JStr("")), None)
  }

  /** The truthy blocks of a list, in order. */
  function TruthyBlocks(list: seq<Option<Json>>): (r: seq<Json>)
    decreases |list|
    ensures forall b :: b in r <==> Some(b) in list && IsTruthy(b)
  {
    if list == [] then []
    else
      var b := list[|list| - 1];
      TruthyBlocks(list[..|list| - 1]) + (if IsTruthyOpt(b) then [b.value] else [])
  }

  /** The inner `forEach` over one key's blocks. */
  method PushBlocks(blocks: seq<Json>, list: seq<Option<Json>>) returns (r: seq<Json>)
    ensures r == blocks + TruthyBlocks(list)
  {
    r := blocks;
    var i := 0;
    while i < |list|
      invariant 0 <= i <= |list|
      invariant r == blocks + TruthyBlocks(list[..i])
    {
      assert list[..i + 1][..i] == list[..i];
      if IsTruthyOpt(list[i]) {
        r := r + [list[i].value];
      }
      i := i + 1;
    }
    assert list[..i] == list;
  }

  /** The table after the block lists have been registered and their truthy blocks pushed. */
  function BlocksCollected(modules: map<string, ModuleDraft>, blocks: seq<(string, seq<Option<Json>>)>, customFrameworks: map<string, string>): map<string, ModuleDraft>
    decreases |blocks|
  {
    if blocks == [] then modules
    else
      var m := BlocksCollected(modules, blocks[..|blocks| - 1], customFrameworks);
      var (k, list) := blocks[|blocks| - 1];
      var e := BlockDeclaration(k, customFrameworks);
      if IsTruthyOpt(e.framework) then
        var r := Registered(m, e);
        r[ModuleKey(e) := r[ModuleKey(e)].(blocks := r[ModuleKey(e)].blocks + TruthyBlocks(list))]
      else m
  }

  /** After the loop over `json.functions` (or `json.vars`) the table has a module for exactly the frameworks it had or that some declaration names. */
  lemma {:induction false} CollectedKeys(modules: map<string, ModuleDraft>, decls: seq<Declaration>, kind: MemberKind, k: string)
    decreases |decls|
    ensures k in Collected(modules, decls, kind) <==> k in modules || DeclaredIn(decls, k)
  {
    if decls != [] {
      var init := decls[..|decls| - 1];
      var e := decls[|decls| - 1];
      CollectedKeys(modules, init, kind, k);
      if DeclaredIn(init, k) {
        var i :| 0 <= i < |init| && IsTruthyOpt(init[i].framework) && ModuleKey(init[i]) == k;
        assert decls[i] == init[i];
      }
      if !DeclaredIn(init, k) && !(IsTruthyOpt(e.framework) && ModuleKey(e) == k) {
        forall j | 0 <= j < |decls| && IsTruthyOpt(decls[j].framework)
          ensures ModuleKey(decls[j]) != k
        {
          if j < |init| {
            assert decls[j] == init[j];
          }
        }
      }
    }
  }

  /** One declaration appends its name to its own framework's list and leaves every other module alone. */
  lemma CollectedStep(modules: map<string, ModuleDraft>, decls: seq<Declaration>, kind: MemberKind, k: string)
    requires decls != [] && k in Collected(modules, decls, kind)
    ensures var m := Collected(modules, decls[..|decls| - 1], kind);
      var e := decls[|decls| - 1];
      MembersOf(Collected(modules, decls, kind)[k], kind)
        == (if k in m then MembersOf(m[k], kind) else []) + (if IsTruthyOpt(e.framework) && ModuleKey(e) == k then [e.name] else [])
  {
    var m := Collected(modules, decls[..|decls| - 1], kind);
    var e := decls[|decls| - 1];
    if IsTruthyOpt(e.framework) && ModuleKey(e) == k && k !in m {
      assert MembersOf(NewModule(e), kind) == [];
    }
  }

  /**
   * Each module's list holds the names of its framework's declarations
   * after those it had, in order.
   */
  lemma {:induction false} MembersCollected(modules: map<string, ModuleDraft>, decls: seq<Declaration>, kind: MemberKind, k: string)
    requires k in Collected(modules, decls, kind)
    decreases |decls|
    ensures MembersOf(Collected(modules, decls, kind)[k], kind) == (if k in modules then MembersOf(modules[k], kind) else []) + NamesIn(decls, k)
  {
    if decls != [] {
      var init := decls[..|decls| - 1];
      var m := Collected(modules, init, kind);
      CollectedStep(modules, decls, kind, k);
      if k in m {
        MembersCollected(modules, init, kind, k);
      } else {
        CollectedKeys(modules, init, kind, k);
        NamesInNone(init, k);
      }
    }
  }

  /**
   * The first declaration of a framework the table lacked creates its
   * module: the module keeps that declaration's file name and
   * `customSource`, whatever the later declarations say.
   */
  lemma {:induction false} FirstDeclarationWins(modules: map<string, ModuleDraft>, decls: seq<Declaration>, kind: MemberKind, i: nat)
    requires i < |decls| && IsTruthyOpt(decls[i].framework)
    requires ModuleKey(decls[i]) !in modules
    requires forall j :: 0 <= j < i && IsTruthyOpt(decls[j].framework) ==> ModuleKey(decls[j]) != ModuleKey(decls[i])
    decreases |decls|
    ensures ModuleKey(decls[i]) in Collected(modules, decls, kind)
    ensures Collected(modules, decls, kind)[ModuleKey(decls[i])].filename == decls[i].filename
    ensures Collected(modules, decls, kind)[ModuleKey(decls[i])].customSource == IsTruthyOpt(decls[i].customSource)
  {
    var k := ModuleKey(decls[i]);
    var init := decls[..|decls| - 1];
    if i == |decls| - 1 {
      forall j | 0 <= j < |init| && IsTruthyOpt(init[j].framework)
        ensures ModuleKey(init[j]) != k
      {
        assert init[j] == decls[j];
      }
      CollectedKeys(modules, init, kind, k);
    } else {
      assert init[i] == decls[i];
      forall j | 0 <= j < i && IsTruthyOpt(init[j].framework)
        ensures ModuleKey(init[j]) != k
      {
        assert init[j] == decls[j];
      }
      FirstDeclarationWins(modules, init, kind, i);
    }
  }

  /** A header path registered by a custom framework sends its blocks to that framework's module. */
  lemma CustomHeaderBlocks(k: string, customFrameworks: map<string, string>)
    requires k != [] && k[0] == '/' && k in customFrameworks && customFrameworks[k] != []
    ensures BlockDeclaration(k, customFrameworks).framework == Some(JStr(customFrameworks[k]))
    ensures ModuleKey(BlockDeclaration(k, customFrameworks)) == customFrameworks[k]
  {
  }

  // ---------------------------------------------------------------- custom_frameworks

  /** The frameworks of the app's custom classes, each with the header files of its classes. */
  type Includes = seq<(string, seq<string>)>

  /** Each of the files mapped to one framework. */
  function FileMap(files: seq<string>, name: string): map<string, string>
  {
    map f | f in files :: name
  }

  /** `custom_frameworks` after the first frameworks: every class file maps to the last framework listing it. */
  function Inverted(includes: Includes): (r: map<string, string>)
    decreases |includes|
  {
    if includes == [] then map[]
    else
      var (name, files) := includes[|includes| - 1];
      Inverted(includes[..|includes| - 1]) + FileMap(files, name)
  }

  /** The loops over `includes` that build `custom_frameworks`. */
  method InvertIncludes(includes: Includes) returns (r: map<string, string>)
    ensures r == Inverted(includes)
  {
    r := map[];
    var i := 0;
    while i < |includes|
      invariant 0 <= i <= |includes|
      invariant r == Inverted(includes[..i])
    {
      assert includes[..i + 1][..i] == includes[..i];
      r := MapFiles(r, includes[i].0, includes[i].1);
      i := i + 1;
    }
    assert includes[..i] == includes;
  }

  /** The inner loop: every class file of one framework maps to it. */
  method MapFiles(r0: map<string, string>, name: string, files: seq<string>) returns (r: map<string, string>)
    ensures r == r0 + FileMap(files, name)
  {
    r := r0;
    var c := 0;
    while c < |files|
      invariant 0 <= c <= |files|
      invariant r == r0 + FileMap(files[..c], name)
    {
      MapFilesStep(r0, name, files, c);
      r := r[files[c] := name];
      c := c + 1;
    }
    assert files[..c] == files;
  }

  lemma MapFilesStep(r0: map<string, string>, name: string, files: seq<string>, c: nat)
    requires c < |files|
    ensures (r0 + FileMap(files[..c], name))[files[c] := name] == r0 + FileMap(files[..c + 1], name)
  {
    assert files[..c + 1] == files[..c] + [files[c]];
  }

  /**
   * A file is in `custom_frameworks` exactly when some framework lists it,
   * and it maps to the last framework that does.
   */
  lemma {:induction false} InvertedMember(includes: Includes, f: string)
    decreases |includes|
    ensures f in Inverted(includes) <==> exists i :: 0 <= i < |includes| && f in includes[i].1
    ensures f in Inverted(includes) ==> exists i :: (0 <= i < |includes| && f in includes[i].1 && Inverted(includes)[f] == includes[i].0
      && forall j :: i < j < |includes| ==> f !in includes[j].1)
  {
    if includes != [] {
      var init := includes[..|includes| - 1];
      var last := includes[|includes| - 1];
      InvertedMember(init, f);
      if f in last.1 {
        assert Inverted(includes)[f] == last.0;
      } else {
        if exists i :: 0 <= i < |includes| && f in includes[i].1 {
          var i :| 0 <= i < |includes| && f in includes[i].1;
          assert init[i] == includes[i];
        }
        if f in Inverted(init) {
          var i :| 0 <= i < |init| && f in init[i].1 && Inverted(init)[f] == init[i].0
            && forall j :: i < j < |init| ==> f !in init[j].1;
          assert includes[i] == init[i];
          forall j | i < j < |includes|
            ensures f !in includes[j].1
          {
            if j < |init| {
              assert includes[j] == init[j];
            }
          }
        }
        if exists i :: 0 <= i < |init| && f in init[i].1 {
          var i :| 0 <= i < |init| && f in init[i].1;
          assert includes[i] == init[i];
        }
      }
    }
  }

  // ---------------------------------------------------------------- NSObject

  /** The value methods attached to `NSObject` for every wrapper to inherit. */
  const HelperMethods: seq<string> := [
    "stringValue", "boolValue", "intValue", "charValue", "floatValue", "shortValue",
    "longValue", "longLongValue", "unsignedIntValue", "unsignedCharValue",
    "unsignedShortValue", "unsignedLongLongValue",
    "unsignedLongValue", "isNull", "protect", "unprotect"]

  /** The root class created when the metabase has none. */
  const DefaultRoot := GenClass.ClassMeta("NSObject", None, None, Some(JStr("Foundation")), None, Some(map[]), Some(map[]))

  /**
   * The root class: created when missing, given the value methods as
   * instance methods and `extend` as a class method, and placed in
   * Foundation. A root class without a methods object cannot take them.
   */
  method AddRootClass(classes: map<string, GenClass.ClassMeta>) returns (r: Result<map<string, GenClass.ClassMeta>>)
    ensures r.Err? <==> "NSObject" in classes && classes["NSObject"].methods.None?
    ensures r.Ok? ==> r.value.Keys == classes.Keys + {"NSObject"}
    ensures r.Ok? ==> forall k :: k in classes && k != "NSObject" ==> r.value[k] == classes[k]
    ensures r.Ok? ==> r.value["NSObject"].framework == Some(JStr("Foundation")) && r.value["NSObject"].methods.Some?
    ensures r.Ok? ==> var methods := r.value["NSObject"].methods.value;
      (forall t :: t in HelperMethods ==> t in methods && methods[t] == GenClass.MethodMeta(t, true, None))
      && "extend" in methods && methods["extend"] == GenClass.MethodMeta("extend", false, None)
    ensures r.Ok? ==> var root := if "NSObject" in classes then classes["NSObject"] else DefaultRoot;
      forall t :: t in root.methods.value && t !in HelperMethods && t != "extend" ==>
        t in r.value["NSObject"].methods.value && r.value["NSObject"].methods.value[t] == root.methods.value[t]
  {
    var root := if "NSObject" in classes then classes["NSObject"] else DefaultRoot;
    if root.methods.None? {
      return Err(TypeError);
    }
    var methods := AddHelperMethods(root.methods.value);
    methods := methods["extend" := GenClass.MethodMeta("extend", false, None)];
    r := Ok(classes["NSObject" := root.(methods := Some(methods), framework := Some(JStr("Foundation")))]);
  }

  /** The `forEach` over the value methods: each is set as an instance method, replacing one of the same name. */
  method AddHelperMethods(m0: map<string, GenClass.MethodMeta>) returns (methods: map<string, GenClass.MethodMeta>)
    ensures forall t :: t in HelperMethods ==> t in methods && methods[t] == GenClass.MethodMeta(t, true, None)
    ensures forall t :: t in m0 && t !in HelperMethods ==> t in methods && methods[t] == m0[t]
  {
    methods := m0;
    var i := 0;
    while i < |HelperMethods|
      invariant 0 <= i <= |HelperMethods|
      invariant forall t :: t in HelperMethods[..i] ==> t in methods && methods[t] == GenClass.MethodMeta(t, true, None)
      invariant forall t :: t in m0 && t !in HelperMethods ==> t in methods && methods[t] == m0[t]
    {
      var t := HelperMethods[i];
      assert HelperMethods[..i + 1] == HelperMethods[..i] + [t];
      methods := methods[t := GenClass.MethodMeta(t, true, None)];
      i := i + 1;
    }
    assert HelperMethods[..i] == HelperMethods;
  }

  /** The functions the generator does not wrap. */
  const UnsupportedFunctions: set<string> := {"NSLogv", "NSLog", "UIApplicationMain"}

  /** `json.functions` without the unsupported functions; a missing object stays missing. */
  function WithoutUnsupported<V>(functions: Option<map<string, V>>): (r: Option<map<string, V>>)
    ensures r.None? <==> functions.None?
    ensures r.Some? ==> forall k :: k in r.value <==> k in functions.value && k !in UnsupportedFunctions
    ensures r.Some? ==> forall k :: k in r.value ==> r.value[k] == functions.value[k]
  {
    if functions.None? then None else Some(functions.value - UnsupportedFunctions)
  }

  /** A class declared in the Objective-C runtime's own `NSObject.h` belongs to Foundation. */
  function ClassFramework(cls: GenClass.ClassMeta): (r: Option<Json>)
    ensures cls.filename == Some("/usr/include/objc/NSObject.h") ==> r == Some(JStr("Foundation"))
    ensures cls.filename != Some("/usr/include/objc/NSObject.h") ==> r == cls.framework
  {
    if cls.filename == Some("/usr/include/objc/NSObject.h") then Some(JStr("Foundation")) else cls.framework
  }

  // ---------------------------------------------------------------- structs

  /** The name of a struct whose key starts with underscores loses its own leading underscores and surrounding blanks. */
  function StructName(key: string, name: string): (r: string)
  {
    if key != [] && key[0] == '_' then Trim(DropLeading(name, '_')) else name
  }

  /** A struct whose key has no leading underscore keeps its name. */
  lemma StructNameKept(key: string, name: string)
    requires key == [] || key[0] != '_'
    ensures StructName(key, name) == name
  {
  }

  /** `__CGPoint` stored under `_CGPoint` becomes `CGPoint`: the underscores and nothing else go. */
  lemma StructNameStripped(key: string, underscores: string, name: string)
    requires key != [] && key[0] == '_'
    requires forall k :: 0 <= k < |underscores| ==> underscores[k] == '_'
    requires name != [] && name[0] != '_' && forall k :: 0 <= k < |name| ==> !IsJsSpace(name[k])
    ensures StructName(key, underscores + name) == name
  {
    GenModule.DropUnderscores(underscores, name);
    TrimNoSpace(name);
  }
}
