/**
 * Framework module wrappers (iphone/hooks/generate/module.js): the
 * Objective-C return type of a function or constant, the functions,
 * constants and static variables a module keeps, and whether a module is
 * generated at all.
 */
module GenModule {
  import opened Wrappers
  import opened Strs
  import opened JsStrings
  import opened JsValues
  import opened Json
  import GenUtil
  import GenClass
  import GenImports

  // ---------------------------------------------------------------- getObjCReturnType

  /** A type of the metabase: its tag and its value (a C spelling, a typedef's or a struct's name). */
  datatype TypeValue = TypeValue(tag: string, value: Option<string>)

  /** The tags whose value is the C type itself. */
  const StructLikeTags: set<string> := {
    "unknown", "enum", "pointer", "function_callback", "union", "unexposed", "vector", "block",
    "incomplete_array", "struct"
  }
  const ObjectTags: set<string> := {"id", "obj_interface", "objc_pointer"}
  const ClassTags: set<string> := {"class", "Class"}
  const SelectorTags: set<string> := {"selector", "SEL"}

  const MissingTypedef := "Unable to find typedef in metabase: "
  const MissingStruct := "Unable to find struct in metabase: "
  const UnknownType := "cannot figure out objc return type"

  /** A value that is present and not the empty string. */
  predicate HasValue(v: Option<string>)
  {
    v.Some? && v.value != []
  }

  /** `value.value || fallback`. */
  function ValueOr(v: Option<string>, fallback: string): (r: string)
    ensures HasValue(v) ==> r == v.value
    ensures !HasValue(v) ==> r == fallback
  {
    if HasValue(v) then v.value else fallback
  }

  /** `value.value.substring(7).replace(/^_+/, '').trim()`: the struct a `struct X` record names. */
  function RecordStructName(v: string): (r: string)
    requires |v| >= 7
    ensures |r| <= |v| - 7
  {
    Trim(DropLeading(v[7..], '_'))
  }

  /** `json.typedefs[value.value]` looks up `undefined` when the value is missing. */
  function TypedefKey(value: TypeValue): string
  {
    if value.value.Some? then value.value.value else "undefined"
  }

  /**
   * `getObjCReturnType`: typedefs are followed (at most `fuel` of them, since
   * a typedef that names itself recurses until the stack overflows), and
   * the type's tag picks the spelling.
   */
  function ObjCReturnType(value: TypeValue, typedefs: map<string, TypeValue>, structs: set<string>, fuel: nat): (r: Result<string>)
    decreases fuel
    ensures value.tag in StructLikeTags ==> r == Ok(ValueOr(value.value, "void *"))
    ensures value.tag in ObjectTags ==> r == Ok("id")
    ensures value.tag in ClassTags ==> r == Ok("Class")
    ensures value.tag in SelectorTags ==> r == Ok("SEL")
    ensures r.Err? ==> (r.error == RangeError || r.error == UnknownType
      || StartsWith(r.error, MissingTypedef) || StartsWith(r.error, MissingStruct))
  {
    if value.tag == "typedef" then
      var key := TypedefKey(value);
      if key !in typedefs then Err(MissingTypedef + key)
      else if fuel == 0 then Err(RangeError)
      else ObjCReturnType(typedefs[key], typedefs, structs, fuel - 1)
    else if value.tag in StructLikeTags then Ok(ValueOr(value.value, "void *"))
    else if value.tag == "record" && !HasValue(value.value) then Ok("void *")
    else if value.tag == "record" && StartsWith(value.value.value, "struct ") then
      var name := RecordStructName(value.value.value);
      if name in structs then Ok(name) else Err(MissingStruct + name)
    else if value.tag in ObjectTags then Ok("id")
    else if value.tag in ClassTags then Ok("Class")
    else if value.tag in SelectorTags then Ok("SEL")
    else if GenUtil.IsPrimitive(value.tag) then Ok(ValueOr(value.value, GenUtil.GetPrimitiveValue(value.tag)))
    else Err(UnknownType)
  }

  /** A typedef is transparent: it resolves to what the type it names resolves to. */
  lemma TypedefTransparent(name: string, typedefs: map<string, TypeValue>, structs: set<string>, fuel: nat)
    requires name in typedefs
    ensures ObjCReturnType(TypeValue("typedef", Some(name)), typedefs, structs, fuel + 1)
      == ObjCReturnType(typedefs[name], typedefs, structs, fuel)
  {
  }

  /** A type that resolves keeps its spelling when more typedefs may be followed. */
  lemma {:induction false} ObjCReturnTypeMoreFuel(value: TypeValue, typedefs: map<string, TypeValue>, structs: set<string>, fuel: nat, more: nat)
    requires fuel <= more && ObjCReturnType(value, typedefs, structs, fuel) != Err(RangeError)
    decreases fuel
    ensures ObjCReturnType(value, typedefs, structs, more) == ObjCReturnType(value, typedefs, structs, fuel)
  {
    if value.tag == "typedef" && TypedefKey(value) in typedefs && fuel > 0 {
      ObjCReturnTypeMoreFuel(typedefs[TypedefKey(value)], typedefs, structs, fuel - 1, more - 1);
    }
  }

  /** A typedef that names itself never resolves. */
  lemma {:induction false} SelfTypedefOverflows(name: string, typedefs: map<string, TypeValue>, structs: set<string>, fuel: nat)
    requires name in typedefs && typedefs[name] == TypeValue("typedef", Some(name))
    decreases fuel
    ensures ObjCReturnType(TypeValue("typedef", Some(name)), typedefs, structs, fuel) == Err(RangeError)
  {
    if fuel > 0 {
      SelfTypedefOverflows(name, typedefs, structs, fuel - 1);
    }
  }

  /** A record whose value starts with `struct ` resolves to the struct it names, if the metabase has it. */
  lemma RecordCase(v: string, typedefs: map<string, TypeValue>, structs: set<string>, fuel: nat)
    requires StartsWith(v, "struct ")
    ensures var r := ObjCReturnType(TypeValue("record", Some(v)), typedefs, structs, fuel);
      (RecordStructName(v) in structs ==> r == Ok(RecordStructName(v)))
      && (RecordStructName(v) !in structs ==> r == Err(MissingStruct + RecordStructName(v)))
  {
    assert "record" !in StructLikeTags && "record" != "typedef";
    assert HasValue(Some(v));
  }

  /**
   * A record `struct X`, with any leading underscores on `X`, resolves to
   * the registered struct `X`, and fails for a struct the metabase lacks.
   */
  lemma RecordResolvesStruct(underscores: string, name: string, typedefs: map<string, TypeValue>, structs: set<string>, fuel: nat)
    requires forall k :: 0 <= k < |underscores| ==> underscores[k] == '_'
    requires name != [] && name[0] != '_' && forall k :: 0 <= k < |name| ==> !IsJsSpace(name[k])
    ensures var r := ObjCReturnType(TypeValue("record", Some("struct " + underscores + name)), typedefs, structs, fuel);
      (name in structs ==> r == Ok(name)) && (name !in structs ==> r == Err(MissingStruct + name))
  {
    var v := "struct " + underscores + name;
    assert v[..7] == "struct ";
    assert v[7..] == underscores + name;
    DropUnderscores(underscores, name);
    TrimNoSpace(name);
    assert RecordStructName(v) == name;
    RecordCase(v, typedefs, structs, fuel);
  }

  lemma {:induction false} DropUnderscores(underscores: string, name: string)
    requires forall k :: 0 <= k < |underscores| ==> underscores[k] == '_'
    requires name != [] && name[0] != '_'
    decreases |underscores|
    ensures DropLeading(underscores + name, '_') == name
  {
    if underscores == [] {
      assert underscores + name == name;
    } else {
      assert (underscores + name)[1..] == underscores[1..] + name;
      DropUnderscores(underscores[1..], name);
    }
  }

  /** A primitive without a value resolves to its expanded alias, itself a primitive. */
  lemma PrimitiveResolves(tag: string, typedefs: map<string, TypeValue>, structs: set<string>, fuel: nat)
    requires GenUtil.IsPrimitive(tag)
    ensures ObjCReturnType(TypeValue(tag, None), typedefs, structs, fuel) == Ok(GenUtil.GetPrimitiveValue(tag))
    ensures GenUtil.IsPrimitive(GenUtil.GetPrimitiveValue(tag))
  {
    GenUtil.PrimitiveValueStable(tag);
    PrimitiveNotStructLike(tag);
    PrimitiveNotOther(tag);
  }

  lemma PrimitiveNotStructLike(tag: string)
    requires GenUtil.IsPrimitive(tag)
    ensures tag !in StructLikeTags
  {
    assert tag in GenUtil.PrimitiveTypes;
  }

  lemma PrimitiveNotOther(tag: string)
    requires GenUtil.IsPrimitive(tag)
    ensures tag !in ObjectTags && tag !in ClassTags && tag !in SelectorTags && tag != "typedef" && tag != "record"
  {
    assert tag in GenUtil.PrimitiveTypes;
  }

  // ---------------------------------------------------------------- makeModule

  /** A function or constant of the framework, with the Objective-C code its template generates. */
  datatype Member = Member(name: string, objcCode: string)

  /** A module of the generator, as index.js builds it. */
  datatype ModuleMeta = ModuleMeta(
    name: string, framework: string, filename: Option<string>, customSource: bool,
    staticVariables: seq<(string, Json)>, functions: seq<Member>, variables: seq<Member>,
    blocks: seq<Json>, frameworks: map<string, int>)

  /** The template data of a module: what it keeps, by name, and the Objective-C code of its class. */
  datatype ModuleEntry = ModuleEntry(
    name: string, properties: seq<string>, classMethods: seq<string>, objcMethods: seq<string>,
    staticVariables: map<string, Json>, blocks: seq<Json>,
    framework: string, filename: Option<string>, frameworks: map<string, int>,
    renderedImports: string, excludeHeader: bool)

  predicate IsReferencedProperty(refs: Option<GenClass.References>, name: string)
  {
    GenClass.IsSetterReferenced(refs, name) || GenClass.IsGetterReferenced(refs, name)
  }

  /** A function is wrapped unless its name starts with `__` or the app never calls it. */
  predicate KeptFunction(refs: Option<GenClass.References>, f: Member)
  {
    !StartsWith(f.name, "__") && GenClass.IsFunctionReferenced(refs, f.name)
  }

  /** The static variables the app reads or writes, with their values. */
  function KeptStatics(refs: Option<GenClass.References>, vars: seq<(string, Json)>): (r: map<string, Json>)
    decreases |vars|
  {
    if vars == [] then map[]
    else
      var (name, v) := vars[|vars| - 1];
      var rest := KeptStatics(refs, vars[..|vars| - 1]);
      if IsReferencedProperty(refs, name) then rest[name := v] else rest
  }

  /** `list` with `code` added unless it is already there. */
  function AppendNew(list: seq<string>, code: string): (r: seq<string>)
    ensures code in list ==> r == list
    ensures code !in list ==> r == list + [code]
  {
    if code in list then list else list + [code]
  }

  /** The names of the wrapped functions and their Objective-C code, each code once. */
  function KeptFunctions(refs: Option<GenClass.References>, fns: seq<Member>): (r: (seq<string>, seq<string>))
    decreases |fns|
  {
    if fns == [] then ([], [])
    else
      var (names, codes) := KeptFunctions(refs, fns[..|fns| - 1]);
      var f := fns[|fns| - 1];
      if KeptFunction(refs, f) then (names + [f.name], AppendNew(codes, f.objcCode)) else (names, codes)
  }

  /** The names of the constants the app reads or writes, and their Objective-C getters. */
  function KeptVariables(refs: Option<GenClass.References>, vars: seq<Member>): (r: (seq<string>, seq<string>))
    decreases |vars|
    ensures |r.0| == |r.1|
  {
    if vars == [] then ([], [])
    else
      var (names, codes) := KeptVariables(refs, vars[..|vars| - 1]);
      var v := vars[|vars| - 1];
      if IsReferencedProperty(refs, v.name) then (names + [v.name], codes + [v.objcCode]) else (names, codes)
  }

  /**
   * `makeModule`: the referenced static variables, then the wrapped
   * functions (their Objective-C code without repeats), then the
   * referenced constants (their getters always appended).
   */
  method MakeModule(mod: ModuleMeta, refs: Option<GenClass.References>, imports: GenImports.Imports) returns (entry: ModuleEntry)
    ensures entry.name == mod.name && entry.framework == mod.framework && entry.filename == mod.filename
    ensures entry.blocks == mod.blocks && entry.frameworks == mod.frameworks && !entry.excludeHeader
    ensures entry.staticVariables == KeptStatics(refs, mod.staticVariables)
    ensures entry.classMethods == KeptFunctions(refs, mod.functions).0
    ensures entry.properties == KeptVariables(refs, mod.variables).0
    ensures entry.objcMethods == KeptFunctions(refs, mod.functions).1 + KeptVariables(refs, mod.variables).1
  {
    var statics: map<string, Json> := map[];
    var i := 0;
    while i < |mod.staticVariables|
      invariant 0 <= i <= |mod.staticVariables|
      invariant statics == KeptStatics(refs, mod.staticVariables[..i])
    {
      assert mod.staticVariables[..i + 1][..i] == mod.staticVariables[..i];
      var (name, v) := mod.staticVariables[i];
      if IsReferencedProperty(refs, name) {
        statics := statics[name := v];
      }
      i := i + 1;
    }
    assert mod.staticVariables[..i] == mod.staticVariables;
    var methods: seq<string> := [];
    var codes: seq<string> := [];
    i := 0;
    while i < |mod.functions|
      invariant 0 <= i <= |mod.functions|
      invariant (methods, codes) == KeptFunctions(refs, mod.functions[..i])
    {
      assert mod.functions[..i + 1][..i] == mod.functions[..i];
      var f := mod.functions[i];
      if !StartsWith(f.name, "__") && GenClass.IsFunctionReferenced(refs, f.name) {
        methods := methods + [f.name];
        if f.objcCode !in codes {
          codes := codes + [f.objcCode];
        }
      }
      i := i + 1;
    }
    assert mod.functions[..i] == mod.functions;
    var props: seq<string> := [];
    var getters: seq<string> := [];
    i := 0;
    while i < |mod.variables|
      invariant 0 <= i <= |mod.variables|
      invariant (props, getters) == KeptVariables(refs, mod.variables[..i])
    {
      assert mod.variables[..i + 1][..i] == mod.variables[..i];
      var v := mod.variables[i];
      if IsReferencedProperty(refs, v.name) {
        props := props + [v.name];
        getters := getters + [v.objcCode];
      }
      i := i + 1;
    }
    assert mod.variables[..i] == mod.variables;
    var rendered, _ := GenImports.MakeImports(imports);
    entry := ModuleEntry(mod.name, props, methods, codes + getters, statics, mod.blocks,
                         mod.framework, mod.filename, mod.frameworks, rendered, false);
  }

  /** A static variable is kept exactly when it is referenced, with its own value. */
  lemma {:induction false} KeptStaticsMember(refs: Option<GenClass.References>, vars: seq<(string, Json)>, name: string)
    requires forall i, j :: 0 <= i < j < |vars| ==> vars[i].0 != vars[j].0
    decreases |vars|
    ensures name in KeptStatics(refs, vars) <==> IsReferencedProperty(refs, name) && exists i :: 0 <= i < |vars| && vars[i].0 == name
    ensures forall i :: 0 <= i < |vars| && vars[i].0 == name && IsReferencedProperty(refs, name) ==> KeptStatics(refs, vars)[name] == vars[i].1
  {
    if vars != [] {
      var init := vars[..|vars| - 1];
      KeptStaticsMember(refs, init, name);
      forall i | 0 <= i < |init|
        ensures init[i] == vars[i]
      {
      }
    }
  }

  /** A function is wrapped exactly when it is called and its name does not start with `__`. */
  lemma {:induction false} KeptFunctionsMember(refs: Option<GenClass.References>, fns: seq<Member>, name: string)
    decreases |fns|
    ensures name in KeptFunctions(refs, fns).0 <==> exists i :: 0 <= i < |fns| && fns[i].name == name && KeptFunction(refs, fns[i])
  {
    if fns != [] {
      var init := fns[..|fns| - 1];
      KeptFunctionsMember(refs, init, name);
      forall i | 0 <= i < |init|
        ensures init[i] == fns[i]
      {
      }
    }
  }

  /** Adding a code only when it is new keeps the list free of repeats. */
  lemma AppendNewDistinct(list: seq<string>, code: string)
    requires forall i, j :: 0 <= i < j < |list| ==> list[i] != list[j]
    ensures forall i, j :: 0 <= i < j < |AppendNew(list, code)| ==> AppendNew(list, code)[i] != AppendNew(list, code)[j]
    ensures forall c :: c in AppendNew(list, code) <==> c in list || c == code
  {
  }

  /** The functions' Objective-C code lists each wrapped function's code exactly once. */
  lemma {:induction false} KeptFunctionCodes(refs: Option<GenClass.References>, fns: seq<Member>)
    decreases |fns|
    ensures forall i, j :: 0 <= i < j < |KeptFunctions(refs, fns).1| ==> KeptFunctions(refs, fns).1[i] != KeptFunctions(refs, fns).1[j]
    ensures forall c :: c in KeptFunctions(refs, fns).1 <==> exists i :: 0 <= i < |fns| && fns[i].objcCode == c && KeptFunction(refs, fns[i])
  {
    if fns != [] {
      var init := fns[..|fns| - 1];
      var f := fns[|fns| - 1];
      KeptFunctionCodes(refs, init);
      var codes := KeptFunctions(refs, init).1;
      var next := KeptFunctions(refs, fns).1;
      assert next == if KeptFunction(refs, f) then AppendNew(codes, f.objcCode) else codes;
      AppendNewDistinct(codes, f.objcCode);
      forall c
        ensures c in next <==> exists i :: 0 <= i < |fns| && fns[i].objcCode == c && KeptFunction(refs, fns[i])
      {
        if c in codes {
          var i :| 0 <= i < |init| && init[i].objcCode == c && KeptFunction(refs, init[i]);
          assert fns[i] == init[i];
        }
        if exists i :: 0 <= i < |fns| && fns[i].objcCode == c && KeptFunction(refs, fns[i]) {
          var i :| 0 <= i < |fns| && fns[i].objcCode == c && KeptFunction(refs, fns[i]);
          if i < |init| {
            assert init[i] == fns[i];
            assert c in codes;
          }
        }
      }
    }
  }

  /** A constant is kept exactly when it is referenced. */
  lemma {:induction false} KeptVariablesMember(refs: Option<GenClass.References>, vars: seq<Member>, name: string)
    decreases |vars|
    ensures name in KeptVariables(refs, vars).0 <==> exists i :: 0 <= i < |vars| && vars[i].name == name && IsReferencedProperty(refs, name)
  {
    if vars != [] {
      var init := vars[..|vars| - 1];
      KeptVariablesMember(refs, init, name);
      forall i | 0 <= i < |init|
        ensures init[i] == vars[i]
      {
      }
    }
  }

  // ---------------------------------------------------------------- generate

  /** Whether the module's class has anything to wrap (also `doesModuleNeedsNativeWrapper`). */
  predicate HasContent(m: ModuleEntry)
  {
    |m.properties| > 0 || |m.classMethods| > 0 || |m.objcMethods| > 0 || |m.staticVariables| > 0 || |m.blocks| > 0
  }

  /**
   * `generate`: nothing for a framework given by path or with custom
   * sources; otherwise the module, its header excluded when a class has
   * the module's name, and its framework marked when it has content.
   */
  method Generate(mod: ModuleMeta, refs: Option<GenClass.References>, classNames: set<string>, imports: GenImports.Imports)
    returns (r: Option<ModuleEntry>)
    ensures r.None? <==> '/' in mod.framework || mod.customSource
    ensures r.Some? ==> (r.value.excludeHeader <==> mod.name in classNames)
    ensures r.Some? ==> r.value.frameworks == if HasContent(r.value) then mod.frameworks[mod.framework := 1] else mod.frameworks
    ensures r.Some? ==> (r.value.classMethods == KeptFunctions(refs, mod.functions).0
      && r.value.properties == KeptVariables(refs, mod.variables).0
      && r.value.staticVariables == KeptStatics(refs, mod.staticVariables))
  {
    if '/' in mod.framework || mod.customSource {
      return None;
    }
    var m := MakeModule(mod, refs, imports);
    m := m.(excludeHeader := mod.name in classNames);
    if HasContent(m) {
      m := m.(frameworks := m.frameworks[mod.framework := 1]);
    }
    r := Some(m);
  }
}
