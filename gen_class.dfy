/**
 * Class wrappers (iphone/hooks/generate/class.js): the template data of a
 * class keeps the properties and methods the app's code references, in the
 * order of their sorted names, and names the class the way the runtime
 * looks it up.
 */
module GenClass {
  import opened Wrappers
  import opened Strs
  import opened Json
  import opened JsValues
  import Order
  import IosSwift
  import GenImports

  // ---------------------------------------------------------------- the parser state's references

  /** The names the app's code reads, writes and calls; a parser state without them references everything. */
  datatype References = References(getter: set<string>, setter: set<string>, functions: set<string>)

  /** `isGetterPropertyReferenced`. */
  predicate IsGetterReferenced(refs: Option<References>, k: string)
  {
    refs.None? || k in refs.value.getter
  }

  /** `isSetterPropertyReferenced`. */
  predicate IsSetterReferenced(refs: Option<References>, k: string)
  {
    refs.None? || k in refs.value.setter
  }

  /** `isFunctionReferenced`: called, or read as a property. */
  predicate IsFunctionReferenced(refs: Option<References>, k: string)
  {
    refs.None? || k in refs.value.functions || IsGetterReferenced(refs, k)
  }

  // ---------------------------------------------------------------- the class metadata

  datatype PropertyMeta = PropertyMeta(name: string, attributes: Option<seq<string>>)

  /** A method of the metabase; `framework` is the value the generator may fill in. */
  datatype MethodMeta = MethodMeta(name: string, instance: bool, framework: Option<Json>)

  datatype ClassMeta = ClassMeta(
    name: string, language: Option<string>, filename: Option<string>, framework: Option<Json>,
    superclass: Option<string>,
    properties: Option<map<string, PropertyMeta>>, methods: Option<map<string, MethodMeta>>)

  /** `isClassProperty`: the attributes list `class`. */
  predicate IsClassProperty(p: PropertyMeta)
  {
    p.attributes.Some? && "class" in p.attributes.value
  }

  /** A property the template gives no setter: one whose attributes list `readonly`. */
  predicate IsReadonly(p: PropertyMeta)
  {
    p.attributes.Some? && "readonly" in p.attributes.value
  }

  /** `shouldSkipMethodIfPropertyAvailable`: the class has a property under the method's key. */
  predicate ShouldSkipMethod(k: string, cls: ClassMeta)
  {
    cls.properties.Some? && k in cls.properties.value
  }

  /** `cls.framework + '-Swift.h'`, where a missing framework reads `undefined`. */
  function SwiftHeader(framework: Option<Json>): string
  {
    OptToString(framework) + "-Swift.h"
  }

  /**
   * `generateFullyQualifiedClassName`: a Swift class by its mangled name, a
   * class of a Swift module's Objective-C header as `Framework.Class`, any
   * other class by its own name.
   */
  function FullyQualifiedClassName(cls: ClassMeta, appName: string): (r: string)
    ensures cls.language != Some("swift") && cls.filename != Some(SwiftHeader(cls.framework)) ==> r == cls.name
    ensures cls.language != Some("swift") && cls.filename == Some(SwiftHeader(cls.framework)) ==>
      EndsWith(r, "." + cls.name) && r[..|r| - |cls.name| - 1] == OptToString(cls.framework)
  {
    if cls.language == Some("swift") then IosSwift.GenerateSwiftMangledClassName(appName, cls.name)
    else if cls.filename == Some(SwiftHeader(cls.framework)) then
      var r := OptToString(cls.framework) + "." + cls.name;
      assert r == OptToString(cls.framework) + ("." + cls.name);
      r
    else cls.name
  }

  /** The name of a Swift class demangles to the app's name and the class's name. */
  lemma SwiftClassNameDemangles(cls: ClassMeta, appName: string)
    requires cls.language == Some("swift")
    requires appName != [] && !IsDigit(appName[0])
    requires cls.name == [] || !IsDigit(cls.name[0])
    ensures IosSwift.DemangleClassName(FullyQualifiedClassName(cls, appName)) == Some((appName, cls.name))
  {
    IosSwift.MangledNameRoundTrip(appName, cls.name);
  }

  // ---------------------------------------------------------------- properties

  /** What the class file keeps of a property: whether it has a getter and a setter. */
  datatype PropEntry = PropEntry(name: string, getter: bool, setter: bool)

  /**
   * A referenced property's entry: the getter only if it is read, the
   * setter only if it is written and the template gave one; a property
   * left with neither is dropped.
   */
  function KeptProperty(refs: Option<References>, k: string, p: PropertyMeta): (r: Option<PropEntry>)
    ensures r.Some? <==> IsGetterReferenced(refs, k) || (IsSetterReferenced(refs, k) && !IsReadonly(p))
    ensures r.Some? ==> (r.value.name == p.name && (r.value.getter <==> IsGetterReferenced(refs, k))
      && (r.value.setter <==> IsSetterReferenced(refs, k) && !IsReadonly(p)))
  {
    if !IsGetterReferenced(refs, k) && !IsSetterReferenced(refs, k) then None
    else
      var getter := IsGetterReferenced(refs, k);
      var setter := IsSetterReferenced(refs, k) && !IsReadonly(p);
      if getter || setter then Some(PropEntry(p.name, getter, setter)) else None
  }

  /** The instance and the class properties kept from the keys `ks`, in order. */
  function PropertyLists(refs: Option<References>, props: map<string, PropertyMeta>, ks: seq<string>): (r: (seq<PropEntry>, seq<PropEntry>))
    requires forall i :: 0 <= i < |ks| ==> ks[i] in props
    decreases |ks|
  {
    if ks == [] then ([], [])
    else
      var (inst, cls) := PropertyLists(refs, props, ks[..|ks| - 1]);
      var k := ks[|ks| - 1];
      match KeptProperty(refs, k, props[k])
      case None => (inst, cls)
      case Some(e) => if IsClassProperty(props[k]) then (inst, cls + [e]) else (inst + [e], cls)
  }

  /** An entry is kept exactly for a key whose property is of its kind and referenced. */
  lemma {:induction false} PropertyListsMember(refs: Option<References>, props: map<string, PropertyMeta>, ks: seq<string>, e: PropEntry)
    requires forall i :: 0 <= i < |ks| ==> ks[i] in props
    decreases |ks|
    ensures e in PropertyLists(refs, props, ks).0 <==>
      exists i :: 0 <= i < |ks| && !IsClassProperty(props[ks[i]]) && KeptProperty(refs, ks[i], props[ks[i]]) == Some(e)
    ensures e in PropertyLists(refs, props, ks).1 <==>
      exists i :: 0 <= i < |ks| && IsClassProperty(props[ks[i]]) && KeptProperty(refs, ks[i], props[ks[i]]) == Some(e)
  {
    if ks != [] {
      var init := ks[..|ks| - 1];
      PropertyListsMember(refs, props, init, e);
      forall i | 0 <= i < |init|
        ensures init[i] == ks[i]
      {
      }
    }
  }

  // ---------------------------------------------------------------- methods

  /** A method without a framework takes its class's, in the metabase's own object. */
  function WithClassFramework(m: MethodMeta, cls: ClassMeta): (r: MethodMeta)
    ensures r.name == m.name && r.instance == m.instance
    ensures r.framework == if IsTruthyOpt(m.framework) then m.framework else cls.framework
  {
    if IsTruthyOpt(m.framework) then m else m.(framework := cls.framework)
  }

  /** A method is wrapped unless a property shares its key or the app never calls it. */
  predicate KeptMethod(refs: Option<References>, cls: ClassMeta, k: string, m: MethodMeta)
  {
    !ShouldSkipMethod(k, cls) && IsFunctionReferenced(refs, m.name)
  }

  /** The names of the instance and the class methods kept from the keys `ks`, in order. */
  function MethodLists(refs: Option<References>, cls: ClassMeta, methods: map<string, MethodMeta>, ks: seq<string>): (r: (seq<string>, seq<string>))
    requires forall i :: 0 <= i < |ks| ==> ks[i] in methods
    decreases |ks|
  {
    if ks == [] then ([], [])
    else
      var (inst, stat) := MethodLists(refs, cls, methods, ks[..|ks| - 1]);
      var k := ks[|ks| - 1];
      var m := methods[k];
      if !KeptMethod(refs, cls, k, m) then (inst, stat)
      else if m.instance then (inst + [m.name], stat)
      else (inst, stat + [m.name])
  }

  /** A name is listed exactly for a kept method of its kind. */
  lemma {:induction false} MethodListsMember(refs: Option<References>, cls: ClassMeta, methods: map<string, MethodMeta>, ks: seq<string>, name: string)
    requires forall i :: 0 <= i < |ks| ==> ks[i] in methods
    decreases |ks|
    ensures name in MethodLists(refs, cls, methods, ks).0 <==>
      exists i :: 0 <= i < |ks| && KeptMethod(refs, cls, ks[i], methods[ks[i]]) && methods[ks[i]].instance && methods[ks[i]].name == name
    ensures name in MethodLists(refs, cls, methods, ks).1 <==>
      exists i :: 0 <= i < |ks| && KeptMethod(refs, cls, ks[i], methods[ks[i]]) && !methods[ks[i]].instance && methods[ks[i]].name == name
  {
    if ks != [] {
      var init := ks[..|ks| - 1];
      MethodListsMember(refs, cls, methods, init, name);
      forall i | 0 <= i < |init|
        ensures init[i] == ks[i]
      {
      }
    }
  }

  // ---------------------------------------------------------------- makeClass

  /** The template data of a class file, with each template's output reduced to what it is generated for. */
  datatype ClassEntry = ClassEntry(
    name: string, fqcn: string,
    instanceProperties: seq<PropEntry>, classProperties: seq<PropEntry>,
    instanceMethods: seq<string>, classMethods: seq<string>,
    framework: Option<Json>, filename: Option<string>, superclass: Option<string>,
    renderedImports: string)

  function PropsOf(cls: ClassMeta): map<string, PropertyMeta>
  {
    if cls.properties.Some? then cls.properties.value else map[]
  }

  function MethodsOf(cls: ClassMeta): map<string, MethodMeta>
  {
    if cls.methods.Some? then cls.methods.value else map[]
  }

  /** Every method after the framework default is filled in. */
  function Defaulted(cls: ClassMeta): (r: map<string, MethodMeta>)
    ensures r.Keys == MethodsOf(cls).Keys
    ensures forall k :: k in r ==> r[k] == WithClassFramework(MethodsOf(cls)[k], cls)
  {
    map k | k in MethodsOf(cls) :: WithClassFramework(MethodsOf(cls)[k], cls)
  }

  /**
   * `makeClass`: properties and then methods, each in sorted key order;
   * every method first given its class's framework when it has none. The
   * import lines come from the classes and structs the templates collected
   * in `imports`. `classNames` are the metabase's classes, which the
   * superclass is looked up in.
   */
  method MakeClass(cls: ClassMeta, refs: Option<References>, appName: string, classNames: set<string>, imports: GenImports.Imports)
    returns (entry: ClassEntry, methods: map<string, MethodMeta>)
    ensures methods == Defaulted(cls)
    ensures entry.name == cls.name && entry.fqcn == FullyQualifiedClassName(cls, appName)
    ensures entry.framework == cls.framework && entry.filename == cls.filename
    ensures entry.superclass == if cls.superclass.Some? && cls.superclass.value != [] && cls.superclass.value in classNames then cls.superclass else None
    ensures (entry.instanceProperties, entry.classProperties) == PropertyLists(refs, PropsOf(cls), Order.SortedKeys(PropsOf(cls).Keys))
    ensures (entry.instanceMethods, entry.classMethods) == MethodLists(refs, cls, Defaulted(cls), Order.SortedKeys(MethodsOf(cls).Keys))
  {
    var props := PropsOf(cls);
    var pkeys := Order.SortKeys(props.Keys);
    var instP, classP := PropertiesLoop(refs, props, pkeys);
    methods := Defaulted(cls);
    var mkeys := Order.SortKeys(MethodsOf(cls).Keys);
    var instM, classM := MethodsLoop(refs, cls, methods, mkeys);
    var rendered, _ := GenImports.MakeImports(imports);
    var superclass := if cls.superclass.Some? && cls.superclass.value != [] && cls.superclass.value in classNames then cls.superclass else None;
    entry := ClassEntry(cls.name, FullyQualifiedClassName(cls, appName), instP, classP, instM, classM,
                        cls.framework, cls.filename, superclass, rendered);
  }

  /** The property loop of `makeClass`. */
  method PropertiesLoop(refs: Option<References>, props: map<string, PropertyMeta>, ks: seq<string>)
    returns (inst: seq<PropEntry>, stat: seq<PropEntry>)
    requires forall i :: 0 <= i < |ks| ==> ks[i] in props
    ensures (inst, stat) == PropertyLists(refs, props, ks)
  {
    inst, stat := [], [];
    var i := 0;
    while i < |ks|
      invariant 0 <= i <= |ks|
      invariant (inst, stat) == PropertyLists(refs, props, ks[..i])
    {
      assert ks[..i + 1][..i] == ks[..i];
      var k := ks[i];
      var p := props[k];
      if IsGetterReferenced(refs, k) || IsSetterReferenced(refs, k) {
        var getter := IsGetterReferenced(refs, k);
        var setter := IsSetterReferenced(refs, k) && !IsReadonly(p);
        if getter || setter {
          if IsClassProperty(p) {
            stat := stat + [PropEntry(p.name, getter, setter)];
          } else {
            inst := inst + [PropEntry(p.name, getter, setter)];
          }
        }
      }
      i := i + 1;
    }
    assert ks[..i] == ks;
  }

  /** The method loop of `makeClass`. */
  method MethodsLoop(refs: Option<References>, cls: ClassMeta, methods: map<string, MethodMeta>, ks: seq<string>)
    returns (inst: seq<string>, stat: seq<string>)
    requires forall i :: 0 <= i < |ks| ==> ks[i] in methods
    ensures (inst, stat) == MethodLists(refs, cls, methods, ks)
  {
    inst, stat := [], [];
    var i := 0;
    while i < |ks|
      invariant 0 <= i <= |ks|
      invariant (inst, stat) == MethodLists(refs, cls, methods, ks[..i])
    {
      assert ks[..i + 1][..i] == ks[..i];
      var k := ks[i];
      var m := methods[k];
      if !ShouldSkipMethod(k, cls) && IsFunctionReferenced(refs, m.name) {
        if m.instance {
          inst := inst + [m.name];
        } else {
          stat := stat + [m.name];
        }
      }
      i := i + 1;
    }
    assert ks[..i] == ks;
  }

  /** The class's instance properties are exactly its referenced properties that are not class properties. */
  lemma MakeClassProperties(cls: ClassMeta, refs: Option<References>, e: PropEntry)
    ensures var ks := Order.SortedKeys(PropsOf(cls).Keys);
      e in PropertyLists(refs, PropsOf(cls), ks).0 <==>
        exists k :: k in PropsOf(cls) && !IsClassProperty(PropsOf(cls)[k]) && KeptProperty(refs, k, PropsOf(cls)[k]) == Some(e)
  {
    var props := PropsOf(cls);
    var ks := Order.SortedKeys(props.Keys);
    PropertyListsMember(refs, props, ks, e);
    if exists k :: k in props && !IsClassProperty(props[k]) && KeptProperty(refs, k, props[k]) == Some(e) {
      var k :| k in props && !IsClassProperty(props[k]) && KeptProperty(refs, k, props[k]) == Some(e);
      var i :| 0 <= i < |ks| && ks[i] == k;
    }
  }

  /**
   * The class's instance methods are exactly its called instance methods
   * whose key names no property: a method shadowed by a property is never wrapped.
   */
  lemma MakeClassMethods(cls: ClassMeta, refs: Option<References>, name: string)
    ensures var ks := Order.SortedKeys(MethodsOf(cls).Keys);
      name in MethodLists(refs, cls, Defaulted(cls), ks).0 <==>
        exists k :: k in MethodsOf(cls) && !ShouldSkipMethod(k, cls) && IsFunctionReferenced(refs, MethodsOf(cls)[k].name)
          && MethodsOf(cls)[k].instance && MethodsOf(cls)[k].name == name
  {
    var ms := Defaulted(cls);
    var mks := Order.SortedKeys(MethodsOf(cls).Keys);
    MethodListsMember(refs, cls, ms, mks, name);
    if exists k :: k in MethodsOf(cls) && !ShouldSkipMethod(k, cls) && IsFunctionReferenced(refs, MethodsOf(cls)[k].name)
          && MethodsOf(cls)[k].instance && MethodsOf(cls)[k].name == name {
      var k :| k in MethodsOf(cls) && !ShouldSkipMethod(k, cls) && IsFunctionReferenced(refs, MethodsOf(cls)[k].name)
          && MethodsOf(cls)[k].instance && MethodsOf(cls)[k].name == name;
      var i :| 0 <= i < |mks| && mks[i] == k;
      assert KeptMethod(refs, cls, mks[i], ms[mks[i]]);
    }
  }

  /** Without references in the parser state every property keeps its getter and every method is wrapped. */
  lemma NoReferencesKeepsAll(cls: ClassMeta, k: string, p: PropertyMeta, m: MethodMeta)
    requires !ShouldSkipMethod(k, cls)
    ensures KeptProperty(None, k, p) == Some(PropEntry(p.name, true, !IsReadonly(p)))
    ensures KeptMethod(None, cls, k, m)
  {
  }

  // ---------------------------------------------------------------- as written

  /** The names the utility module exports. */
  const UtilExports: set<string> := {
    "repeat", "generateProp", "generateSetterSelector", "generateArgList", "setLog", "getObjCReturnResult",
    "getProtocolClass", "isProtocol", "isObjectType", "generateSafeSymbol", "generateObjCValue", "camelCase",
    "toValueDefault", "isPrimitive", "getPrimitiveValue", "getMethodTableForMigration", "getResultWrapper",
    "getStructNameFromEncoding", "logger"
  }

  /** `util[name](...)`: a TypeError unless the utility module exports `name`. */
  function UtilCall(name: string): (r: Result<()>)
    ensures r.Ok? <==> name in UtilExports
    ensures r.Err? ==> r.error == TypeError
  {
    if name in UtilExports then Ok(()) else Err(TypeError)
  }

  /**
   * `makeClass` as written: once the lists are built it calls
   * `util.makeImports`, though the import lines live in imports.js. The
   * generators it calls for a referenced class property, instance method or
   * class method (`generateClassProperty`, `generateInstanceMethod`,
   * `generateClassMethod`) are missing from util.js as well: see
   * `GeneratorsMissing`.
   */
  function MakeClassAsWritten(entry: ClassEntry): (r: Result<ClassEntry>)
    ensures r.Ok? ==> r.value == entry
  {
    match UtilCall("makeImports")
    case Err(e) => Err(e)
    case Ok(_) => Ok(entry)
  }

  /** As written every class fails with a TypeError, whatever it holds. */
  lemma MakeClassAlwaysFails(entry: ClassEntry)
    ensures MakeClassAsWritten(entry) == Err(TypeError)
  {
    assert "makeImports" !in UtilExports;
  }

  /**
   * The property and method generators `makeClass` calls are not exported
   * either, so a class with a referenced class property or a referenced
   * method fails there, before it reaches `makeImports`.
   */
  lemma GeneratorsMissing()
    ensures UtilCall("generateClassProperty") == Err(TypeError)
    ensures UtilCall("generateInstanceMethod") == Err(TypeError)
    ensures UtilCall("generateClassMethod") == Err(TypeError)
  {
  }
}
