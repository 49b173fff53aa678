/**
 * The definitions of the metabase generator (def.cpp): a `Type` (tag,
 * value, encoding), a named `Argument`, and the shared part of every
 * `Definition` (name, location, introducedIn) with its JSON base fields.
 * Definitions are objects the parse tree points to and later updates; the
 * model keeps them in an arena (`seq<Def>`) and a pointer is an index into
 * it (`DefId`), with `None` standing for the null pointer `operator[]`
 * inserts.
 */
module Defs {
  import opened Wrappers
  import opened Strs
  import opened MetabaseUtil
  import opened Encoding
  import opened Json
  import opened Clang

  // ------------------------------------------------------------------ Type

  /** A `Type`: its tag (`type`), its value and its encoding. */
  datatype TypeInfo = TypeInfo(tag: string, value: string, encoding: string)

  /** `CleanStringKeepsClean` without its precondition. */
  lemma CleanIsIdentityOnClean(s: string)
    ensures IsTrimmed(s) && HasNoQualifierPattern(s) ==> CleanString(s) == s
  {
    if IsTrimmed(s) && HasNoQualifierPattern(s) {
      CleanStringKeepsClean(s);
    }
  }

  /** The fixed tags the generator assigns are their own cleaning. */
  lemma CleanTagWords(s: string)
    requires s in {"struct", "union"}
    ensures CleanString(s) == s
  {
    assert forall k :: 0 <= k < |s| ==> IsLetter(s[k]);
    CleanStringOfWord(s);
  }

  /** `Type(ctx, type, value, encoding)`: tag and value pass through `setType` / `setValue`. */
  function MakeType(tag: string, value: string, encoding: string): (r: TypeInfo)
    ensures IsTrimmed(r.tag) && IsTrimmed(r.value) && r.encoding == encoding
    ensures IsTrimmed(tag) && HasNoQualifierPattern(tag) ==> r.tag == tag
    ensures IsTrimmed(value) && HasNoQualifierPattern(value) ==> r.value == value
  {
    CleanIsIdentityOnClean(tag);
    CleanIsIdentityOnClean(value);
    TypeInfo(CleanString(tag), CleanString(value), encoding)
  }

  /** `setType`: the tag replaced by the cleaned input, nothing else changed. */
  function SetTag(t: TypeInfo, tag: string): (r: TypeInfo)
    ensures IsTrimmed(r.tag) && |r.tag| <= |tag|
    ensures r.value == t.value && r.encoding == t.encoding
    ensures IsTrimmed(tag) && HasNoQualifierPattern(tag) ==> r.tag == tag
  {
    CleanIsIdentityOnClean(tag);
    t.(tag := CleanString(tag))
  }

  /** `setValue`: the value replaced by the cleaned input, nothing else changed. */
  function SetValue(t: TypeInfo, value: string): (r: TypeInfo)
    ensures IsTrimmed(r.value) && |r.value| <= |value|
    ensures r.tag == t.tag && r.encoding == t.encoding
    ensures IsTrimmed(value) && HasNoQualifierPattern(value) ==> r.value == value
  {
    CleanIsIdentityOnClean(value);
    t.(value := CleanString(value))
  }

  /** `Type::toJSON`. */
  function TypeToJSON(t: TypeInfo): (r: map<string, Json>)
    ensures r.Keys == {"type", "value", "encoding"}
    ensures TypeFromJSON(r) == t
  {
    map["type" := JStr(t.tag), "value" := JStr(t.value), "encoding" := JStr(t.encoding)]
  }

  /** The three members of a serialised `Type`, read back. */
  function TypeFromJSON(kv: map<string, Json>): (r: TypeInfo)
    ensures r.tag == StrAt(kv, "type") && r.value == StrAt(kv, "value") && r.encoding == StrAt(kv, "encoding")
  {
    TypeInfo(StrAt(kv, "type"), StrAt(kv, "value"), StrAt(kv, "encoding"))
  }

  /** One name-keyed map of the parse tree; `None` is a null pointer. */
  type Registry = map<string, Option<nat>>

  /** `hasStruct` and its siblings: false for an empty name, otherwise membership. */
  predicate HasName(m: Registry, name: string)
  {
    name != [] && m != map[] && name in m
  }

  /** The type a typedef or an elaborated type stands for, as lines 80-87 of def.cpp resolve it. */
  function Resolve(t: CXType): (r: CXType)
    ensures t.kind != Typedef && t.kind != Elaborated ==> r == t
  {
    var u := if t.kind == Typedef then Target(t) else t;
    if u.kind == Elaborated then Target(u) else u
  }

  /** The two-argument `ltrim(s, "_")`: leading underscores removed. */
  function TrimUnderscores(s: string): (r: string)
    ensures |r| <= |s| && r == s[|s| - |r|..]
    ensures r == [] || r[0] != '_'
    ensures forall k :: 0 <= k < |s| - |r| ==> s[k] == '_'
  {
    if s != [] && s[0] == '_' then TrimUnderscores(s[1..]) else s
  }

  /**
   * Lines 99-108 of def.cpp: a "record" whose value names a struct
   * ("struct _Foo") that the registry knows under the name without
   * "struct " and leading underscores becomes that struct.
   */
  function RecordAsStruct(t: TypeInfo, structs: Registry): (r: TypeInfo)
    ensures r.encoding == t.encoding
    ensures r == t || (t.tag == "record" && r.tag == "struct" && HasName(structs, r.value) && r.value[0] != '_')
    ensures structs == map[] ==> r == t
    ensures IsTrimmed(t.tag) ==> IsTrimmed(r.tag)
  {
    if t.tag == "record" && Contains(t.value, "struct ") then
      var name := StructKey(t.value);
      if HasName(structs, name) then t.(tag := "struct", value := name) else t
    else t
  }

  /** The registry key a record's spelling names: without "struct " and leading underscores. */
  function StructKey(value: string): (r: string)
    ensures r == [] || r[0] != '_'
  {
    TrimUnderscores(Replaced(value, "struct ", ""))
  }

  /**
   * `Type(CXType)`: the "instancetype" typedef is kept as a marker (and
   * gets no encoding); any other type is resolved, tagged with
   * `CXTypeToType`, its spelling stripped of template arguments unless it
   * is a block, its encoding taken from the front end, an "unexposed" tag
   * re-derived from that encoding, and a known struct record renamed. The
   * re-derivation throws for the encoding "r", which is the error case.
   */
  function TypeOfCXType(t: CXType, structs: Registry): (r: Result<TypeInfo>)
    ensures t.kind == Typedef && t.spelling == "instancetype" ==>
              r == Ok(MakeType(CXTypeToType(Typedef), "instancetype", []))
    ensures !(t.kind == Typedef && t.spelling == "instancetype") ==> r == TypeOfResolved(Resolve(t), structs)
  {
    if t.kind == Typedef && t.spelling == "instancetype" then
      Ok(MakeType(CXTypeToType(t.kind), t.spelling, []))
    else TypeOfResolved(Resolve(t), structs)
  }

  /** Lines 88-108 of def.cpp, on the resolved type. */
  function TypeOfResolved(u: CXType, structs: Registry): (r: Result<TypeInfo>)
    ensures r.Err? <==> CleanString(CXTypeToType(u.kind)) == "unexposed" && u.objcEncoding == "r"
    ensures r.Ok? ==> r.value.encoding == u.objcEncoding && IsTrimmed(r.value.tag)
  {
    var tag := CleanString(CXTypeToType(u.kind));
    var value := CleanString(if tag != "block" then u.templateFree else u.spelling);
    var ty := TypeInfo(tag, value, u.objcEncoding);
    if tag == "unexposed" then
      match EncodingToType(u.objcEncoding)
      case Err(e) => Err(e)
      case Ok(derived) => Ok(RecordAsStruct(SetTag(ty, derived), structs))
    else Ok(RecordAsStruct(ty, structs))
  }

  /** A typedef other than "instancetype" is replaced by its canonical type. */
  lemma TypedefIsTransparent(t: CXType, structs: Registry)
    requires t.kind == Typedef && t.spelling != "instancetype"
    requires Target(t).kind != Typedef && Target(t).kind != Elaborated
    ensures TypeOfCXType(t, structs) == TypeOfCXType(Target(t), structs)
  {
    assert Resolve(t) == Target(t);
  }

  /** An elaborated type is replaced by its named type. */
  lemma ElaboratedIsTransparent(t: CXType, structs: Registry)
    requires t.kind == Elaborated
    requires Target(t).kind != Typedef && Target(t).kind != Elaborated
    ensures TypeOfCXType(t, structs) == TypeOfCXType(Target(t), structs)
  {
    assert Resolve(t) == Target(t);
  }

  /** The value is the cleaned template-free spelling, except for a block, which keeps its full spelling. */
  lemma TypeOfResolvedValue(u: CXType, structs: Registry)
    requires TypeOfResolved(u, structs).Ok? && structs == map[]
    ensures var tag := CleanString(CXTypeToType(u.kind));
            TypeOfResolved(u, structs).value.value ==
              CleanString(if tag == "block" then u.spelling else u.templateFree)
  {
  }

  /**
   * `Type(CXCursor)`: the type of the resolved cursor type, and, for a
   * typedef that resolved to a record, the typedef's own name if the
   * registry knows it as a struct, then (independently) the value without
   * "struct " if the registry knows that.
   */
  function TypeOfCursor(c: Cursor, structs: Registry): (r: Result<TypeInfo>)
    ensures r.Err? <==> TypeOfCXType(c.resolvedType, structs).Err?
    ensures r.Ok? ==> r.value.encoding == TypeOfCXType(c.resolvedType, structs).value.encoding
    ensures r.Ok? && r.value != TypeOfCXType(c.resolvedType, structs).value ==>
              r.value.tag == "struct" && HasName(structs, r.value.value)
    ensures structs == map[] ==> r == TypeOfCXType(c.resolvedType, structs)
  {
    var u := c.resolvedType;
    match TypeOfCXType(u, structs)
    case Err(e) => Err(e)
    case Ok(t) =>
      if u.kind == Typedef && t.tag == "record" then
        var typedefName := CleanString(u.spelling);
        var t1 := if HasName(structs, typedefName) then t.(tag := "struct", value := typedefName) else t;
        if Contains(t1.value, "struct ") then
          var structName := Replaced(t1.value, "struct ", "");
          Ok(if HasName(structs, structName) then t1.(tag := "struct", value := structName) else t1)
        else Ok(t1)
      else Ok(t)
  }

  // -------------------------------------------------------------- Argument

  /** A named, typed argument or field. */
  datatype Argument = Argument(name: string, ty: TypeInfo)

  /** `Argument::toJSON`: name, tag, cleaned value and encoding. */
  function ArgumentToJSON(a: Argument): (r: map<string, Json>)
    ensures r.Keys == {"name", "type", "value", "encoding"}
    ensures IsTrimmed(StrAt(r, "value"))
  {
    map["name" := JStr(a.name), "type" := JStr(a.ty.tag), "value" := JStr(CleanString(a.ty.value)),
        "encoding" := JStr(a.ty.encoding)]
  }

  /** The argument a serialised argument describes. */
  function ArgumentFromJSON(kv: map<string, Json>): (r: Argument)
  {
    Argument(StrAt(kv, "name"), TypeFromJSON(kv))
  }

  /** Serialising an argument loses nothing when its value is already clean. */
  lemma ArgumentRoundTrip(a: Argument)
    requires IsTrimmed(a.ty.value) && HasNoQualifierPattern(a.ty.value)
    ensures ArgumentFromJSON(ArgumentToJSON(a)) == a
  {
    CleanStringKeepsClean(a.ty.value);
  }

  /** `Arguments::toJSON`: one object per argument in order; no arguments give an empty array, never null. */
  function ArgumentsToJSON(args: seq<Argument>): (r: Json)
    ensures r.JArr? && |r.items| == |args|
    ensures forall i :: 0 <= i < |args| ==> r.items[i] == JObj(ArgumentToJSON(args[i]))
  {
    JArr(seq(|args|, i requires 0 <= i < |args| => JObj(ArgumentToJSON(args[i]))))
  }

  // ------------------------------------------------------------ Definition

  /** `setIntroducedIn`: "Major.Minor.Subminor". */
  function IntroducedIn(v: Version): (r: string)
  {
    IntToString(v.major) + "." + IntToString(v.minor) + "." + IntToString(v.subminor)
  }

  /** A number's decimal text has no '.'. */
  lemma IntToStringHasNoDot(n: int)
    ensures '.' !in IntToString(n)
  {
    var s := IntToString(n);
    if n < 0 {
      assert s == "-" + NatToString(-n);
      assert forall k :: 1 <= k < |s| ==> s[k] == NatToString(-n)[k - 1];
    }
  }

  /** The version string splits back into its three numbers. */
  lemma IntroducedInSplits(v: Version)
    ensures Split(IntroducedIn(v), ".") == [IntToString(v.major), IntToString(v.minor), IntToString(v.subminor)]
  {
    IntToStringHasNoDot(v.major);
    IntToStringHasNoDot(v.minor);
    IntToStringHasNoDot(v.subminor);
    SplitThree(IntToString(v.major), IntToString(v.minor), IntToString(v.subminor), '.');
  }

  /** Splitting "a.b.c" on '.' when none of the parts holds '.'. */
  lemma SplitThree(a: string, b: string, c: string, d: char)
    requires d !in a && d !in b && d !in c
    ensures Split(a + [d] + b + [d] + c, [d]) == [a, b, c]
  {
    var s := a + [d] + b + [d] + c;
    var i1, i2 := |a|, |a| + 1 + |b|;
    assert s[0..i1] == a;
    assert s[i1] == d;
    assert s[i1 + 1..i2] == b;
    assert s[i2] == d;
    assert s[i2 + 1..] == c;
    SplitAtTwo(s, d, i1, i2);
  }

  /** Splitting on '.' with exactly two of them, at `i1` and `i2`. */
  lemma SplitAtTwo(s: string, d: char, i1: nat, i2: nat)
    requires i1 < i2 < |s| && s[i1] == d && s[i2] == d
    requires d !in s[0..i1] && d !in s[i1 + 1..i2] && d !in s[i2 + 1..]
    ensures Split(s, [d]) == [s[0..i1], s[i1 + 1..i2], s[i2 + 1..]]
  {
    SplitOnCharEnd(s, d, i2 + 1);
    var last := SplitFrom(s, [d], i2 + 1);
    assert last == [s[i2 + 1..]];
    SplitOnChar(s, d, i1 + 1, i2);
    var middle := SplitFrom(s, [d], i1 + 1);
    assert middle == [s[i1 + 1..i2]] + last;
    SplitOnChar(s, d, 0, i1);
    assert SplitFrom(s, [d], 0) == [s[0..i1]] + middle;
  }

  /** A one-character search stops at the first occurrence. */
  lemma FindFromCharAt(s: string, d: char, start: nat, i: nat)
    requires start <= i < |s| && s[i] == d && d !in s[start..i]
    ensures FindFrom(s, [d], start) == Some(i)
  {
    FindFromChar(s, d, start);
    assert s[i..i + 1] == [d];
    var f := FindFrom(s, [d], start);
  }

  /** One step of `SplitFrom` on a one-character delimiter. */
  lemma SplitOnChar(s: string, d: char, start: nat, i: nat)
    requires start <= i < |s| && s[i] == d && d !in s[start..i]
    ensures SplitFrom(s, [d], start) == [s[start..i]] + SplitFrom(s, [d], i + 1)
  {
    FindFromCharAt(s, d, start, i);
  }

  /** The last step of `SplitFrom` on a one-character delimiter. */
  lemma SplitOnCharEnd(s: string, d: char, start: nat)
    requires start <= |s| && d !in s[start..]
    ensures SplitFrom(s, [d], start) == [s[start..]]
  {
    FindFromChar(s, d, start);
  }

  /**
   * `getFramework` and `getFrameworkName`: the path segment between the
   * last '/' before the first ".framework" and that ".framework", or the
   * whole filename without the marker. `find_last_of` returning npos makes
   * the segment start at 0, since npos + 1 wraps to 0.
   */
  function FrameworkOf(filename: string): (r: string)
    ensures Find(filename, ".framework").None? ==> r == filename
    ensures Find(filename, ".framework").Some? ==>
              var pos := Find(filename, ".framework").value;
              |r| <= pos && r == filename[pos - |r|..pos] && '/' !in r
              && (pos - |r| == 0 || filename[pos - |r| - 1] == '/')
  {
    match Find(filename, ".framework")
    case None => filename
    case Some(pos) =>
      match LastIndexOfUpTo(filename, '/', pos)
      case Some(q) => assert filename[pos..pos + 10][0] == '.'; filename[q + 1..pos]
      case None => filename[..pos]
  }

  /** `isSystemLocation`: under /usr/include/ or /usr/lib/. */
  predicate IsSystemLocation(location: string)
  {
    Contains(location, "/usr/include/") || Contains(location, "/usr/lib/")
  }

  /** The per-kind part of a definition. */
  datatype Body =
    | ClassBody(json: map<string, Json>)   // class.cpp is not part of this model: its output is given
    | VarBody(json: map<string, Json>)     // var.cpp is not part of this model: its output is given
    | UnionBody(json: map<string, Json>)   // union.cpp is not part of this model: its output is given
    | TypedefBody(ty: Option<TypeInfo>)
    | EnumBody(values: map<string, int>)
    | StructBody(ty: Option<TypeInfo>, fields: seq<Argument>)
    | FunctionBody(ret: Option<TypeInfo>, args: seq<Argument>, variadic: bool)
    | BlockBody(signature: string, ret: Option<TypeInfo>, args: seq<Argument>)

  /**
   * A `Definition`: its name, the location current when it was created,
   * its introducedIn string, the encoding its `getEncoding` reports, and
   * its per-kind part.
   */
  datatype Def = Def(name: string, filename: string, line: string, introducedIn: string, encoding: string, body: Body)

  /** `toJSONBase`. */
  function ToJSONBase(d: Def): (r: map<string, Json>)
    ensures r.Keys == {"name", "framework", "thirdparty", "filename", "line", "introducedIn"}
    ensures r["thirdparty"] == JBool(!IsSystemLocation(d.filename))
    ensures StrAt(r, "framework") == FrameworkOf(d.filename)
    ensures StrAt(r, "name") == d.name && StrAt(r, "filename") == d.filename && StrAt(r, "line") == d.line
  {
    map["name" := JStr(d.name), "framework" := JStr(FrameworkOf(d.filename)),
        "thirdparty" := JBool(!IsSystemLocation(d.filename)), "filename" := JStr(d.filename),
        "line" := JStr(d.line), "introducedIn" := JStr(d.introducedIn)]
  }

  // ------------------------------------------------------------------ Tree

  /**
   * What the parse tree holds at one moment: one registry per kind,
   * blocks by name and then signature, and the definitions the registries
   * point to.
   */
  datatype Tree = Tree(
    classes: Registry, extensions: Registry, protocols: Registry, types: Registry, enums: Registry,
    vars: Registry, functions: Registry, structs: Registry, unions: Registry,
    blocks: map<string, Registry>, store: seq<Def>)

  /** Every non-null pointer of `m` is below `n`. */
  predicate PointsInto(m: Registry, n: nat)
  {
    forall k :: k in m && m[k].Some? ==> m[k].value < n
  }

  /** Every pointer of the tree designates a definition. */
  predicate ValidTree(t: Tree)
  {
    var n := |t.store|;
    PointsInto(t.classes, n) && PointsInto(t.extensions, n) && PointsInto(t.protocols, n)
    && PointsInto(t.types, n) && PointsInto(t.enums, n) && PointsInto(t.vars, n)
    && PointsInto(t.functions, n) && PointsInto(t.structs, n) && PointsInto(t.unions, n)
    && (forall name :: name in t.blocks ==> PointsInto(t.blocks[name], n))
    && (forall k :: k in t.structs && t.structs[k].Some? && t.structs[k].value < n ==> t.store[t.structs[k].value].body.StructBody?)
    && (forall k :: k in t.types && t.types[k].Some? && t.types[k].value < n ==> t.store[t.types[k].value].body.TypedefBody?)
  }

  /** Renaming a definition keeps every pointer valid. */
  lemma ValidTreeRenamed(t: Tree, p: nat, name: string)
    requires ValidTree(t) && p < |t.store|
    ensures ValidTree(t.(store := t.store[p := t.store[p].(name := name)]))
  {
  }

  /** A struct registered under a key keeps every pointer valid. */
  lemma ValidTreeStructAdded(t: Tree, key: string, p: nat)
    requires ValidTree(t) && p < |t.store| && t.store[p].body.StructBody?
    ensures ValidTree(t.(structs := t.structs[key := Some(p)]))
  {
  }
}
