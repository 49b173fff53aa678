/**
 * The per-kind `toJSON` of the metabase generator's definitions
 * (typedef.cpp, struct.cpp, enum.cpp, property.cpp, method.cpp,
 * function.cpp, BlockParser.cpp and block.cpp), and the return-type
 * extraction of block signatures.
 *
 * A serialiser that calls `resolveEncoding` or `CXTypeUnknownToEncoding`
 * may rewrite definitions behind the tree's pointers, so it receives the
 * tree and hands back the tree as it left it.
 */
module Kinds {
  import opened Wrappers
  import opened Strs
  import opened MetabaseUtil
  import opened Encoding
  import opened Json
  import opened Defs
  import opened Resolve
  import opened ResolveJson

  /** A serialised definition and the tree as its lookups left it. */
  datatype Emitted = Emitted(kv: map<string, Json>, tree: Tree)

  /** Tree updates that keep the registries compose. */
  lemma SameRegistriesTransitive(a: Tree, b: Tree, c: Tree)
    requires SameRegistries(a, b) && SameRegistries(b, c)
    ensures SameRegistries(a, c)
  {
  }

  // ------------------------------------------------ resolveEncoding on lists

  /**
   * `b` is `a` once `resolveEncoding(tree, a, "type", "value")` has patched
   * it: the three members exist, and every other member is untouched.
   */
  predicate ResolvedFrom(a: map<string, Json>, b: map<string, Json>)
  {
    b.Keys == a.Keys + {"type", "value", "encoding"}
    && forall k :: k in a && k != "type" && k != "encoding" ==> b[k] == a[k]
  }

  /** What the resolver's own contract gives for the keys "type" and "value". */
  lemma ResolveEncodingResolvedFrom(tree: Tree, kv: map<string, Json>)
    requires ValidTree(tree) && ResolveEncoding(tree, kv, "type", "value").Ok?
    ensures ResolvedFrom(kv, ResolveEncoding(tree, kv, "type", "value").value.kv)
    ensures SameRegistries(tree, ResolveEncoding(tree, kv, "type", "value").value.tree)
  {
  }

  /** A type-and-value resolver that behaves as `resolveEncoding` promises. */
  ghost predicate IsResolver(f: (Tree, map<string, Json>) --> Result<Resolved>)
  {
    forall t, kv :: ValidTree(t) ==>
      f.requires(t, kv)
      && (f(t, kv).Ok? ==> SameRegistries(t, f(t, kv).value.tree) && ResolvedFrom(kv, f(t, kv).value.kv))
  }

  /**
   * `resolveEncoding(tree, kv, "type", "value")` as a value, so that the
   * list code below reasons about it through `IsResolver` alone.
   */
  function Resolver(): (f: (Tree, map<string, Json>) --> Result<Resolved>)
  {
    (t: Tree, kv: map<string, Json>) requires ValidTree(t) => ResolveEncoding(t, kv, "type", "value")
  }

  /** `Resolver` is `resolveEncoding` and keeps its promises. */
  lemma ResolverIsResolveEncoding()
    ensures IsResolver(Resolver())
    ensures forall t, kv :: ValidTree(t) ==> Resolver()(t, kv) == ResolveEncoding(t, kv, "type", "value")
  {
    forall t, kv | ValidTree(t) && ResolveEncoding(t, kv, "type", "value").Ok?
      ensures ResolvedFrom(kv, ResolveEncoding(t, kv, "type", "value").value.kv)
      ensures SameRegistries(t, ResolveEncoding(t, kv, "type", "value").value.tree)
    {
      ResolveEncodingResolvedFrom(t, kv);
    }
  }

  /** The objects of a list after the resolver has run on each in turn. */
  function ResolveEach(f: (Tree, map<string, Json>) --> Result<Resolved>, tree: Tree, items: seq<map<string, Json>>)
    : (r: Result<(seq<map<string, Json>>, Tree)>)
    requires IsResolver(f) && ValidTree(tree)
    ensures r.Ok? ==> |r.value.0| == |items| && SameRegistries(tree, r.value.1)
    ensures r.Ok? ==> forall i :: 0 <= i < |items| ==> ResolvedFrom(items[i], r.value.0[i])
  {
    if items == [] then Ok(([], tree))
    else
      match ResolveEach(f, tree, items[..|items| - 1])
      case Err(e) => Err(e)
      case Ok(done) =>
        var last := items[|items| - 1];
        match f(done.1, last)
        case Err(e) => Err(e)
        case Ok(x) =>
          SameRegistriesTransitive(tree, done.1, x.tree);
          Ok((done.0 + [x.kv], x.tree))
  }

  /** Once a prefix fails, the whole list fails with the same error. */
  lemma {:induction false} ResolveEachPrefixErr(f: (Tree, map<string, Json>) --> Result<Resolved>, tree: Tree,
                                                items: seq<map<string, Json>>, j: nat, e: string)
    requires IsResolver(f) && ValidTree(tree) && j <= |items| && ResolveEach(f, tree, items[..j]) == Err(e)
    ensures ResolveEach(f, tree, items) == Err(e)
    decreases |items| - j
  {
    if j < |items| {
      assert items[..j + 1][..j] == items[..j];
      ResolveEachPrefixErr(f, tree, items, j + 1, e);
    } else {
      assert items[..j] == items;
    }
  }

  /** One more item: the resolver runs on it in the tree the prefix left. */
  lemma ResolveEachStep(f: (Tree, map<string, Json>) --> Result<Resolved>, tree: Tree, items: seq<map<string, Json>>,
                        i: nat, done: seq<map<string, Json>>, t: Tree)
    requires IsResolver(f) && ValidTree(tree) && i < |items|
    requires ResolveEach(f, tree, items[..i]) == Ok((done, t))
    ensures ValidTree(t) && f.requires(t, items[i])
    ensures f(t, items[i]).Err? ==> ResolveEach(f, tree, items[..i + 1]) == Err(f(t, items[i]).error)
    ensures f(t, items[i]).Ok? ==>
              ResolveEach(f, tree, items[..i + 1]) == Ok((done + [f(t, items[i]).value.kv], f(t, items[i]).value.tree))
  {
    var pre := items[..i + 1];
    assert pre[..|pre| - 1] == items[..i] && pre[|pre| - 1] == items[i];
  }

  /** The loop `for (c = 0; c < kv["arguments"].size(); c++) resolveEncoding(tree, kv["arguments"][c], ...)`. */
  method ResolveArguments(f: (Tree, map<string, Json>) --> Result<Resolved>, tree: Tree, items: seq<map<string, Json>>)
    returns (r: Result<(seq<map<string, Json>>, Tree)>)
    requires IsResolver(f) && ValidTree(tree)
    ensures r == ResolveEach(f, tree, items)
  {
    var done: seq<map<string, Json>> := [];
    var t := tree;
    var i := 0;
    while i < |items|
      invariant 0 <= i <= |items|
      invariant ResolveEach(f, tree, items[..i]) == Ok((done, t))
    {
      ResolveEachStep(f, tree, items, i, done, t);
      var x := f(t, items[i]);
      if x.Err? {
        ResolveEachPrefixErr(f, tree, items, i + 1, x.error);
        return Err(x.error);
      }
      done := done + [x.value.kv];
      t := x.value.tree;
      i := i + 1;
    }
    assert items[..i] == items;
    r := Ok((done, t));
  }

  /** The serialised arguments as objects. */
  function ArgumentObjects(args: seq<Argument>): (r: seq<map<string, Json>>)
    ensures |r| == |args| && forall i :: 0 <= i < |args| ==> r[i] == ArgumentToJSON(args[i])
  {
    seq(|args|, i requires 0 <= i < |args| => ArgumentToJSON(args[i]))
  }

  /** A JSON array of objects. */
  function Objects(items: seq<map<string, Json>>): (r: Json)
    ensures r.JArr? && |r.items| == |items| && forall i :: 0 <= i < |items| ==> r.items[i] == JObj(items[i])
  {
    JArr(seq(|items|, i requires 0 <= i < |items| => JObj(items[i])))
  }

  /** The resolved `returns` object and argument objects, and the tree as the resolver left it. */
  datatype Signature = Signature(ret: map<string, Json>, args: seq<map<string, Json>>, tree: Tree)

  /** Each of `items` is a resolved form of the serialised `args[i]`. */
  predicate ResolvedArguments(items: seq<map<string, Json>>, args: seq<Argument>)
  {
    |items| == |args| && forall i :: 0 <= i < |args| ==> ResolvedFrom(ArgumentToJSON(args[i]), items[i])
  }

  /**
   * The tail shared by the function, method and block serialisers: the
   * resolver runs on the serialised return type and then on every
   * serialised argument in order, each seeing the tree the previous one
   * left.
   */
  function ResolveSignature(f: (Tree, map<string, Json>) --> Result<Resolved>, tree: Tree, ret: TypeInfo,
                            args: seq<Argument>): (r: Result<Signature>)
    requires IsResolver(f) && ValidTree(tree)
    ensures r.Ok? ==> SameRegistries(tree, r.value.tree)
    ensures r.Ok? ==> ResolvedFrom(TypeToJSON(ret), r.value.ret)
    ensures r.Ok? ==> ResolvedArguments(r.value.args, args)
  {
    match f(tree, TypeToJSON(ret))
    case Err(e) => Err(e)
    case Ok(rr) =>
      match ResolveEach(f, rr.tree, ArgumentObjects(args))
      case Err(e) => Err(e)
      case Ok(x) =>
        SameRegistriesTransitive(tree, rr.tree, x.1);
        Ok(Signature(rr.kv, x.0, x.1))
  }

  /** `ResolveSignature` with the argument loop written as the source writes it. */
  method SignatureToJSON(f: (Tree, map<string, Json>) --> Result<Resolved>, tree: Tree, ret: TypeInfo,
                         args: seq<Argument>) returns (r: Result<Signature>)
    requires IsResolver(f) && ValidTree(tree)
    ensures r == ResolveSignature(f, tree, ret, args)
  {
    var rr := f(tree, TypeToJSON(ret));
    if rr.Err? {
      return Err(rr.error);
    }
    var x := ResolveArguments(f, rr.value.tree, ArgumentObjects(args));
    if x.Err? {
      return Err(x.error);
    }
    r := Ok(Signature(rr.value.kv, x.value.0, x.value.1));
  }

  /** `kv["returns"] = ...; kv["arguments"] = ...` with the resolved objects; every other member is kept. */
  function WithSignature(kv: map<string, Json>, sig: Signature): (r: map<string, Json>)
    ensures r - {"returns", "arguments"} == kv - {"returns", "arguments"}
    ensures "returns" in r && r["returns"] == JObj(sig.ret)
    ensures "arguments" in r && r["arguments"] == Objects(sig.args)
  {
    assert "returns" != "arguments";
    kv["returns" := JObj(sig.ret)]["arguments" := Objects(sig.args)]
  }

  /** A member other than `returns` and `arguments` is as `kv` had it. */
  lemma WithSignatureKeeps(kv: map<string, Json>, sig: Signature, k: string)
    requires k != "returns" && k != "arguments"
    ensures k in WithSignature(kv, sig) <==> k in kv
    ensures k in kv ==> WithSignature(kv, sig)[k] == kv[k]
  {
    var r := WithSignature(kv, sig);
    assert k in r <==> k in r - {"returns", "arguments"};
    assert k in kv <==> k in kv - {"returns", "arguments"};
  }

  // ----------------------------------------------------------------- typedef

  /** An encoder that keeps the promises of `CXTypeUnknownToEncoding`: the `Type` it hands back keeps its encoding, and its tag unless a lookup made it a struct or union. */
  ghost predicate IsEncoder(enc: TypeInfo -> Result<Encoded>)
  {
    forall t :: enc(t).Ok? ==>
      enc(t).value.ty.encoding == t.encoding && (enc(t).value.ty.tag == t.tag || enc(t).value.ty.tag in {"struct", "union"})
  }

  /** `CXTypeUnknownToEncoding` over a tree is such an encoder. */
  lemma EncoderIsEncoder(tree: Tree)
    requires ValidTree(tree)
    ensures IsEncoder(Encoder(tree))
  {
  }

  /**
   * `TypeDefinition::toJSON`: the base members without `name`, the stored
   * type's tag and value, and its encoding, or, when that needs resolving,
   * the one `CXTypeUnknownToEncoding` synthesises. The synthesis rewrites
   * the stored type (a struct or union lookup renames it), so the updated
   * definition comes back too; the members written before it keep the old
   * tag and value. A typedef whose type was never set is an error.
   */
  function TypedefToJSON(enc: TypeInfo -> Result<Encoded>, d: Def): (r: Result<(map<string, Json>, Def)>)
    requires IsEncoder(enc) && d.body.TypedefBody?
    ensures r.Ok? <==> d.body.ty.Some? && (EncodingNeedsResolving(d.body.ty.value.encoding) ==> enc(d.body.ty.value).Ok?)
    ensures r.Ok? && !EncodingNeedsResolving(d.body.ty.value.encoding) ==>
              r.value == (TypedefMembers(d, d.body.ty.value, d.body.ty.value.encoding), d)
    ensures r.Ok? && EncodingNeedsResolving(d.body.ty.value.encoding) ==>
              var x := enc(d.body.ty.value).value;
              r.value == (TypedefMembers(d, d.body.ty.value, x.encoding), d.(body := TypedefBody(Some(x.ty))))
              && x.ty.encoding == d.body.ty.value.encoding
  {
    match d.body.ty
    case None => Err("null type")
    case Some(ty) =>
      if EncodingNeedsResolving(ty.encoding) then
        match enc(ty)
        case Err(e) => Err(e)
        case Ok(x) => Ok((TypedefMembers(d, ty, x.encoding), d.(body := TypedefBody(Some(x.ty)))))
      else Ok((TypedefMembers(d, ty, ty.encoding), d))
  }

  /** The members `TypeDefinition::toJSON` writes, given the encoding it settled on. */
  function TypedefMembers(d: Def, ty: TypeInfo, encoding: string): (kv: map<string, Json>)
    ensures kv.Keys == ToJSONBase(d).Keys - {"name"} + {"type", "value", "encoding"}
    ensures StrAt(kv, "type") == ty.tag && StrAt(kv, "value") == ty.value && StrAt(kv, "encoding") == encoding
    ensures forall k :: k in ToJSONBase(d) && k != "name" ==> kv[k] == ToJSONBase(d)[k]
  {
    var base := ToJSONBase(d);
    assert "type" !in base && "value" !in base && "encoding" !in base;
    (base - {"name"})["type" := JStr(ty.tag)]["value" := JStr(ty.value)]["encoding" := JStr(encoding)]
  }

  // ------------------------------------------------------------------ struct

  /** A field as `StructDefinition::toJSON` writes it: its name, type tag and encoding. */
  function FieldToJSON(f: Argument): (r: map<string, Json>)
    ensures r.Keys == {"name", "type", "encoding"}
  {
    map["name" := JStr(f.name), "type" := JStr(f.ty.tag), "encoding" := JStr(f.ty.encoding)]
  }

  /** That is the argument's object with `value` erased, and it reads back as the field's name, tag and encoding. */
  lemma FieldIsArgumentWithoutValue(f: Argument)
    ensures FieldToJSON(f) == ArgumentToJSON(f) - {"value"}
    ensures StrAt(FieldToJSON(f), "name") == f.name && StrAt(FieldToJSON(f), "type") == f.ty.tag
    ensures StrAt(FieldToJSON(f), "encoding") == f.ty.encoding
  {
    var a := ArgumentToJSON(f);
    var g := FieldToJSON(f);
    assert "name" != "value" && "type" != "value" && "encoding" != "value";
    assert a["name"] == g["name"] && a["type"] == g["type"] && a["encoding"] == g["encoding"];
    assert (a - {"value"}).Keys == g.Keys;
  }

  /** The field objects, in field order. */
  function FieldObjects(fields: seq<Argument>): (r: seq<Json>)
    ensures |r| == |fields|
    ensures forall i :: 0 <= i < |fields| ==> r[i] == JObj(FieldToJSON(fields[i]))
  {
    if fields == [] then [] else FieldObjects(fields[..|fields| - 1]) + [JObj(FieldToJSON(fields[|fields| - 1]))]
  }

  /**
   * `StructDefinition::toJSON`: the base members, and `fields` only when
   * the struct has at least one field, one object per field in order.
   */
  function StructJSON(d: Def): (r: map<string, Json>)
    requires d.body.StructBody?
    ensures "fields" in r <==> |d.body.fields| > 0
    ensures r - {"fields"} == ToJSONBase(d)
    ensures "fields" in r ==> r["fields"] == JArr(FieldObjects(d.body.fields))
  {
    var base := ToJSONBase(d);
    assert "fields" !in base;
    if |d.body.fields| > 0 then base["fields" := JArr(FieldObjects(d.body.fields))] else base
  }

  /** The field loop of `StructDefinition::toJSON`. */
  method StructToJSON(d: Def) returns (kv: map<string, Json>)
    requires d.body.StructBody?
    ensures kv == StructJSON(d)
  {
    kv := ToJSONBase(d);
    var fields := d.body.fields;
    if |fields| > 0 {
      var fkv: seq<Json> := [];
      var i := 0;
      while i < |fields|
        invariant 0 <= i <= |fields|
        invariant fkv == FieldObjects(fields[..i])
      {
        assert fields[..i + 1][..i] == fields[..i];
        // the argument's object without "value"
        var v := FieldToJSON(fields[i]);
        fkv := fkv + [JObj(v)];
        i := i + 1;
      }
      assert fields[..i] == fields;
      kv := kv["fields" := JArr(fkv)];
    }
  }

  // -------------------------------------------------------------------- enum

  /** The `values` member: an object from constant to value, or null when there is none. */
  function EnumValuesJSON(values: map<string, int>): (r: Json)
    ensures values == map[] ==> r == JNull
    ensures values != map[] ==>
              r.JObj? && r.fields.Keys == values.Keys && forall k :: k in values ==> r.fields[k] == JInt(values[k])
  {
    if values == map[] then JNull else JObj(map k | k in values :: JInt(values[k]))
  }

  /** The copy loop of `EnumDefinition::toJSON`, one constant at a time. */
  method EnumValuesToJSON(values: map<string, int>) returns (v: Json)
    ensures v == EnumValuesJSON(values)
  {
    v := JNull;
    var fields: map<string, Json> := map[];
    var todo := values.Keys;
    while todo != {}
      invariant todo <= values.Keys
      invariant fields == map k | k in values.Keys - todo :: JInt(values[k])
      invariant v == if todo == values.Keys then JNull else JObj(fields)
      decreases |todo|
    {
      var k :| k in todo;
      fields := fields[k := JInt(values[k])];
      v := JObj(fields);
      todo := todo - {k};
    }
    assert values.Keys - todo == values.Keys;
  }

  /** `EnumDefinition::toJSON`: the base members without `name`, and `values`. */
  function EnumJSON(d: Def): (r: map<string, Json>)
    requires d.body.EnumBody?
    ensures r.Keys == ToJSONBase(d).Keys - {"name"} + {"values"}
    ensures forall k :: k in ToJSONBase(d) && k != "name" ==> r[k] == ToJSONBase(d)[k]
    ensures r["values"] == EnumValuesJSON(d.body.values)
  {
    (ToJSONBase(d) - {"name"})["values" := EnumValuesJSON(d.body.values)]
  }

  /**
   * What `enum_%zu` gives for the anonymous enum numbered `n`, in a buffer
   * of any size.
   */
  function AnonEnumName(n: nat): (r: string)
    ensures |r| > 5 && r[..5] == "enum_"
  {
    "enum_" + NatToString(n)
  }

  /** Two numbers never give the same anonymous name. */
  lemma AnonEnumNamesDistinct(n: nat, m: nat)
    requires n != m
    ensures AnonEnumName(n) != AnonEnumName(m)
  {
    NatToStringInjective(n, m);
    assert AnonEnumName(n)[5..] == NatToString(n);
    assert AnonEnumName(m)[5..] == NatToString(m);
  }

  /** Decimal text determines its number. */
  lemma {:induction false} NatToStringInjective(n: nat, m: nat)
    requires n != m
    ensures NatToString(n) != NatToString(m)
    decreases n + m
  {
    if n < 10 && m < 10 {
      assert NatToString(n) == [DigitChar(n)] && NatToString(m) == [DigitChar(m)];
    } else if n < 10 {
      NatToStringLength(m / 10);
      assert |NatToString(m)| >= 2;
    } else if m < 10 {
      NatToStringLength(n / 10);
      assert |NatToString(n)| >= 2;
    } else if n / 10 != m / 10 {
      NatToStringInjective(n / 10, m / 10);
      var sn, sm := NatToString(n), NatToString(m);
      assert sn == NatToString(n / 10) + [DigitChar(n % 10)] && sm == NatToString(m / 10) + [DigitChar(m % 10)];
      assert sn[..|sn| - 1] == NatToString(n / 10) && sm[..|sm| - 1] == NatToString(m / 10);
    } else {
      assert n % 10 != m % 10;
      assert NatToString(n)[|NatToString(n)| - 1] == DigitChar(n % 10);
      assert NatToString(m)[|NatToString(m)| - 1] == DigitChar(m % 10);
    }
  }

  /** Decimal text is never empty. */
  lemma NatToStringLength(n: nat)
    ensures |NatToString(n)| >= 1
  {
  }

  /**
   * What the source writes: `sprintf(str, "enum_%zu", n)` into `char
   * str[10]`, which holds the text and its terminating NUL only while
   * the text is at most nine characters; past that the write overflows
   * the buffer, which the model reports as an error.
   */
  function AnonEnumNameAsWritten(n: nat): (r: Result<string>)
    ensures r.Ok? ==> r.value == AnonEnumName(n)
    ensures r.Ok? <==> |AnonEnumName(n)| + 1 <= 10
  {
    if |AnonEnumName(n)| + 1 <= 10 then Ok(AnonEnumName(n)) else Err("buffer overflow")
  }

  /** The ten-thousandth anonymous enum (counter value 10000) overflows the buffer. */
  lemma AnonEnumOverflowAt10000()
    ensures AnonEnumNameAsWritten(10000).Err?
    ensures forall n: nat :: n < 10000 ==> AnonEnumNameAsWritten(n).Ok?
  {
    assert NatToString(10000) == "10000";
    forall n: nat | n < 10000
      ensures AnonEnumNameAsWritten(n).Ok?
    {
      NatToStringShort(n);
    }
  }

  /** A number below 10000 has at most four digits. */
  lemma NatToStringShort(n: nat)
    requires n < 10000
    ensures |NatToString(n)| <= 4
  {
    if n >= 10 {
      assert NatToString(n) == NatToString(n / 10) + [DigitChar(n % 10)];
      if n / 10 >= 10 {
        assert NatToString(n / 10) == NatToString(n / 100) + [DigitChar((n / 10) % 10)];
        if n / 100 >= 10 {
          assert NatToString(n / 100) == NatToString(n / 1000) + [DigitChar((n / 100) % 10)];
          assert n / 1000 < 10;
        }
      }
    }
  }

  // ---------------------------------------------------------------- property

  /** The property attribute bits the constructor tests (`CXObjCPropertyAttr_*`). */
  const ReadonlyBit: nat := 0x1
  const ReadwriteBit: nat := 0x8
  const ClassBit: nat := 0x1000

  /** `(attributes & mask) == mask` for a single-bit mask. */
  predicate HasBit(bits: nat, mask: nat)
    requires mask > 0
  {
    (bits / mask) % 2 == 1
  }

  /** The place of each attribute name in the fixed order. */
  function AttributeRank(a: string): nat
  {
    if a == "readonly" then 0 else if a == "readwrite" then 1 else 2
  }

  /**
   * The attribute list the `Property` constructor builds: readonly,
   * readwrite and class, each present exactly when its bit is set, in that
   * order.
   */
  function PropertyAttributes(bits: nat): (r: seq<string>)
    ensures "readonly" in r <==> HasBit(bits, ReadonlyBit)
    ensures "readwrite" in r <==> HasBit(bits, ReadwriteBit)
    ensures "class" in r <==> HasBit(bits, ClassBit)
    ensures forall a :: a in r ==> a in {"readonly", "readwrite", "class"}
    ensures forall i, j :: 0 <= i < j < |r| ==> AttributeRank(r[i]) < AttributeRank(r[j])
  {
    (if HasBit(bits, ReadonlyBit) then ["readonly"] else [])
    + (if HasBit(bits, ReadwriteBit) then ["readwrite"] else [])
    + (if HasBit(bits, ClassBit) then ["class"] else [])
  }

  /** A property: its name, its type, its attribute list and whether it is optional. */
  datatype PropertyDef = PropertyDef(name: string, ty: TypeInfo, attributes: seq<string>, optional: bool)

  /**
   * `Property::toJSON`: the type as a `Type` object (never resolved), the
   * name, `attributes` only when the list is non-empty, and `optional`
   * always.
   */
  function PropertyJSON(p: PropertyDef): (r: map<string, Json>)
    ensures r.Keys == {"type", "name", "optional"} + (if p.attributes != [] then {"attributes"} else {})
    ensures r["type"] == JObj(TypeToJSON(p.ty)) && StrAt(r, "name") == p.name && r["optional"] == JBool(p.optional)
    ensures "attributes" in r ==>
              r["attributes"].JArr? && |r["attributes"].items| == |p.attributes|
              && forall i :: 0 <= i < |p.attributes| ==> r["attributes"].items[i] == JStr(p.attributes[i])
  {
    var kv := map["type" := JObj(TypeToJSON(p.ty)), "name" := JStr(p.name)];
    var kv1 := if p.attributes != [] then
      kv["attributes" := JArr(seq(|p.attributes|, i requires 0 <= i < |p.attributes| => JStr(p.attributes[i])))]
    else kv;
    kv1["optional" := JBool(p.optional)]
  }

  // ------------------------------------------------------------------ method

  /**
   * A method of a class or protocol: its selector, the encoding the front
   * end declared, the return type once parsed, its arguments, and the
   * instance and optional flags it was created with.
   */
  datatype MethodDef = MethodDef(selector: string, encoding: string, ret: Option<TypeInfo>, args: seq<Argument>,
                                 instance: bool, optional: bool)

  /** The return type that marks an initialiser. */
  predicate IsInstancetype(ty: TypeInfo)
  {
    ty.tag == "typedef" && ty.value == "instancetype"
  }

  /** The members `MethodDefinition::toJSON` writes besides `returns` and `arguments`. */
  function MethodHead(m: MethodDef, ret: TypeInfo): (kv: map<string, Json>)
    ensures kv.Keys == {"selector", "name", "encoding", "instance"}
                       + (if m.optional then {"optional"} else {}) + (if IsInstancetype(ret) then {"constructor"} else {})
    ensures kv["selector"] == JStr(m.selector) && kv["name"] == JStr(CamelCased(m.selector))
    ensures kv["encoding"] == JStr(m.encoding) && kv["instance"] == JBool(m.instance)
    ensures "optional" in kv ==> kv["optional"] == JBool(true)
    ensures "constructor" in kv ==> kv["constructor"] == JBool(true)
  {
    var kv := map["selector" := JStr(m.selector), "name" := JStr(CamelCased(m.selector)),
                  "encoding" := JStr(m.encoding), "instance" := JBool(m.instance)];
    var kv1 := if m.optional then kv["optional" := JBool(true)] else kv;
    if IsInstancetype(ret) then kv1["constructor" := JBool(true)] else kv1
  }

  /**
   * `MethodDefinition::toJSON` (no base members): selector, camel-cased
   * name, encoding, instance, `optional` only when set, `constructor`
   * exactly for an `instancetype` return, then `returns` and `arguments`
   * through the resolver. A method whose return type was never parsed is
   * an error.
   */
  function MethodToJSON(f: (Tree, map<string, Json>) --> Result<Resolved>, tree: Tree, m: MethodDef): (r: Result<Emitted>)
    requires IsResolver(f) && ValidTree(tree)
    ensures m.ret.None? ==> r.Err?
    ensures r.Ok? ==>
              m.ret.Some? && ResolveSignature(f, tree, m.ret.value, m.args).Ok?
              && var sig := ResolveSignature(f, tree, m.ret.value, m.args).value;
                 r.value == Emitted(WithSignature(MethodHead(m, m.ret.value), sig), sig.tree)
  {
    match m.ret
    case None => Err("null return type")
    case Some(ret) =>
      match ResolveSignature(f, tree, ret, m.args)
      case Err(e) => Err(e)
      case Ok(sig) => Ok(Emitted(WithSignature(MethodHead(m, ret), sig), sig.tree))
  }

  /**
   * What a serialised method holds besides the resolved `returns` and
   * `arguments`: the flags and names `MethodHead` sets.
   */
  lemma MethodObject(m: MethodDef, ret: TypeInfo, sig: Signature)
    ensures var kv := WithSignature(MethodHead(m, ret), sig);
            ("optional" in kv <==> m.optional) && ("optional" in kv ==> kv["optional"] == JBool(true))
            && ("constructor" in kv <==> IsInstancetype(ret))
            && ("constructor" in kv ==> kv["constructor"] == JBool(true))
            && kv["selector"] == JStr(m.selector) && kv["name"] == JStr(CamelCased(m.selector))
            && kv["instance"] == JBool(m.instance) && kv["encoding"] == JStr(m.encoding)
  {
    var head := MethodHead(m, ret);
    WithSignatureKeeps(head, sig, "optional");
    WithSignatureKeeps(head, sig, "constructor");
    WithSignatureKeeps(head, sig, "selector");
    WithSignatureKeeps(head, sig, "name");
    WithSignatureKeeps(head, sig, "instance");
    WithSignatureKeeps(head, sig, "encoding");
  }

  /** The `name` of a serialised method holds neither ':' nor ' ', and a selector without them is its own name. */
  lemma MethodNameIsPlain(m: MethodDef, ret: TypeInfo)
    ensures var n := MethodHead(m, ret)["name"];
            n.JStr? && ':' !in n.s && ' ' !in n.s
    ensures ':' !in m.selector && ' ' !in m.selector ==> MethodHead(m, ret)["name"] == JStr(m.selector)
  {
    CamelCasedHasNoSeparators(m.selector);
    if ':' !in m.selector && ' ' !in m.selector {
      CamelCasedPlain(m.selector);
    }
  }

  // ---------------------------------------------------------------- function

  /** The members `FunctionDefinition::toJSON` writes besides `returns` and `arguments`. */
  function FunctionHead(d: Def): (kv: map<string, Json>)
    requires d.body.FunctionBody?
    ensures kv.Keys == ToJSONBase(d).Keys + (if d.body.variadic && |d.body.args| > 0 then {"variadic"} else {})
    ensures forall k :: k in ToJSONBase(d) ==> kv[k] == ToJSONBase(d)[k]
    ensures "variadic" in kv ==> kv["variadic"] == JBool(true)
  {
    var base := ToJSONBase(d);
    assert "variadic" !in base;
    // `kv["name"] = getName()` writes the value `toJSONBase` already wrote
    assert base["name" := JStr(d.name)] == base;
    if d.body.variadic && |d.body.args| > 0 then base["variadic" := JBool(true)] else base
  }

  /**
   * `FunctionDefinition::toJSON`: the base members, `variadic` only for a
   * variadic function with at least one argument, then `returns` and
   * `arguments` through the resolver. A function whose return type was
   * never parsed is an error.
   */
  function FunctionToJSON(f: (Tree, map<string, Json>) --> Result<Resolved>, tree: Tree, d: Def): (r: Result<Emitted>)
    requires IsResolver(f) && ValidTree(tree) && d.body.FunctionBody?
    ensures d.body.ret.None? ==> r.Err?
    ensures r.Ok? ==>
              d.body.ret.Some? && ResolveSignature(f, tree, d.body.ret.value, d.body.args).Ok?
              && var sig := ResolveSignature(f, tree, d.body.ret.value, d.body.args).value;
                 r.value == Emitted(WithSignature(FunctionHead(d), sig), sig.tree)
  {
    match d.body.ret
    case None => Err("null return type")
    case Some(ret) =>
      match ResolveSignature(f, tree, ret, d.body.args)
      case Err(e) => Err(e)
      case Ok(sig) => Ok(Emitted(WithSignature(FunctionHead(d), sig), sig.tree))
  }

  /**
   * What a serialised function holds besides the resolved `returns` and
   * `arguments`: the base members, and `variadic` (true) exactly for a
   * variadic function with arguments.
   */
  lemma FunctionObject(d: Def, sig: Signature)
    requires d.body.FunctionBody?
    ensures var kv := WithSignature(FunctionHead(d), sig);
            ("variadic" in kv <==> d.body.variadic && |d.body.args| > 0)
            && ("variadic" in kv ==> kv["variadic"] == JBool(true))
            && (forall k :: k in ToJSONBase(d) ==> k in kv && kv[k] == ToJSONBase(d)[k])
  {
    var head := FunctionHead(d);
    WithSignatureKeeps(head, sig, "variadic");
    forall k | k in ToJSONBase(d)
      ensures k in WithSignature(head, sig) && WithSignature(head, sig)[k] == ToJSONBase(d)[k]
    {
      WithSignatureKeeps(head, sig, k);
    }
  }
}
