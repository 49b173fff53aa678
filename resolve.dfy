/**
 * Encoding resolution of the metabase generator (util.cpp): synthesising
 * an encoding for a `Type` the front end could not encode
 * (`CXTypeUnknownToEncoding`), the encoding of a whole struct
 * (`structDefinitionToEncoding`), and the repair of a serialised
 * type/value/encoding triple (`resolveEncoding`). Each reads the parse
 * tree; a struct or union found there rewrites the `Type` it was reached
 * from, so the results carry the updated `Type` or definitions.
 */
module Resolve {
  import opened Wrappers
  import opened Strs
  import opened MetabaseUtil
  import opened Encoding
  import opened Json
  import opened Defs

  /** An encoding and the `Type` as the call left it. */
  datatype Encoded = Encoded(encoding: string, ty: TypeInfo)

  /**
   * The primitive tests at the head of `CXTypeUnknownToEncoding`. They are
   * `getEncodingFromType`'s table without "block", with a value of "id"
   * tested (giving "@") just before "enum", "Class" and "SEL".
   */
  function PrimitiveEncoding(str: string, value: string): (r: Option<string>)
    ensures r.Some? ==> IsPrimitiveCode(r.value) && r.value != "@?"
    ensures value == "id" ==> r.Some?
    ensures GetEncodingFromType(str) == "?" ==> (r.Some? <==> value == "id")
  {
    var code := GetEncodingFromType(str);
    if code != "?" && code != "@?" && !(str in {"enum", "Class", "SEL"} && value == "id") then Some(code)
    else if value == "id" then Some("@")
    else None
  }

  /** `s.substr(s.find(p) + |p|)` when `p` occurs, `s` otherwise. */
  function AfterFirst(s: string, p: string): (r: string)
    ensures |r| <= |s|
    ensures Find(s, p).None? ==> r == s
  {
    match Find(s, p)
    case Some(i) => s[i + |p|..]
    case None => s
  }

  /** The size between the first '[' at `b` and the first ']' at `e`; a ']' before the '[' makes the length wrap, so the rest is taken. */
  function ArraySize(value: string, b: nat, e: nat): (r: string)
    requires b < |value| && e < |value|
  {
    if e > b then value[b + 1..e] else value[b + 1..]
  }

  /** 1 when the cleaned tag is "pointer": the pointer case recurses on a value no longer than its own. */
  function PointerRank(ty: TypeInfo): nat
  {
    if CleanString(ty.tag) == "pointer" then 1 else 0
  }

  /**
   * `CXTypeUnknownToEncoding(context, type)`: the empty type, the
   * primitive table, the function-pointer and block spellings, then the
   * pointer, array and named cases below.
   */
  function CXTypeUnknownToEncoding(tree: Tree, ty: TypeInfo): (r: Result<Encoded>)
    requires ValidTree(tree)
    decreases |CleanString(ty.value)|, PointerRank(ty), 2
    ensures r.Ok? ==> r.value.ty.encoding == ty.encoding
    ensures r.Ok? ==> r.value.ty.tag == ty.tag || r.value.ty.tag in {"struct", "union"}
  {
    var str := CleanString(ty.tag);
    var value := CleanString(ty.value);
    if str == [] && value == [] then Ok(Encoded("?", ty))
    else if PrimitiveEncoding(str, value).Some? then Ok(Encoded(PrimitiveEncoding(str, value).value, ty))
    else if Contains(value, "(*)") then Ok(Encoded("^?", ty))
    else if Contains(value, "(**)") then Ok(Encoded("^^?", ty))
    else if Contains(value, "(^)") then Ok(Encoded("@?", ty))
    else if str == "pointer" then PointerEncoding(tree, ty)
    else if str == "function_proto" then Ok(Encoded("?", ty))
    else if str == "block" then Ok(Encoded("@?", ty))
    else if str == "unexposed" then Ok(Encoded("?", ty))
    else if (str == "incomplete_array" && Contains(value, "["))
         || (str == "constant_array" && Contains(value, "[") && Contains(value, "]")) then ArrayEncoding(tree, ty)
    else if value == [] then Ok(Encoded(if str == "struct" then "{}" else "?", ty))
    else NamedEncoding(tree, ty)
  }

  /**
   * The pointer case: the pointee is the value without its '*'s, spelled
   * as both tag and value. When that spelling cleans to "pointer" the call
   * repeats with the same arguments forever, which the model reports as an
   * error, and so is `repeat("^", 0 - 1)`, whose count wraps around.
   */
  function PointerEncoding(tree: Tree, ty: TypeInfo): (r: Result<Encoded>)
    requires ValidTree(tree) && CleanString(ty.tag) == "pointer"
    decreases |CleanString(ty.value)|, PointerRank(ty), 1
    ensures r.Ok? ==> r.value.ty == ty
  {
    var t := Pointee(ty);
    if CleanString(t.tag) == "pointer" then Err("stack overflow")
    else PointerOver(ty, CXTypeUnknownToEncoding(tree, t))
  }

  /** The pointer case once its pointee is encoded (or failed): `repeat("^", times)` in front of it. */
  function PointerOver(ty: TypeInfo, inner: Result<Encoded>): (r: Result<Encoded>)
    ensures r.Ok? ==> r.value.ty == ty && inner.Ok?
  {
    match inner
    case Err(e) => Err(e)
    case Ok(p) =>
      match PointerCode(Occurrences(CleanString(ty.value), "*"), p.encoding)
      case Err(e) => Err(e)
      case Ok(code) => Ok(Encoded(code, ty))
  }

  /** The pointee of a pointer type: its value without '*'s, as both tag and value. */
  function Pointee(ty: TypeInfo): (r: TypeInfo)
    ensures r.encoding == []
    ensures |CleanString(r.value)| <= |CleanString(ty.value)|
  {
    var value := CleanString(ty.value);
    ReplacedNoLonger(value, "*", "");
    var s := Trim(Replaced(value, "*", ""));
    var t := MakeType(s, s, []);
    assert |CleanString(t.value)| <= |value|;
    t
  }

  /**
   * The encoding of a pointer with `times` stars to a pointee encoded as
   * `inner`: one '^' per star, except that a `char *` is "*" itself.
   */
  function PointerCode(times: nat, inner: string): (r: Result<string>)
    ensures inner != "c" ==> r == Ok(Repeated("^", times) + inner)
    ensures inner == "c" ==> (r.Ok? <==> times > 0)
    ensures inner == "c" && times > 0 ==> r == Ok(Repeated("^", times - 1) + "*")
  {
    if inner == "c" then
      if times == 0 then Err("std::length_error") else Ok(Repeated("^", times - 1) + "*")
    else Ok(Repeated("^", times) + inner)
  }

  /** The array cases: "[" + element encoding + "]" and "[" + size + element encoding + "]". */
  function ArrayEncoding(tree: Tree, ty: TypeInfo): (r: Result<Encoded>)
    requires ValidTree(tree) && Contains(CleanString(ty.value), "[")
    requires CleanString(ty.tag) == "constant_array" ==> Contains(CleanString(ty.value), "]")
    decreases |CleanString(ty.value)|, PointerRank(ty), 1
    ensures r.Ok? ==> r.value.ty == ty
  {
    ArrayOver(ty, CXTypeUnknownToEncoding(tree, Element(ty)))
  }

  /** The array cases once the element is encoded (or failed). */
  function ArrayOver(ty: TypeInfo, inner: Result<Encoded>): (r: Result<Encoded>)
    requires Contains(CleanString(ty.value), "[")
    requires CleanString(ty.tag) == "constant_array" ==> Contains(CleanString(ty.value), "]")
    ensures r.Ok? <==> inner.Ok?
    ensures r.Ok? ==> r.value.ty == ty
  {
    match inner
    case Err(e) => Err(e)
    case Ok(p) =>
      if CleanString(ty.tag) == "constant_array" then Ok(Encoded("[" + SizeText(ty) + p.encoding + "]", ty))
      else Ok(Encoded("[" + p.encoding + "]", ty))
  }

  /** The element type of an array type: the value before its first '[', as both tag and value. */
  function Element(ty: TypeInfo): (r: TypeInfo)
    requires Contains(CleanString(ty.value), "[")
    ensures r.encoding == []
    ensures |CleanString(r.value)| < |CleanString(ty.value)|
  {
    var value := CleanString(ty.value);
    var t := Trim(value[..Find(value, "[").value]);
    MakeType(t, t, [])
  }

  /** The size text of a constant array type, between its first '[' and its first ']'. */
  function SizeText(ty: TypeInfo): (r: string)
    requires Contains(CleanString(ty.value), "[") && Contains(CleanString(ty.value), "]")
  {
    var value := CleanString(ty.value);
    Trim(ArraySize(value, Find(value, "[").value, Find(value, "]").value))
  }

  /**
   * A non-empty value that is none of the above: "struct ", "union " and
   * "const " prefixes dropped, then a pointer to the rest, or a lookup.
   */
  function NamedEncoding(tree: Tree, ty: TypeInfo): (r: Result<Encoded>)
    requires ValidTree(tree)
    decreases |CleanString(ty.value)|, PointerRank(ty), 1
    ensures r.Ok? ==> r.value.ty.encoding == ty.encoding
    ensures r.Ok? ==> r.value.ty.tag == ty.tag || r.value.ty.tag in {"struct", "union"}
  {
    var value := CleanString(ty.value);
    var v := Trim(AfterFirst(AfterFirst(AfterFirst(value, "struct "), "union "), "const "));
    if Contains(v, "*") then
      var w := Trim(Replaced(v, "*", ""));
      StarShrinks(v);
      match CXTypeUnknownToEncoding(tree, MakeType(w, w, []))
      case Err(e) => Err(e)
      case Ok(inner) => Ok(Encoded("^" + inner.encoding, ty))
    else LookUpEncoding(tree, ty, CleanString(ty.tag), v)
  }

  /** Deleting the '*' characters of a string holding one shortens it. */
  lemma StarShrinks(v: string)
    requires Contains(v, "*")
    ensures |Replaced(v, "*", "")| < |v|
  {
    var j := Find(v, "*").value;
    assert v[j..j + 1] == "*";
    CharCountPositive(v, '*', j);
    OccurrencesOfChar(v, '*');
  }

  /**
   * The tail of `CXTypeUnknownToEncoding`, once `value` (here `v`) has lost
   * its "struct ", "union " and "const " prefixes and holds no '*': the
   * registries are consulted, then the fallbacks.
   */
  function LookUpEncoding(tree: Tree, ty: TypeInfo, str: string, v: string): (r: Result<Encoded>)
    requires ValidTree(tree)
    ensures r.Ok? ==> r.value.ty.encoding == ty.encoding
    ensures r.Ok? ==> r.value.ty.tag == ty.tag || r.value.ty.tag in {"struct", "union"}
    ensures HasName(tree.structs, v) ==>
              (r.Err? <==> tree.structs[v].None?) &&
              (r.Ok? ==> r.value.encoding == tree.store[tree.structs[v].value].encoding
                         && r.value.ty.value == CleanString(tree.store[tree.structs[v].value].name))
    ensures !HasName(tree.structs, v) && HasName(tree.unions, v) ==>
              (r.Err? <==> tree.unions[v].None?) &&
              (r.Ok? ==> r.value.encoding == tree.store[tree.unions[v].value].encoding
                         && r.value.ty.value == CleanString(tree.store[tree.unions[v].value].name))
    ensures !HasName(tree.structs, v) && !HasName(tree.unions, v) ==> r.Ok? || HasName(tree.types, v)
  {
    if HasName(tree.structs, v) then
      match tree.structs[v]
      case None => Err("null struct definition")
      case Some(id) =>
        var d := tree.store[id];
        // setType("struct"): cleaning leaves "struct" as it is (CleanTagWords)
        var ty1 := if str != "struct" then ty.(tag := "struct") else ty;
        Ok(Encoded(d.encoding, SetValue(ty1, d.name)))
    else if HasName(tree.unions, v) then
      match tree.unions[v]
      case None => Err("null union definition")
      case Some(id) =>
        var d := tree.store[id];
        // setType("union"): cleaning leaves "union" as it is (CleanTagWords)
        var ty1 := if str != "union" then ty.(tag := "union") else ty;
        Ok(Encoded(d.encoding, SetValue(ty1, d.name)))
    else if HasName(tree.types, v) then
      match tree.types[v]
      case None => Err("null type definition")
      case Some(id) => Ok(Encoded(tree.store[id].encoding, ty))
    else Ok(Encoded(FallbackEncoding(str, v), ty))
  }

  /**
   * The last tests of `CXTypeUnknownToEncoding`, for a spelling no registry
   * knows: `?` for an unexposed type, `{}` for an anonymous struct, `[]` for
   * an anonymous constant array, `{v=}` for a hidden struct, the encoding of
   * the operand of a `sizeof(`, the encoding of a complex type's value
   * without `_Complex`, and `?` for anything else.
   */
  function FallbackEncoding(str: string, v: string): (r: string)
    ensures str == "unexposed" ==> r == "?"
    ensures str == "struct" && v == [] ==> r == "{}"
    ensures str == "constant_array" && v == [] ==> r == "[]"
    ensures str == [] && v == [] ==> r == "?"
    ensures str != "unexposed" && (StartsWith(str, "struct ") || str == "record") && v != [] ==> r == "{" + v + "=}"
    ensures str != "unexposed" && !StartsWith(str, "struct ") && str != "record" && Contains(str, "sizeof(") ==>
      r == GetEncodingFromType(SizeofOperand(str))
    ensures str == "complex" && v != [] ==> r == GetEncodingFromType(Replaced(v, "_Complex", ""))
    ensures
      && str != "unexposed" && str != "record" && str != "complex" && !StartsWith(str, "struct ") && !Contains(str, "sizeof(")
      && (v == [] ==> str != "struct" && str != "constant_array")
      ==> r == "?"
  {
    assert str == "complex" ==> !StartsWith(str, "struct ") && !Contains(str, "sizeof(") by {
      if str == "complex" {
        assert str[0] != "struct "[0];
        assert Find(str, "sizeof(").None?;
      }
    }
    if str == "unexposed" then "?"
    else if str == "struct" && v == [] then
      assert Find(str, "sizeof(").None?;
      "{}"
    else if str == "constant_array" && v == [] then
      assert !Contains(str, "sizeof(") by { NoSizeofInConstantArray(str); }
      "[]"
    else if str == [] && v == [] then
      assert Find(str, "sizeof(").None?;
      "?"
    else if StartsWith(str, "struct ") || str == "record" then "{" + v + "=}"
    else if Contains(str, "sizeof(") then GetEncodingFromType(SizeofOperand(str))
    else if str == "complex" then GetEncodingFromType(Replaced(v, "_Complex", ""))
    else "?"
  }

  lemma NoSizeofInConstantArray(str: string)
    requires str == "constant_array"
    ensures !Contains(str, "sizeof(")
  {
    FindFromFirst(str, "sizeof(", 0);
    forall j | 0 <= j
      ensures !MatchAt(str, "sizeof(", j)
    {
      if j + 7 <= |str| {
        assert str[j..j + 7][0] == str[j] && str[j..j + 7][1] == str[j + 1];
        assert str[j] != 's' || str[j + 1] != 'i';
      }
    }
  }

  /**
   * The operand of the first `sizeof(` in `str`: what follows it up to the
   * next `)`, or to the end when no `)` follows.
   */
  function SizeofOperand(str: string): (s: string)
    requires Contains(str, "sizeof(")
    ensures var b := Find(str, "sizeof(").value; b + 7 + |s| <= |str| && str[b + 7..b + 7 + |s|] == s
    ensures var b := Find(str, "sizeof(").value; b + 7 + |s| == |str| || str[b + 7 + |s|] == ')'
    ensures forall k :: 0 <= k < |s| ==> s[k] != ')'
  {
    var b := Find(str, "sizeof(").value;
    var e := FindFrom(str, ")", b + 7);
    FindFromFirst(str, ")", b + 7);
    var s := if e.Some? then str[b + 7..e.value] else str[b + 7..];
    forall k | 0 <= k < |s|
      ensures s[k] != ')'
    {
      assert s[k] == str[b + 7 + k];
      assert !MatchAt(str, ")", b + 7 + k);
      assert str[b + 7 + k..b + 7 + k + 1] == [str[b + 7 + k]];
    }
    assert e.Some? ==> str[e.value..e.value + 1] == ")";
    s
  }

  // ------------------------------------------------------- lemmas about it

  /** The pointee's spelling holds no '*', and the stars counted are the value's '*' characters. */
  lemma PointeeHasNoStars(ty: TypeInfo)
    ensures !Contains(Trim(Replaced(CleanString(ty.value), "*", "")), "*")
    ensures Occurrences(CleanString(ty.value), "*") == CharCount(CleanString(ty.value), '*')
  {
    DeletedCharAbsent(CleanString(ty.value), '*');
    OccurrencesOfChar(CleanString(ty.value), '*');
  }

  /**
   * A pointer whose value holds k stars, to a pointee encoded as e: k
   * carets then e, except that a `char *` is "*" after k - 1 carets, and
   * with no star at all a `char` pointee is an error (`times - 1` wraps).
   */
  lemma PointerOverStars(ty: TypeInfo, inner: Encoded)
    ensures var r := PointerOver(ty, Ok(inner));
            var code := PointerCode(CharCount(CleanString(ty.value), '*'), inner.encoding);
            (r.Ok? <==> code.Ok?) && (r.Ok? ==> r.value.encoding == code.value)
  {
    OccurrencesOfChar(CleanString(ty.value), '*');
  }

  /** Every caret-prefixed pointer code decodes as a pointer; a single-star `char *` decodes as "char *". */
  lemma PointerCodeDecodes(times: nat, inner: string)
    ensures var r := PointerCode(times, inner);
            r.Ok? && times > 0 && !(inner == "c" && times == 1) ==> EncodingToType(r.value) == Ok("pointer")
    ensures inner == "c" && times == 1 ==> PointerCode(times, inner) == Ok("*") && EncodingToType("*") == Ok("char *")
  {
    var r := PointerCode(times, inner);
    if r.Ok? && times > 0 && !(inner == "c" && times == 1) {
      var n := if inner == "c" then times - 1 else times;
      RepeatedChar('^', n);
      var e := r.value;
      assert e[0] == '^';
      if |e| >= 2 {
        EncodingToTypeCompound(e);
      } else {
        assert e == "^";
      }
    }
    if inner == "c" && times == 1 {
      RepeatedChar('^', 0);
      assert Repeated("^", 0) + "*" == "*";
      assert FilterEncoding("*") == "*";
    }
  }

  /** The caret run of a pointer code has exactly one caret per star, and the pointee's code follows it. */
  lemma PointerCodeCarets(times: nat, inner: string)
    requires inner != "c"
    ensures var r := PointerCode(times, inner).value;
            |r| == times + |inner| && (forall k :: 0 <= k < times ==> r[k] == '^') && r[times..] == inner
  {
    RepeatedChar('^', times);
  }

  /**
   * An incomplete array encodes as "[" + its element's encoding + "]", a
   * constant array with the size text between the brackets in front of the
   * element's encoding; either way the result decodes as a constant array.
   */
  lemma ArrayOverBrackets(ty: TypeInfo, inner: Encoded)
    requires Contains(CleanString(ty.value), "[")
    requires CleanString(ty.tag) == "constant_array" ==> Contains(CleanString(ty.value), "]")
    ensures var e := ArrayOver(ty, Ok(inner)).value.encoding;
            (CleanString(ty.tag) != "constant_array" ==> e == "[" + inner.encoding + "]") &&
            (CleanString(ty.tag) == "constant_array" ==> e == "[" + SizeText(ty) + inner.encoding + "]") &&
            EncodingToType(e) == Ok("constant_array")
  {
    var e := ArrayOver(ty, Ok(inner)).value.encoding;
    assert e[0] == '[' && |e| >= 2;
    EncodingToTypeCompound(e);
  }

  /**
   * A value with nothing left to look at: a struct tag gives "{}", any other
   * tag that neither the primitive table nor the pointer, callback, block and
   * array cases claim gives "?".
   */
  lemma EmptyValueEncoding(tree: Tree, ty: TypeInfo)
    requires ValidTree(tree) && CleanString(ty.value) == []
    requires GetEncodingFromType(CleanString(ty.tag)) == "?"
    requires CleanString(ty.tag) !in {"pointer", "function_proto", "block", "unexposed"}
    ensures CXTypeUnknownToEncoding(tree, ty) == Ok(Encoded(if CleanString(ty.tag) == "struct" then "{}" else "?", ty))
  {
    var str := CleanString(ty.tag);
    assert PrimitiveEncoding(str, []).None?;
    assert !Contains([], "(*)") && !Contains([], "(**)") && !Contains([], "(^)") && !Contains([], "[");
  }

  /**
   * A name the struct registry holds: its definition's encoding, and the
   * `Type` renamed to the definition's name; a null entry is an error.
   */
  lemma KnownStructEncoding(tree: Tree, ty: TypeInfo)
    requires ValidTree(tree)
    ensures var v := Trim(AfterFirst(AfterFirst(AfterFirst(CleanString(ty.value), "struct "), "union "), "const "));
            var r := NamedEncoding(tree, ty);
            !Contains(v, "*") && HasName(tree.structs, v) ==>
              (r.Err? <==> tree.structs[v].None?) &&
              (r.Ok? ==> r.value.encoding == tree.store[tree.structs[v].value].encoding
                         && r.value.ty.value == CleanString(tree.store[tree.structs[v].value].name)
                         && r.value.ty.tag == (if CleanString(ty.tag) == "struct" then ty.tag else "struct"))
  {
  }
}
