/**
 * The Objective-C type-encoding tables of the metabase generator
 * (util.cpp): type spelling -> encoding, encoding -> type tag, libclang
 * type kind -> type tag, and the two small encoding predicates.
 * Encodings follow the "Type Encodings" table of Apple's Objective-C
 * Runtime Programming Guide.
 */
module Encoding {
  import opened Wrappers
  import opened Strs

  /** The codes `getEncodingFromType` can produce other than "?". */
  predicate IsPrimitiveCode(e: string)
  {
    e in {"c", "i", "s", "l", "q", "C", "I", "S", "L", "D", "Q", "f", "d", "B", "v", "*", "@", "#", ":", "@?"}
  }

  /**
   * `getEncodingFromType`: the encoding of a primitive type spelling, "?"
   * for any other. The source is an if-chain whose tests name disjoint
   * spellings, so the model reads it by the spelling's first character.
   */
  function GetEncodingFromType(str: string): (r: string)
    ensures r == "?" || IsPrimitiveCode(r)
  {
    if str == [] then "?"
    else match str[0]
      case 'c' =>
        if str in {"char", "char16", "char32", "char_s"} then "c"
        else if str in {"char_u"} then "C"
        else if str == "char *" then "*" else "?"
      case 's' => if str == "s_char" then "c" else if str == "short" then "s" else "?"
      case 'i' => if str == "int" then "i" else if str == "id" then "@" else "?"
      case 'l' =>
        if str == "long" then "l"
        else if str in {"long_long", "long long"} then "q"
        else if str in {"long_double", "long double"} then "D" else "?"
      case 'u' =>
        if str in {"uchar", "unsigned char"} then "C"
        else if str in {"uint", "unsigned int"} then "I"
        else if str in {"ushort", "unsigned short"} then "S"
        else if str in {"ulong", "unsigned long"} then "L"
        else if str in {"ulonglong", "unsigned long long"} then "Q" else "?"
      case 'f' => if str == "float" then "f" else "?"
      case 'd' => if str == "double" then "d" else "?"
      case 'b' => if str == "bool" then "B" else if str == "block" then "@?" else "?"
      case '_' => if str == "_Bool" then "B" else "?"
      case 'v' => if str == "void" then "v" else "?"
      case 'o' => if str in {"obj_interface", "objc_pointer"} then "@" else "?"
      case 'e' => if str == "enum" then "i" else "?"
      case 'C' => if str == "Class" then "#" else "?"
      case 'S' => if str == "SEL" then ":" else "?"
      case _ => "?"
  }

  /** `filterEncoding`: at most one leading 'r' (the `const` qualifier) removed. */
  function FilterEncoding(encoding: string): (r: string)
    ensures |encoding| > 0 && encoding[0] == 'r' ==> r == encoding[1..]
    ensures !(|encoding| > 0 && encoding[0] == 'r') ==> r == encoding
  {
    if |encoding| > 0 && encoding[0] == 'r' then encoding[1..] else encoding
  }

  /** `encodingNeedsResolving`. */
  predicate EncodingNeedsResolving(encoding: string)
  {
    encoding == [] || encoding == "unexposed" || encoding == "?"
  }

  /** The tags `EncodingToType` can produce. */
  predicate IsEncodingTag(t: string)
  {
    t in {"unknown", "int", "long", "c", "double", "float", "short", "long long", "unsigned char",
          "unsigned int", "unsigned short", "unsigned long", "unsigned long long", "bool", "void",
          "char *", "id", "Class", "SEL", "block", "struct", "pointer", "constant_array", "union"}
  }

  /** The tag of a one-character code in `EncodingToType`'s exact-code table. */
  function CodeTag(c: char): (r: Option<string>)
  {
    match c
    case 'i' => Some("int") case 'l' => Some("long") case 'c' => Some("c")
    case 'd' => Some("double") case 'f' => Some("float") case 's' => Some("short")
    case 'q' => Some("long long") case 'C' => Some("unsigned char") case 'I' => Some("unsigned int")
    case 'S' => Some("unsigned short") case 'L' => Some("unsigned long") case 'Q' => Some("unsigned long long")
    case 'B' => Some("bool") case 'v' => Some("void") case '*' => Some("char *")
    case '@' => Some("id") case '#' => Some("Class") case ':' => Some("SEL")
    case _ => None
  }

  /** The tag of a compound encoding, decided by its first character. */
  function LeadTag(c: char): (r: string)
  {
    match c
    case '{' => "struct" case '^' => "pointer" case '[' => "constant_array" case '(' => "union"
    case _ => "unknown"
  }

  /**
   * `EncodingToType`: the type tag of an encoding. The exact codes come
   * first, then the first character decides. The exact codes are one
   * character long except "@?", so the table is read by that character.
   * The source reads the first character with `at(0)`, which throws when
   * the filtered encoding is empty, that is for the input "r".
   */
  function EncodingToType(encoding_: string): (r: Result<string>)
    ensures r.Err? <==> encoding_ == "r"
    ensures r.Ok? ==> IsEncodingTag(r.value)
  {
    if encoding_ == [] then Ok("unknown")
    else
      var encoding := FilterEncoding(encoding_);
      if encoding == [] then Err("std::out_of_range")
      else if |encoding| == 1 && CodeTag(encoding[0]).Some? then Ok(CodeTag(encoding[0]).value)
      else if encoding == "@?" then Ok("block")
      else Ok(LeadTag(encoding[0]))
  }

  /** The round trip below, for the signed integer codes. */
  lemma EncodingRoundTripSigned(e: string)
    requires e in {"i", "s", "l", "q"}
    ensures EncodingToType(e).Ok? && GetEncodingFromType(EncodingToType(e).value) == e
  {
  }

  /** The round trip below, for the unsigned integer codes. */
  lemma EncodingRoundTripUnsigned(e: string)
    requires e in {"C", "I", "S", "L", "Q"}
    ensures EncodingToType(e).Ok? && GetEncodingFromType(EncodingToType(e).value) == e
  {
  }

  /** The round trip below, for the scalar codes that are not integers. */
  lemma EncodingRoundTripScalar(e: string)
    requires e in {"f", "d", "B", "v"}
    ensures EncodingToType(e).Ok? && GetEncodingFromType(EncodingToType(e).value) == e
  {
  }

  /** The round trip below, for the pointer and object codes. */
  lemma EncodingRoundTripObject(e: string)
    requires e in {"*", "@", "#", ":", "@?"}
    ensures EncodingToType(e).Ok? && GetEncodingFromType(EncodingToType(e).value) == e
  {
  }

  /**
   * Encoding a spelling and reading its tag back gives a spelling that
   * encodes the same way, for every code except "c" and "D": `EncodingToType`
   * answers "c" for "c" (which `getEncodingFromType` does not know) and has
   * no entry for "D".
   */
  lemma EncodingRoundTrip(e: string)
    requires IsPrimitiveCode(e) && e != "c" && e != "D"
    ensures EncodingToType(e).Ok?
    ensures GetEncodingFromType(EncodingToType(e).value) == e
  {
    if e in {"i", "s", "l", "q"} {
      EncodingRoundTripSigned(e);
    } else if e in {"C", "I", "S", "L", "Q"} {
      EncodingRoundTripUnsigned(e);
    } else if e in {"f", "d", "B", "v"} {
      EncodingRoundTripScalar(e);
    } else {
      EncodingRoundTripObject(e);
    }
  }

  /** The two codes the tables do not round-trip. */
  lemma EncodingRoundTripGaps()
    ensures EncodingToType("c") == Ok("c") && GetEncodingFromType("c") == "?"
    ensures GetEncodingFromType("long double") == "D" && EncodingToType("D") == Ok("unknown")
  {
  }

  /** A leading `const` qualifier 'r' does not change the tag of a non-empty encoding that does not itself start with 'r'. */
  lemma EncodingToTypeIgnoresConst(e: string)
    requires |e| > 0 && e[0] != 'r'
    ensures EncodingToType("r" + e) == EncodingToType(e)
  {
    assert FilterEncoding("r" + e) == e;
  }

  /** Off the exact-code table, the tag of a compound encoding is decided by its first character. */
  lemma EncodingToTypeCompound(e: string)
    requires |e| >= 2 && e != "@?"
    ensures e[0] == '{' ==> EncodingToType(e) == Ok("struct")
    ensures e[0] == '^' ==> EncodingToType(e) == Ok("pointer")
    ensures e[0] == '[' ==> EncodingToType(e) == Ok("constant_array")
    ensures e[0] == '(' ==> EncodingToType(e) == Ok("union")
    ensures e[0] !in "{^[(r" ==> EncodingToType(e) == Ok("unknown")
  {
  }

  /**
   * The libclang type kinds that `CXTypeToType` names, plus `Elaborated`
   * (which the model needs for the `Type` constructor) and every other
   * kind by its number.
   */
  datatype TypeKind =
    | Invalid | Unexposed | Void | Bool | Char_U | UChar | Char16 | Char32 | UShort | UInt | ULong
    | ULongLong | UInt128 | Char_S | SChar | WChar | Short | Int | Long | LongLong | Int128 | Float
    | Double | LongDouble | NullPtr | ObjCId | ObjCClass | ObjCSel | Complex | Pointer | BlockPointer
    | LValueReference | RValueReference | Record | Enum | Typedef | ObjCInterface | ObjCObjectPointer
    | FunctionNoProto | FunctionProto | ConstantArray | Vector | IncompleteArray | VariableArray
    | DependentSizedArray | MemberPointer | Elaborated | OtherKind(code: int)

  /** The number libclang gives each kind (`enum CXTypeKind`), used by the `default` branch. */
  function KindCode(k: TypeKind): int
  {
    match k
    case Invalid => 0 case Unexposed => 1 case Void => 2 case Bool => 3 case Char_U => 4
    case UChar => 5 case Char16 => 6 case Char32 => 7 case UShort => 8 case UInt => 9
    case ULong => 10 case ULongLong => 11 case UInt128 => 12 case Char_S => 13 case SChar => 14
    case WChar => 15 case Short => 16 case Int => 17 case Long => 18 case LongLong => 19
    case Int128 => 20 case Float => 21 case Double => 22 case LongDouble => 23 case NullPtr => 24
    case Complex => 100 case Pointer => 101 case BlockPointer => 102 case LValueReference => 103
    case RValueReference => 104 case Record => 105 case Enum => 106 case Typedef => 107
    case ObjCInterface => 108 case ObjCObjectPointer => 109 case FunctionNoProto => 110
    case FunctionProto => 111 case ConstantArray => 112 case Vector => 113 case IncompleteArray => 114
    case VariableArray => 115 case DependentSizedArray => 116 case MemberPointer => 117
    case Elaborated => 119 case ObjCId => 27 case ObjCClass => 28 case ObjCSel => 29
    case OtherKind(n) => n
  }

  /** The kinds `CXTypeToType` has a case for. */
  predicate IsNamedKind(k: TypeKind)
  {
    !k.OtherKind? && !k.Elaborated?
  }

  /** `CXTypeToType`: the tag string of a type kind; unnamed kinds print their number. */
  function CXTypeToType(k: TypeKind): (r: string)
    ensures r != [] && (!IsNamedKind(k) ==> StartsWith(r, "unknown type: "))
  {
    match k
    case Invalid => "invalid"
    case Unexposed => "unexposed"
    case Void => "void"
    case Bool => "bool"
    case Char_U => "char_u"
    case UChar => "uchar"
    case Char16 => "char16"
    case Char32 => "char32"
    case UShort => "ushort"
    case UInt => "uint"
    case ULong => "ulong"
    case ULongLong => "ulonglong"
    case UInt128 => "uint123"
    case Char_S => "char_s"
    case SChar => "s_char"
    case WChar => "w_char"
    case Short => "short"
    case Int => "int"
    case Long => "long"
    case LongLong => "long_long"
    case Int128 => "int_128"
    case Float => "float"
    case Double => "double"
    case LongDouble => "long_double"
    case NullPtr => "null"
    case ObjCId => "id"
    case ObjCClass => "Class"
    case ObjCSel => "SEL"
    case Complex => "complex"
    case Pointer => "pointer"
    case BlockPointer => "block"
    case LValueReference => "lvalue_ref"
    case RValueReference => "rvalue_ref"
    case Record => "record"
    case Enum => "enum"
    case Typedef => "typedef"
    case ObjCInterface => "obj_interface"
    case ObjCObjectPointer => "objc_pointer"
    case FunctionNoProto => "function_noproto"
    case FunctionProto => "function_proto"
    case ConstantArray => "constant_array"
    case Vector => "vector"
    case IncompleteArray => "incomplete_array"
    case VariableArray => "variable_array"
    case DependentSizedArray => "dependent_sized_array"
    case MemberPointer => "member_pointer"
    case _ => "unknown type: " + IntToString(KindCode(k))
  }

  /**
   * An independent reading of the tag table: tag string -> kind, looked up
   * by first character and then by the whole tag.
   */
  function TagToKind(t: string): (r: Option<TypeKind>)
    ensures r.Some? ==> IsNamedKind(r.value)
  {
    if t == [] then None
    else match t[0]
      case 'C' => if t == "Class" then Some(ObjCClass) else None
      case 'S' => if t == "SEL" then Some(ObjCSel) else None
      case 'b' => if t == "bool" then Some(Bool) else if t == "block" then Some(BlockPointer) else None
      case 'c' => if t == "char_u" then Some(Char_U) else if t == "char16" then Some(Char16) else if t == "char32" then Some(Char32) else if t == "char_s" then Some(Char_S) else if t == "complex" then Some(Complex) else if t == "constant_array" then Some(ConstantArray) else None
      case 'd' => if t == "double" then Some(Double) else if t == "dependent_sized_array" then Some(DependentSizedArray) else None
      case 'e' => if t == "enum" then Some(Enum) else None
      case 'f' => if t == "float" then Some(Float) else if t == "function_noproto" then Some(FunctionNoProto) else if t == "function_proto" then Some(FunctionProto) else None
      case 'i' => if t == "invalid" then Some(Invalid) else if t == "int" then Some(Int) else if t == "int_128" then Some(Int128) else if t == "id" then Some(ObjCId) else if t == "incomplete_array" then Some(IncompleteArray) else None
      case 'l' => if t == "long" then Some(Long) else if t == "long_long" then Some(LongLong) else if t == "long_double" then Some(LongDouble) else if t == "lvalue_ref" then Some(LValueReference) else None
      case 'm' => if t == "member_pointer" then Some(MemberPointer) else None
      case 'n' => if t == "null" then Some(NullPtr) else None
      case 'o' => if t == "obj_interface" then Some(ObjCInterface) else if t == "objc_pointer" then Some(ObjCObjectPointer) else None
      case 'p' => if t == "pointer" then Some(Pointer) else None
      case 'r' => if t == "rvalue_ref" then Some(RValueReference) else if t == "record" then Some(Record) else None
      case 's' => if t == "s_char" then Some(SChar) else if t == "short" then Some(Short) else None
      case 't' => if t == "typedef" then Some(Typedef) else None
      case 'u' => TagToUnsignedKind(t)
      case 'v' => if t == "void" then Some(Void) else if t == "vector" then Some(Vector) else if t == "variable_array" then Some(VariableArray) else None
      case 'w' => if t == "w_char" then Some(WChar) else None
      case _ => None
  }

  /** `TagToKind` for the tags starting with 'u'. */
  function TagToUnsignedKind(t: string): (r: Option<TypeKind>)
    ensures r.Some? ==> IsNamedKind(r.value)
  {
    if |t| > 9 then None
    else if t == "unexposed" then Some(Unexposed) else if t == "uchar" then Some(UChar)
    else if t == "ushort" then Some(UShort) else if t == "uint" then Some(UInt)
    else if t == "ulong" then Some(ULong) else if t == "ulonglong" then Some(ULongLong)
    else if t == "uint123" then Some(UInt128) else None
  }

  /** The scalar kinds, which come first in libclang's numbering. */
  predicate IsScalarKind(k: TypeKind)
  {
    KindCode(k) <= 29 && IsNamedKind(k)
  }

  /** The inverse below, for the kinds numbered 0 to 6. */
  lemma CXTypeToTypeInverse0To6(k: TypeKind)
    requires IsNamedKind(k) && 0 <= KindCode(k) <= 6
    ensures TagToKind(CXTypeToType(k)) == Some(k)
  {
  }

  /** The inverse below, for the kinds numbered 7 to 12. */
  lemma CXTypeToTypeInverse7To12(k: TypeKind)
    requires IsNamedKind(k) && 7 <= KindCode(k) <= 12
    ensures TagToKind(CXTypeToType(k)) == Some(k)
  {
  }

  /** The inverse below, for the kinds numbered 13 to 18. */
  lemma CXTypeToTypeInverse13To18(k: TypeKind)
    requires IsNamedKind(k) && 13 <= KindCode(k) <= 18
    ensures TagToKind(CXTypeToType(k)) == Some(k)
  {
  }

  /** The inverse below, for the kinds numbered 19 to 29. */
  lemma CXTypeToTypeInverse19To29(k: TypeKind)
    requires IsNamedKind(k) && 19 <= KindCode(k) <= 29
    ensures TagToKind(CXTypeToType(k)) == Some(k)
  {
  }

  /** The inverse below, for the kinds numbered 100 to 109. */
  lemma CXTypeToTypeInverse100To109(k: TypeKind)
    requires IsNamedKind(k) && 100 <= KindCode(k) <= 109
    ensures TagToKind(CXTypeToType(k)) == Some(k)
  {
  }

  /** The inverse below, for the kinds numbered 110 to 119. */
  lemma CXTypeToTypeInverse110To119(k: TypeKind)
    requires IsNamedKind(k) && 110 <= KindCode(k) <= 119
    ensures TagToKind(CXTypeToType(k)) == Some(k)
  {
  }

  /** Every named kind has its own tag: reading the tag back gives the kind. */
  lemma CXTypeToTypeInverse(k: TypeKind)
    requires IsNamedKind(k)
    ensures TagToKind(CXTypeToType(k)) == Some(k)
  {
    if KindCode(k) <= 6 {
      CXTypeToTypeInverse0To6(k);
    } else if KindCode(k) <= 12 {
      CXTypeToTypeInverse7To12(k);
    } else if KindCode(k) <= 18 {
      CXTypeToTypeInverse13To18(k);
    } else if KindCode(k) <= 29 {
      CXTypeToTypeInverse19To29(k);
    } else if KindCode(k) <= 109 {
      CXTypeToTypeInverse100To109(k);
    } else {
      CXTypeToTypeInverse110To119(k);
    }
  }

  /** An unnamed kind prints as "unknown type: " followed by its number, which no named kind's tag does. */
  lemma CXTypeToTypeUnnamed(k: TypeKind)
    requires !IsNamedKind(k)
    ensures StartsWith(CXTypeToType(k), "unknown type: ")
    ensures TagToKind(CXTypeToType(k)) == None
  {
    var r := CXTypeToType(k);
    assert r[..14] == "unknown type: ";
    assert r[0] == 'u' && |r| > 9;
  }

  /** Two different named kinds never share a tag. */
  lemma CXTypeToTypeInjective(k1: TypeKind, k2: TypeKind)
    requires IsNamedKind(k1) && IsNamedKind(k2) && k1 != k2
    ensures CXTypeToType(k1) != CXTypeToType(k2)
  {
    CXTypeToTypeInverse(k1);
    CXTypeToTypeInverse(k2);
  }
}
