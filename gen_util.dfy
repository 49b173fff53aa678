/**
 * The helpers of the iOS code generator (iphone/hooks/generate/util.js)
 * that decide names, encodings and conversions: primitive types, struct
 * names read back from encodings, argument lists, NSNumber accessors and
 * their defaults, setter selectors, primitive aliases, object types, safe
 * symbols and camel-casing.  The template emitters that only concatenate
 * code around these decisions are not part of this model.
 */
module GenUtil {
  import opened Wrappers
  import opened Strs
  import opened JsStrings

  // ---------------------------------------------------------------- primitives

  /** The type tags and one-character encodings `isPrimitive` accepts. */
  const PrimitiveTypes: set<string> := {
    "i", "c", "d", "f", "B", "s", "l", "q", "L", "Q", "I", "S", "C",
    "int", "uint", "unsigned int", "long", "ulong", "unsigned long", "ulonglong",
    "unsigned long long", "long long", "long_long", "double", "short", "ushort",
    "unsigned short", "float", "bool", "uchar", "unsigned char", "char", "char_s",
    "constant_array"
  }

  predicate IsPrimitive(t: string)
  {
    t in PrimitiveTypes
  }

  /** The NSNumber accessor `toValue` picks for each numeric encoding, without its "Value" suffix. */
  const ValueSelectors: map<string, string> := map[
    "d" := "double", "i" := "int", "l" := "long", "f" := "float",
    "q" := "longLong", "c" := "char", "s" := "short", "B" := "bool",
    "L" := "unsignedLong", "Q" := "unsignedLongLong", "I" := "unsignedInt",
    "C" := "unsignedChar", "S" := "unsignedShort"
  ]

  /** `toValue`: the accessor for an encoding; any other encoding ends the process. */
  function ToValue(encoding: string): (r: Result<string>)
    ensures r.Ok? ==> |encoding| == 1 && EndsWith(r.value, "Value")
  {
    if encoding in ValueSelectors then
      var v := ValueSelectors[encoding] + "Value";
      assert v[|v| - 5..] == "Value";
      Ok(v)
    else Err("Can't convert encoding: " + encoding)
  }

  /** The one-character primitive codes are exactly the encodings `toValue` converts. */
  lemma PrimitiveCodeHasValue(encoding: string)
    requires |encoding| == 1
    ensures IsPrimitive(encoding) <==> ToValue(encoding).Ok?
  {
  }

  /** `toValueDefault`: the Objective-C literal a missing argument defaults to. */
  function ToValueDefault(encoding: string): (r: Result<string>)
    ensures r.Ok? ==> |encoding| == 1
  {
    if encoding in {"d", "i", "l", "f", "s", "L", "Q", "q", "I", "S"} then Ok("0")
    else if encoding in {"C", "c"} then Ok("'\\0'")
    else if encoding == "B" then Ok("NO")
    else if encoding in {"@", ":", "#", "^"} then Ok("nil")
    else Err("Can't convert encoding: " + encoding)
  }

  /**
   * Every encoding with an accessor has a default, and the only other
   * encodings with one are the object, selector, class and pointer codes,
   * which default to nil.
   */
  lemma DefaultsCoverValues(encoding: string)
    ensures ToValueDefault(encoding).Ok? <==> ToValue(encoding).Ok? || encoding in {"@", ":", "#", "^"}
    ensures encoding in {"@", ":", "#", "^"} ==> ToValueDefault(encoding) == Ok("nil")
    ensures ToValue(encoding).Ok? && encoding !in {"c", "C", "B"} ==> ToValueDefault(encoding) == Ok("0")
  {
  }

  /** `getPrimitiveValue`: short aliases expanded, `enum` as `int`, everything else unchanged. */
  function GetPrimitiveValue(t: string): (r: string)
    ensures t !in {"ulong", "uint", "ushort", "uchar", "long_long", "ulonglong", "enum"} ==> r == t
  {
    match t
    case "ulong" => "unsigned long"
    case "uint" => "unsigned int"
    case "ushort" => "unsigned short"
    case "uchar" => "unsigned char"
    case "long_long" => "long long"
    case "ulonglong" => "unsigned long long"
    case "enum" => "int"
    case _ => t
  }

  /**
   * Expanding keeps a primitive primitive, turns `enum` into one, and is
   * idempotent: the expansion of an alias is not itself an alias.
   */
  lemma PrimitiveValueStable(t: string)
    ensures IsPrimitive(t) || t == "enum" ==> IsPrimitive(GetPrimitiveValue(t))
    ensures GetPrimitiveValue(GetPrimitiveValue(t)) == GetPrimitiveValue(t)
  {
  }

  // ---------------------------------------------------------------- struct names

  /**
   * `getStructNameFromEncoding`: for an encoding that opens with '{', the
   * text up to the first '=' with its leading underscores and surrounding
   * white space removed; JavaScript `undefined` for any other encoding.
   * Without an '=', `substring(1, -1)` swaps its bounds and yields "{".
   */
  function GetStructNameFromEncoding(encoding: string): (r: Option<string>)
    ensures r.Some? <==> StartsWith(encoding, "{")
    ensures r.Some? && !Contains(encoding, "=") ==> r.value == "{"
  {
    if |encoding| > 0 && encoding[0] == '{' then
      match Find(encoding, "=")
      case None => Some("{")
      case Some(i) => Some(Trim(DropLeading(encoding[1..i], '_')))
    else None
  }

  /** The encoding `makeStruct` writes for a struct: `{name=...}`. */
  function StructEncoding(name: string, fieldEncodings: string): (r: string)
    ensures |r| == |name| + |fieldEncodings| + 3
    ensures r[0] == '{' && r[|r| - 1] == '}'
  {
    "{" + name + "=" + fieldEncodings + "}"
  }

  /** A struct name as the generator registers it: no '=', no leading '_', no surrounding white space. */
  predicate IsPlainStructName(name: string)
  {
    '=' !in name && IsTrimmed(name) && (name == [] || name[0] != '_')
  }

  /** Reading the name back from a struct's encoding gives the name it was built from. */
  lemma StructNameRoundTrip(name: string, fieldEncodings: string)
    requires IsPlainStructName(name)
    ensures GetStructNameFromEncoding(StructEncoding(name, fieldEncodings)) == Some(name)
  {
    var e := StructEncoding(name, fieldEncodings);
    var k := |name| + 1;
    assert MatchAt(e, "=", k);
    forall j | 0 <= j < k
      ensures !MatchAt(e, "=", j)
    {
      assert e[j..j + 1] == [e[j]];
      if j > 0 {
        assert e[j] == name[j - 1];
      }
    }
    FindIs(e, "=", k);
    assert e[1..k] == name;
    assert DropLeading(name, '_') == name;
  }

  // ---------------------------------------------------------------- repeat

  /** `repeat(ch, n)` is `new Array(n).join(ch)`: n empty slots joined by `ch`. */
  function Repeat(ch: string, n: nat): (r: string)
  {
    if n <= 1 then [] else ch + Repeat(ch, n - 1)
  }

  /** `repeat` is the join of `n` empty strings, so it holds `n - 1` copies of `ch`. */
  lemma {:induction false} RepeatIsJoin(ch: string, n: nat)
    ensures Repeat(ch, n) == Join(seq(n, _ => ""), ch)
    ensures n > 0 ==> |Repeat(ch, n)| == (n - 1) * |ch|
  {
    if n > 1 {
      RepeatIsJoin(ch, n - 1);
      assert seq(n, _ => "")[1..] == seq(n - 1, _ => "");
    }
  }

  // ---------------------------------------------------------------- argument lists

  /** An argument as `generateArgList` reads it. */
  datatype Arg = Arg(name: string, isBlock: bool, blockname: string)

  /** The name an argument starts from: '_' before its name (or its block name). */
  function ArgBase(a: Arg): string
  {
    "_" + (if a.isBlock then a.blockname else a.name)
  }

  /**
   * The names `generateArgList` gives the arguments from index `i` on, with
   * `found` the names given so far: a name already given gets "_" + its
   * index appended once, whatever that produces.
   */
  function NamesAsWrittenFrom(args: seq<Arg>, i: nat, found: set<string>): seq<string>
    decreases |args| - i
  {
    if i >= |args| then []
    else
      var base := ArgBase(args[i]);
      var name := if base in found then base + "_" + NatToString(i) else base;
      [name] + NamesAsWrittenFrom(args, i + 1, found + {name})
  }

  /** One round of the naming: the name given at index `i`, then the rest. */
  lemma NamesAsWrittenStep(args: seq<Arg>, i: nat, found: set<string>, name: string)
    requires i < |args|
    requires name == if ArgBase(args[i]) in found then ArgBase(args[i]) + "_" + NatToString(i) else ArgBase(args[i])
    ensures NamesAsWrittenFrom(args, i, found) == [name] + NamesAsWrittenFrom(args, i + 1, found + {name})
  {
  }

  function ArgNamesAsWritten(args: seq<Arg>): seq<string>
  {
    NamesAsWrittenFrom(args, 0, {})
  }

  /** What `generateArgList` returns once the names are chosen. */
  function ArgListOf(names: seq<string>, startParens: string, endParens: string, def: string): string
  {
    if names == [] then def else startParens + Join(names, ", ") + endParens
  }

  /** `generateArgList` as written: the `map` over the arguments with the `found` object it updates. */
  method GenerateArgListAsWritten(args: seq<Arg>, startParens: string, endParens: string, def: string)
    returns (r: string)
    ensures |args| == 0 ==> r == def
    ensures r == ArgListOf(ArgNamesAsWritten(args), startParens, endParens, def)
  {
    if |args| == 0 {
      return def;
    }
    var found: set<string> := {};
    var names: seq<string> := [];
    var i := 0;
    while i < |args|
      invariant 0 <= i <= |args| && |names| == i
      invariant names + NamesAsWrittenFrom(args, i, found) == ArgNamesAsWritten(args)
    {
      var name := ArgBase(args[i]);
      if name in found {
        name := name + "_" + NatToString(i);
      }
      NamesAsWrittenStep(args, i, found, name);
      assert names + NamesAsWrittenFrom(args, i, found) == (names + [name]) + NamesAsWrittenFrom(args, i + 1, found + {name});
      found := found + {name};
      names := names + [name];
      i := i + 1;
    }
    assert NamesAsWrittenFrom(args, i, found) == [];
    assert names == ArgNamesAsWritten(args);
    assert names != [] by { assert |names| == |args|; }
    r := startParens + Join(names, ", ") + endParens;
  }

  /** An argument list that repeats a name after the renamed form was already taken. */
  const CollidingArgs: seq<Arg> := [Arg("x_2", false, ""), Arg("x", false, ""), Arg("x", false, "")]

  /**
   * As written, the names are not always distinct: for arguments named
   * `x_2`, `x`, `x` the third is renamed `_x_2`, which the first already has.
   */
  lemma ArgNamesCollideAsWritten(args: seq<Arg>)
    requires args == CollidingArgs
    ensures |ArgNamesAsWritten(args)| == 3
    ensures ArgNamesAsWritten(args)[0] == ArgNamesAsWritten(args)[2] == "_x_2"
  {
    assert NatToString(2) == "2";
    var f1: set<string> := {} + {"_x_2"};
    var f2 := f1 + {"_x"};
    assert ArgBase(args[2]) == "_x" && "_x" in f2;
    var nm := ArgBase(args[2]) + "_" + NatToString(2);
    assert nm == "_x_2";
    assert NamesAsWrittenFrom(args, 3, f2 + {nm}) == [];
    var n2 := NamesAsWrittenFrom(args, 2, f2);
    assert n2 == [nm] + NamesAsWrittenFrom(args, 3, f2 + {nm});
    assert ArgBase(args[1]) == "_x" && "_x" !in f1;
    var n1 := NamesAsWrittenFrom(args, 1, f1);
    assert n1 == ["_x"] + n2;
    assert ArgBase(args[0]) == "_x_2";
  }

  /** The strings of `found` at least `n` characters long. */
  function Longer(found: set<string>, n: nat): set<string>
  {
    set x | x in found && |x| >= n
  }

  lemma LongerShrinks(found: set<string>, name: string, m: nat)
    requires name in found && m > |name|
    ensures |Longer(found, m)| < |Longer(found, |name|)|
  {
    var a, b := Longer(found, m), Longer(found, |name|);
    assert a <= b;
    assert name in b - a;
    assert b == a + (b - a);
    assert a * (b - a) == {};
  }

  /** `name` with `suffix` appended until it is not in `found`. */
  function Fresh(name: string, suffix: string, found: set<string>): (r: string)
    requires suffix != []
    decreases |Longer(found, |name|)|
    ensures r !in found
    ensures StartsWith(r, name)
  {
    if name !in found then name
    else
      LongerShrinks(found, name, |name + suffix|);
      var r := Fresh(name + suffix, suffix, found);
      assert r[..|name|] == (name + suffix)[..|name|];
      r
  }

  /** The evidently intended naming: a taken name gets "_" + index appended until it is free. */
  function NamesFrom(args: seq<Arg>, i: nat, found: set<string>): seq<string>
    decreases |args| - i
  {
    if i >= |args| then []
    else
      var name := Fresh(ArgBase(args[i]), "_" + NatToString(i), found);
      [name] + NamesFrom(args, i + 1, found + {name})
  }

  function ArgNames(args: seq<Arg>): seq<string>
  {
    NamesFrom(args, 0, {})
  }

  /**
   * The corrected names are pairwise distinct, none was taken before, and
   * each starts with its argument's base name.
   */
  lemma {:induction false} NamesFromDistinct(args: seq<Arg>, i: nat, found: set<string>)
    decreases |args| - i
    ensures |NamesFrom(args, i, found)| == if i >= |args| then 0 else |args| - i
    ensures forall k :: 0 <= k < |NamesFrom(args, i, found)| ==> NamesFrom(args, i, found)[k] !in found
    ensures forall k :: 0 <= k < |NamesFrom(args, i, found)| ==>
              StartsWith(NamesFrom(args, i, found)[k], ArgBase(args[i + k]))
    ensures forall k, l :: 0 <= k < l < |NamesFrom(args, i, found)| ==>
              NamesFrom(args, i, found)[k] != NamesFrom(args, i, found)[l]
  {
    if i < |args| {
      var name := Fresh(ArgBase(args[i]), "_" + NatToString(i), found);
      var rest := NamesFrom(args, i + 1, found + {name});
      NamesFromDistinct(args, i + 1, found + {name});
      var r := NamesFrom(args, i, found);
      assert r == [name] + rest;
      forall k, l | 0 <= k < l < |r|
        ensures r[k] != r[l]
      {
        assert r[l] == rest[l - 1];
        if k > 0 {
          assert r[k] == rest[k - 1];
        }
      }
      forall k | 0 <= k < |r|
        ensures StartsWith(r[k], ArgBase(args[i + k]))
      {
        if k > 0 {
          assert r[k] == rest[k - 1];
        }
      }
    }
  }

  /** One name per argument, pairwise distinct, each `_` and the argument's (block) name first. */
  predicate NamesFor(args: seq<Arg>, names: seq<string>)
  {
    && |names| == |args|
    && (forall k, l :: 0 <= k < l < |names| ==> names[k] != names[l])
    && (forall k :: 0 <= k < |names| ==> StartsWith(names[k], ArgBase(args[k])))
  }

  /** `generateArgList` with the corrected naming. */
  function GenerateArgList(args: seq<Arg>, startParens: string, endParens: string, def: string): (r: string)
    ensures args == [] ==> r == def
    ensures args != [] ==> |startParens| + |endParens| <= |r|
                           && r[..|startParens|] == startParens && r[|r| - |endParens|..] == endParens
    ensures exists names :: NamesFor(args, names) && r == ArgListOf(names, startParens, endParens, def)
  {
    ArgNamesDistinct(args);
    assert NamesFor(args, ArgNames(args));
    ArgListOf(ArgNames(args), startParens, endParens, def)
  }

  /** The argument list has one distinct name per argument, and is `def` only without arguments. */
  lemma ArgNamesDistinct(args: seq<Arg>)
    ensures |ArgNames(args)| == |args|
    ensures forall k, l :: 0 <= k < l < |args| ==> ArgNames(args)[k] != ArgNames(args)[l]
    ensures forall k :: 0 <= k < |args| ==> StartsWith(ArgNames(args)[k], ArgBase(args[k]))
    ensures args == [] <==> ArgNames(args) == []
  {
    NamesFromDistinct(args, 0, {});
  }

  // ---------------------------------------------------------------- selectors and symbols

  /** `generateSetterSelector`: "set", the name with its first character upper-cased, then ':'. */
  function GenerateSetterSelector(name: string): (r: string)
    ensures |r| == |name| + 4
    ensures StartsWith(r, "set") && EndsWith(r, ":")
    ensures name != [] ==> r[3] == ToUpperChar(name[0]) && r[4..|r| - 1] == name[1..]
  {
    if name == [] then "set:" else "set" + [ToUpperChar(name[0])] + name[1..] + ":"
  }

  /** The property a setter selector sets: the text between "set" and ':' with its first character lower-cased. */
  function PropertyOfSetter(selector: string): (r: Option<string>)
  {
    if |selector| >= 4 && StartsWith(selector, "set") && EndsWith(selector, ":") then
      var n := selector[3..|selector| - 1];
      Some(if n == [] then [] else [ToLowerChar(n[0])] + n[1..])
    else None
  }

  /** A property whose name does not start with a capital letter is recovered from its setter selector. */
  lemma SetterSelectorRoundTrip(name: string)
    requires name == [] || !IsUpper(name[0])
    ensures PropertyOfSetter(GenerateSetterSelector(name)) == Some(name)
  {
    var r := GenerateSetterSelector(name);
    if name != [] {
      var n := r[3..|r| - 1];
      assert n == [ToUpperChar(name[0])] + name[1..];
      assert ToLowerChar(ToUpperChar(name[0])) == name[0];
      assert [ToLowerChar(n[0])] + n[1..] == name;
    }
  }

  /** The type tags `isObjectType` takes for objects. */
  const ObjectTypes: set<string> := {"obj_interface", "objc_pointer", "Class", "class", "id"}

  /** `isObjectType`: an object tag, or an encoding opening with '@' or '#'. */
  predicate IsObjectType(t: string, encoding: string)
  {
    t in ObjectTypes || (|encoding| > 0 && (encoding[0] == '@' || encoding[0] == '#'))
  }

  /** An object type with a one-character encoding defaults to nil. */
  lemma ObjectTypeDefaultsToNil(t: string, encoding: string)
    requires IsObjectType(t, encoding) && t !in ObjectTypes && |encoding| == 1
    ensures ToValueDefault(encoding) == Ok("nil")
  {
    assert encoding == [encoding[0]];
  }

  /** The characters `generateSafeSymbol` replaces: white space and `^ ( ) \ < > * : + ,`. */
  predicate IsSymbolBreak(c: char)
  {
    IsJsSpace(c) || c in {'^', '(', ')', '\\', '<', '>', '*', ':', '+', ','}
  }

  /** `generateSafeSymbol`: every breaking character replaced by '_'. */
  function GenerateSafeSymbol(signature: string): (r: string)
    ensures |r| == |signature|
    ensures forall i :: 0 <= i < |r| ==> r[i] == if IsSymbolBreak(signature[i]) then '_' else signature[i]
  {
    if signature == [] then []
    else [if IsSymbolBreak(signature[0]) then '_' else signature[0]] + GenerateSafeSymbol(signature[1..])
  }

  /** A safe symbol has no breaking character. */
  lemma SafeSymbolIsSafe(signature: string)
    ensures forall i :: 0 <= i < |signature| ==> !IsSymbolBreak(GenerateSafeSymbol(signature)[i])
  {
    assert !IsSymbolBreak('_') by { assert !IsJsSpace('_'); }
  }

  /** Making a safe symbol safe again changes nothing. */
  lemma SafeSymbolIdempotent(signature: string)
    ensures GenerateSafeSymbol(GenerateSafeSymbol(signature)) == GenerateSafeSymbol(signature)
  {
    var r := GenerateSafeSymbol(signature);
    SafeSymbolIsSafe(signature);
    SafeUnchanged(r);
  }

  /** A string without breaking characters is its own safe symbol. */
  lemma SafeUnchanged(r: string)
    requires forall i :: 0 <= i < |r| ==> !IsSymbolBreak(r[i])
    ensures GenerateSafeSymbol(r) == r
  {
    var g := GenerateSafeSymbol(r);
    assert forall i :: 0 <= i < |r| ==> g[i] == r[i];
  }

  // ---------------------------------------------------------------- camelCase

  /** The separators of `camelCase`'s class `[\s-_:]`. */
  predicate IsCamelSeparator(c: char)
  {
    IsJsSpace(c) || c == '-' || c == '_' || c == ':'
  }

  /**
   * The first replace of `camelCase` from index `i` on: a capital at index 0
   * is lower-cased; a separator followed by a word character becomes that
   * character upper-cased; matches do not overlap.
   */
  function CamelFrom(s: string, i: nat): (r: string)
    decreases |s| - i
    ensures i <= |s| ==> |r| <= |s| - i
  {
    if i >= |s| then []
    else if i == 0 && IsUpper(s[0]) then [ToLowerChar(s[0])] + CamelFrom(s, 1)
    else if IsCamelSeparator(s[i]) && i + 1 < |s| && IsWordChar(s[i + 1]) then
      [ToUpperChar(s[i + 1])] + CamelFrom(s, i + 2)
    else [s[i]] + CamelFrom(s, i + 1)
  }

  /** `camelCase`: the replace above, then every ':' removed. */
  function CamelCase(s: string): (r: string)
    ensures ':' !in r
    ensures |r| <= |s|
  {
    RemoveChar(CamelFrom(s, 0), ':')
  }

  /** Without separators, the scan copies every character from index `i` on. */
  lemma {:induction false} CamelFromPlain(s: string, i: nat)
    requires i > 0 || s == [] || !IsUpper(s[0])
    requires forall k :: 0 <= k < |s| ==> !IsCamelSeparator(s[k])
    decreases |s| - i
    ensures CamelFrom(s, i) == if i >= |s| then [] else s[i..]
  {
    if i < |s| {
      assert !IsCamelSeparator(s[i]) && !(i == 0 && IsUpper(s[0]));
      assert CamelFrom(s, i) == [s[i]] + CamelFrom(s, i + 1);
      CamelFromPlain(s, i + 1);
      if i + 1 < |s| {
        assert s[i..] == [s[i]] + s[i + 1..];
      } else {
        assert s[i..] == [s[i]];
      }
    }
  }

  /** A name without separators that does not open with a capital is its own camel case. */
  lemma CamelCasePlain(s: string)
    requires s == [] || !IsUpper(s[0])
    requires forall k :: 0 <= k < |s| ==> !IsCamelSeparator(s[k])
    ensures CamelCase(s) == s
  {
    CamelFromPlain(s, 0);
    assert ':' !in s by {
      forall k | 0 <= k < |s| ensures s[k] != ':' {
      }
    }
  }

  /** A separator before a word character disappears and the character is upper-cased. */
  lemma CamelSeparatorStep(s: string, i: nat)
    requires 0 < i && i + 1 < |s| && IsCamelSeparator(s[i]) && IsWordChar(s[i + 1])
    ensures CamelFrom(s, i) == [ToUpperChar(s[i + 1])] + CamelFrom(s, i + 2)
  {
  }
}
