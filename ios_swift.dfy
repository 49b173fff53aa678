/**
 * The Swift support of the iOS metabase package
 * (packages/hyperloop-ios-metabase/lib/swift.js): the Objective-C type
 * encodings of Swift type names, the mangled name of a Swift class, the
 * frameworks a Swift file imports, the resolution of a type name against a
 * metabase, and the line-by-line reading of the `swiftc -dump-ast` output
 * that collects a file's public classes.
 *
 * Running the compiler is not part of this model: the AST dump is given as
 * its lines.  Ending the process on an unknown type is an error result.
 */
module IosSwift {
  import opened Wrappers
  import opened Strs
  import opened JsStrings
  import opened Json
  import opened JsValues
  import GenUtil
  import GenStruct

  // ---------------------------------------------------------------- encodings

  /** The Objective-C encoding `getEncodingForValue` gives each lower-case type name. */
  const EncodingTable: map<string, string> := map[
    "int" := "i", "long" := "l", "float" := "f", "double" := "d", "void" := "v", "char" := "c",
    "short" := "s", "bool" := "B", "long_long" := "q", "long long" := "q", "unsigned int" := "I",
    "unsigned long" := "L", "unsigned long long" := "Q", "unsigned char" := "C", "unsigned short" := "S",
    "char *" := "*", "char_s" := "*", "id" := "@", "sel" := ":", "class" := "#"
  ]

  /**
   * `getEncodingForValue`: the encoding of a type name, whatever its case;
   * a name the table does not know is returned in lower case.
   */
  function GetEncodingForValue(value: string): (r: string)
    ensures ToLower(value) in EncodingTable ==> |r| == 1 && r == EncodingTable[ToLower(value)]
    ensures ToLower(value) !in EncodingTable ==> r == ToLower(value)
  {
    var v := ToLower(value);
    if v in EncodingTable then EncodingTable[v] else v
  }

  lemma {:induction false} ToLowerOfUpper(s: string)
    ensures ToLower(ToUpper(s)) == ToLower(s)
  {
    if s != [] {
      ToLowerOfUpper(s[1..]);
      assert ToUpper(s) == [ToUpperChar(s[0])] + ToUpper(s[1..]);
      assert ToLower(ToUpper(s)) == [ToLowerChar(ToUpperChar(s[0]))] + ToLower(ToUpper(s)[1..]);
    }
  }

  /** The encoding does not depend on the case of the name. */
  lemma EncodingIgnoresCase(value: string)
    ensures GetEncodingForValue(ToUpper(value)) == GetEncodingForValue(value)
  {
    ToLowerOfUpper(value);
  }

  /** Both spellings of a C string name encode as "*", in any case. */
  lemma CharPointerEncodings(a: string, b: string)
    requires a == "CHAR *" && b == "Char_S"
    ensures GetEncodingForValue(a) == "*" && GetEncodingForValue(b) == "*"
  {
    assert ToLower(a) == "char *";
    assert ToLower(b) == "char_s";
  }

  /** An unknown Swift type name is returned lower-cased, not as an unknown-type code. */
  lemma UnknownEncodingLowercased(a: string)
    requires a == "CGFloat"
    ensures GetEncodingForValue(a) == "cgfloat"
  {
    assert ToLower(a) == "cgfloat";
  }

  // ---------------------------------------------------------------- mangled names

  /** `generateSwiftMangledClassName`: "_TtC", then each name after its length. */
  function GenerateSwiftMangledClassName(appName: string, className: string): (r: string)
    ensures |r| == 4 + |NatToString(|appName|)| + |appName| + |NatToString(|className|)| + |className|
  {
    "_TtC" + NatToString(|appName|) + appName + NatToString(|className|) + className
  }

  /** The end of the run of digits that starts at `i`. */
  function DigitRunEnd(s: string, i: nat): (e: nat)
    requires i <= |s|
    ensures i <= e <= |s|
    ensures forall k :: i <= k < e ==> IsDigit(s[k])
    ensures e == |s| || !IsDigit(s[e])
    decreases |s| - i
  {
    if i < |s| && IsDigit(s[i]) then DigitRunEnd(s, i + 1) else i
  }

  /** A length-prefixed name at `i`: its decimal length, then that many characters; and where it ends. */
  function ReadLengthPrefixed(s: string, i: nat): (r: Option<(string, nat)>)
    requires i <= |s|
    ensures r.Some? ==> i < r.value.1 <= |s|
    ensures r.Some? ==> |r.value.0| < r.value.1 - i && r.value.0 == s[r.value.1 - |r.value.0|..r.value.1]
  {
    var e := DigitRunEnd(s, i);
    assert AllDigits(s[i..e]);
    if e == i then None
    else
      var n := DigitsValue(s[i..e]);
      if e + n <= |s| then Some((s[e..e + n], e + n)) else None
  }

  /** The application and class names a mangled class name was built from. */
  function DemangleClassName(s: string): (r: Option<(string, string)>)
    ensures r.Some? ==> StartsWith(s, "_TtC") && |r.value.0| + |r.value.1| + 6 <= |s|
    ensures r.Some? ==> s[|s| - |r.value.1|..] == r.value.1
  {
    if !StartsWith(s, "_TtC") then None
    else
      match ReadLengthPrefixed(s, 4)
      case None => None
      case Some((app, j)) =>
        match ReadLengthPrefixed(s, j)
        case None => None
        case Some((cls, k)) => if k == |s| then Some((app, cls)) else None
  }

  lemma ReadLengthPrefixedOf(s: string, i: nat, e: nat, name: string)
    requires i <= e <= |s| && s[i..e] == NatToString(|name|)
    requires e + |name| <= |s| && s[e..e + |name|] == name
    requires e == |s| || !IsDigit(s[e])
    ensures ReadLengthPrefixed(s, i) == Some((name, e + |name|))
  {
    NatToStringValue(|name|);
    DigitRunEndOfDigits(s, i, e);
    ReadLengthPrefixedAt(s, i, e, |name|);
  }

  lemma DigitRunEndOfDigits(s: string, i: nat, e: nat)
    requires i <= e <= |s| && AllDigits(s[i..e])
    requires e == |s| || !IsDigit(s[e])
    ensures DigitRunEnd(s, i) == e
  {
    forall k | i <= k < e
      ensures IsDigit(s[k])
    {
      assert s[k] == s[i..e][k - i];
    }
    DigitRunEndIs(s, i, e);
  }

  lemma ReadLengthPrefixedAt(s: string, i: nat, e: nat, n: nat)
    requires i < e <= |s| && DigitRunEnd(s, i) == e
    requires AllDigits(s[i..e]) && DigitsValue(s[i..e]) == n && e + n <= |s|
    ensures ReadLengthPrefixed(s, i) == Some((s[e..e + n], e + n))
  {
  }

  lemma {:induction false} DigitRunEndIs(s: string, i: nat, e: nat)
    requires i <= e <= |s|
    requires forall k :: i <= k < e ==> IsDigit(s[k])
    requires e == |s| || !IsDigit(s[e])
    ensures DigitRunEnd(s, i) == e
    decreases e - i
  {
    if i < e {
      DigitRunEndIs(s, i + 1, e);
    }
  }

  lemma ConcatParts4(x: string, y: string, z: string, w: string)
    ensures (x + y + z + w)[|x|..|x| + |y|] == y
    ensures (x + y + z + w)[|x| + |y|..|x| + |y| + |z|] == z
    ensures z + w != [] ==> (x + y + z + w)[|x| + |y|] == (z + w)[0]
  {
    assert x + y + z + w == x + y + (z + w);
  }

  /** The name written after its length, at `i`, is read back, with what follows it left over. */
  lemma ReadPrefixedAfter(s: string, i: nat, x: string, name: string, rest: string)
    requires s == x + NatToString(|name|) + name + rest && i == |x|
    requires name + rest == [] || !IsDigit((name + rest)[0])
    ensures ReadLengthPrefixed(s, i) == Some((name, i + |NatToString(|name|)| + |name|))
  {
    var d := NatToString(|name|);
    ConcatParts4(x, d, name, rest);
    ReadLengthPrefixedOf(s, i, i + |d|, name);
  }

  lemma MangledAppName(appName: string, className: string)
    requires appName != [] && !IsDigit(appName[0])
    ensures
      var s := GenerateSwiftMangledClassName(appName, className);
      ReadLengthPrefixed(s, 4) == Some((appName, 4 + |NatToString(|appName|)| + |appName|))
  {
    var s := GenerateSwiftMangledClassName(appName, className);
    var rest := NatToString(|className|) + className;
    assert (appName + rest)[0] == appName[0];
    assert s == "_TtC" + NatToString(|appName|) + appName + rest;
    ReadPrefixedAfter(s, 4, "_TtC", appName, rest);
  }

  lemma MangledClassName(appName: string, className: string)
    requires className == [] || !IsDigit(className[0])
    ensures
      var s := GenerateSwiftMangledClassName(appName, className);
      var j := 4 + |NatToString(|appName|)| + |appName|;
      ReadLengthPrefixed(s, j) == Some((className, |s|))
  {
    var s := GenerateSwiftMangledClassName(appName, className);
    var x := "_TtC" + NatToString(|appName|) + appName;
    assert className + [] == className;
    assert s == x + NatToString(|className|) + className + [];
    var j := 4 + |NatToString(|appName|)| + |appName|;
    assert |x| == j && j + |NatToString(|className|)| + |className| == |s|;
    ReadPrefixedAfter(s, j, x, className, []);
  }

  /** A mangled class name decodes to the names it was built from. */
  lemma MangledNameRoundTrip(appName: string, className: string)
    requires appName != [] && !IsDigit(appName[0])
    requires className == [] || !IsDigit(className[0])
    ensures DemangleClassName(GenerateSwiftMangledClassName(appName, className)) == Some((appName, className))
  {
    var s := GenerateSwiftMangledClassName(appName, className);
    assert s[..4] == "_TtC";
    MangledAppName(appName, className);
    MangledClassName(appName, className);
  }

  /** `generateSwiftMangledClassName('a', 'b')` is "_TtC1a1b". */
  lemma MangledNameExample(appName: string, className: string)
    requires appName == "a" && className == "b"
    ensures GenerateSwiftMangledClassName(appName, className) == "_TtC1a1b"
  {
    assert NatToString(1) == "1";
  }

  // ---------------------------------------------------------------- imports

  /** The end of the run of `\s` characters that starts at `i`. */
  function SpaceRunEnd(s: string, i: nat): (e: nat)
    requires i <= |s|
    ensures i <= e <= |s|
    ensures forall k :: i <= k < e ==> IsJsSpace(s[k])
    ensures e == |s| || !IsJsSpace(s[e])
    decreases |s| - i
  {
    if i < |s| && IsJsSpace(s[i]) then SpaceRunEnd(s, i + 1) else i
  }

  /** The end of the run of `\w` characters that starts at `i`. */
  function WordRunEnd(s: string, i: nat): (e: nat)
    requires i <= |s|
    ensures i <= e <= |s|
    ensures forall k :: i <= k < e ==> IsWordChar(s[k])
    ensures e == |s| || !IsWordChar(s[e])
    decreases |s| - i
  {
    if i < |s| && IsWordChar(s[i]) then WordRunEnd(s, i + 1) else i
  }

  /**
   * A match of `/import\s*(\w+)/` at `i`: the word, which is what
   * `substring(6)` and `trim` leave of the match, and where the match ends.
   */
  function ImportAt(s: string, i: nat): (r: Option<(string, nat)>)
    requires i <= |s|
    ensures r.Some? ==> i < r.value.1 <= |s| && r.value.0 != []
    ensures r.Some? ==> forall k :: 0 <= k < |r.value.0| ==> IsWordChar(r.value.0[k])
  {
    if !MatchAt(s, "import", i) then None
    else
      var j := SpaceRunEnd(s, i + 6);
      var k := WordRunEnd(s, j);
      if k == j then None else Some((s[j..k], k))
  }

  /** The global match from `i` on: each match, then the search resumes where it ended. */
  function ImportsFrom(s: string, i: nat): (r: seq<string>)
    requires i <= |s|
    ensures forall x :: x in r ==> x != [] && forall k :: 0 <= k < |x| ==> IsWordChar(x[k])
    decreases |s| - i
  {
    if i == |s| then []
    else
      match ImportAt(s, i)
      case Some((word, k)) => [word] + ImportsFrom(s, k)
      case None => ImportsFrom(s, i + 1)
  }

  /** `extractImports` as written: the word after every "import", in order. */
  function ExtractImports(buf: string): (r: seq<string>)
    ensures r == ImportsFrom(buf, 0)
    ensures forall x :: x in r ==> x != [] && forall k :: 0 <= k < |x| ==> IsWordChar(x[k])
  {
    ImportsFrom(buf, 0)
  }

  /** One position of the global match: a match there yields its word and the search resumes after it. */
  lemma ImportsFromStep(s: string, i: nat)
    requires i < |s|
    ensures ImportAt(s, i).Some? ==> ImportsFrom(s, i) == [ImportAt(s, i).value.0] + ImportsFrom(s, ImportAt(s, i).value.1)
    ensures ImportAt(s, i).None? ==> ImportsFrom(s, i) == ImportsFrom(s, i + 1)
  {
  }

  /** With no match of the pattern from `i` on, nothing more is imported. */
  lemma {:induction false} ImportsFromNone(s: string, i: nat)
    requires i <= |s|
    requires forall j :: i <= j <= |s| ==> ImportAt(s, j).None?
    ensures ImportsFrom(s, i) == []
    decreases |s| - i
  {
    if i < |s| {
      ImportsFromNone(s, i + 1);
    }
  }

  /**
   * The next import is the word of the first match at or after `i`, and the
   * search resumes where that match ends.
   */
  lemma {:induction false} ImportsFromFirst(s: string, i: nat, m: nat)
    requires i <= m <= |s|
    requires forall j :: i <= j < m ==> ImportAt(s, j).None?
    requires ImportAt(s, m).Some?
    ensures ImportsFrom(s, i) == [ImportAt(s, m).value.0] + ImportsFrom(s, ImportAt(s, m).value.1)
    decreases m - i
  {
    if i < m {
      ImportsFromFirst(s, i + 1, m);
    }
  }

  /** Every import is the word of some match at or after `i`. */
  lemma {:induction false} ImportsFromSound(s: string, i: nat, x: string)
    requires i <= |s| && x in ImportsFrom(s, i)
    ensures exists j :: i <= j <= |s| && ImportAt(s, j).Some? && ImportAt(s, j).value.0 == x
    decreases |s| - i
  {
    if i < |s| {
      match ImportAt(s, i)
      case Some((w, k)) =>
        if x != w {
          ImportsFromSound(s, k, x);
        }
      case None =>
        ImportsFromSound(s, i + 1, x);
    }
  }

  /** A file that starts with `import Name` names `Name` first. */
  lemma ImportFirst(name: string, rest: string)
    requires name != [] && forall k :: 0 <= k < |name| ==> IsWordChar(name[k])
    requires rest == [] || !IsWordChar(rest[0])
    ensures ExtractImports("import " + name + rest) == [name] + ImportsFrom("import " + name + rest, 7 + |name|)
  {
    var s := "import " + name + rest;
    assert s[..6] == "import";
    assert s[6] == ' ';
    assert IsJsSpace(s[6]);
    if 7 < |s| {
      assert s[7] == name[0];
    }
    SpaceRunEndIs(s, 6, 7);
    forall k | 7 <= k < 7 + |name|
      ensures IsWordChar(s[k])
    {
      assert s[k] == name[k - 7];
    }
    if 7 + |name| < |s| {
      assert s[7 + |name|] == rest[0];
    }
    WordRunEndIs(s, 7, 7 + |name|);
    assert s[7..7 + |name|] == name;
  }

  lemma {:induction false} SpaceRunEndIs(s: string, i: nat, e: nat)
    requires i <= e <= |s|
    requires forall k :: i <= k < e ==> IsJsSpace(s[k])
    requires e == |s| || !IsJsSpace(s[e])
    ensures SpaceRunEnd(s, i) == e
    decreases e - i
  {
    if i < e {
      SpaceRunEndIs(s, i + 1, e);
    }
  }

  lemma {:induction false} WordRunEndIs(s: string, i: nat, e: nat)
    requires i <= e <= |s|
    requires forall k :: i <= k < e ==> IsWordChar(s[k])
    requires e == |s| || !IsWordChar(s[e])
    ensures WordRunEnd(s, i) == e
    decreases e - i
  {
    if i < e {
      WordRunEndIs(s, i + 1, e);
    }
  }

  /** The keyword `import` as a word of its own at `i`, followed by white space. */
  predicate ImportKeywordAt(s: string, i: nat)
  {
    MatchAt(s, "import", i) && (i == 0 || !IsWordChar(s[i - 1]))
    && i + 6 < |s| && IsJsSpace(s[i + 6])
  }

  /** As written, a word that merely contains "import" yields an import of its tail. */
  lemma ImportInsideWordAsWritten(buf: string)
    requires buf == "important"
    ensures forall i :: 0 <= i <= |buf| ==> !ImportKeywordAt(buf, i)
    ensures ExtractImports(buf) == ["ant"]
  {
    assert buf[..6] == "import";
    assert !IsJsSpace(buf[6]);
    forall i | 0 <= i <= |buf|
      ensures !ImportKeywordAt(buf, i)
    {
      if 1 <= i <= 3 {
        assert buf[i..i + 6][0] == buf[i] != 'i';
      }
    }
    SpaceRunEndIs(buf, 6, 6);
    WordRunEndIs(buf, 6, 9);
    assert buf[6..9] == "ant";
    assert ImportAt(buf, 0) == Some(("ant", 9));
    assert ImportsFrom(buf, 9) == [];
    assert ImportsFrom(buf, 0) == ["ant"] + ImportsFrom(buf, 9);
  }

  /** `extractImports` with the keyword required to stand alone: `/\bimport\s+(\w+)/`. */
  function ImportAtCorrected(s: string, i: nat): (r: Option<(string, nat)>)
    requires i <= |s|
    ensures r.Some? ==> i < r.value.1 <= |s| && r.value.0 != [] && ImportKeywordAt(s, i)
  {
    if !ImportKeywordAt(s, i) then None
    else
      var j := SpaceRunEnd(s, i + 6);
      var k := WordRunEnd(s, j);
      if k == j then None else Some((s[j..k], k))
  }

  function ImportsFromCorrected(s: string, i: nat): (r: seq<string>)
    requires i <= |s|
    ensures (forall j :: i <= j <= |s| ==> !ImportKeywordAt(s, j)) ==> r == []
    decreases |s| - i
  {
    if i == |s| then []
    else
      match ImportAtCorrected(s, i)
      case Some((word, k)) => [word] + ImportsFromCorrected(s, k)
      case None => ImportsFromCorrected(s, i + 1)
  }

  /** The corrected `extractImports`: a buffer without the keyword imports nothing. */
  function ExtractImportsCorrected(buf: string): (r: seq<string>)
    ensures (forall i :: 0 <= i <= |buf| ==> !ImportKeywordAt(buf, i)) ==> r == []
  {
    ImportsFromCorrected(buf, 0)
  }

  // ---------------------------------------------------------------- struct encodings

  /** The type name `field.type || field.value` gives, when it is a string. */
  function FieldTypeName(field: Json): (r: Option<string>)
    ensures IsTruthyOpt(Prop(field, "type")) ==>
              (r.Some? <==> Prop(field, "type").value.JStr?) && (r.Some? ==> r.value == Prop(field, "type").value.s)
    ensures !IsTruthyOpt(Prop(field, "type")) ==>
              (r.Some? <==> Prop(field, "value").Some? && Prop(field, "value").value.JStr?)
              && (r.Some? ==> r.value == Prop(field, "value").value.s)
  {
    var t := Prop(field, "type");
    var v := if IsTruthyOpt(t) then t else Prop(field, "value");
    if v.Some? && v.value.JStr? then Some(v.value.s) else None
  }

  /**
   * `field.encoding || getEncodingForValue(field.type || field.value)`: a
   * truthy own encoding wins; otherwise the type name is encoded, and a
   * name that is not a string has no `toLowerCase`.
   */
  function FieldEncoding(field: Json): (r: Result<string>)
    ensures field.JNull? ==> r.Err?
    ensures !field.JNull? && IsTruthyOpt(Prop(field, "encoding")) ==>
              r == Ok(JsToString(Prop(field, "encoding").value))
    ensures !field.JNull? && !IsTruthyOpt(Prop(field, "encoding")) ==>
              (r.Ok? <==> FieldTypeName(field).Some?)
              && (r.Ok? ==> r.value == GetEncodingForValue(FieldTypeName(field).value))
  {
    if field.JNull? then Err("TypeError: Cannot read property 'encoding' of null")
    else
      var enc := Prop(field, "encoding");
      if IsTruthyOpt(enc) then Ok(JsToString(enc.value))
      else
        match FieldTypeName(field)
        case Some(name) => Ok(GetEncodingForValue(name))
        case None => Err("TypeError: value.toLowerCase is not a function")
  }

  /** The encodings of the fields, concatenated in order. */
  function FieldsEncoding(fields: seq<Json>): (r: Result<string>)
    ensures fields == [] ==> r == Ok("")
    ensures r.Ok? <==> forall k :: 0 <= k < |fields| ==> FieldEncoding(fields[k]).Ok?
  {
    if fields == [] then Ok("")
    else
      match FieldEncoding(fields[0])
      case Err(e) => Err(e)
      case Ok(first) =>
        match FieldsEncoding(fields[1..])
        case Err(e) => Err(e)
        case Ok(rest) => Ok(first + rest)
  }

  /** One field alone encodes to its own encoding. */
  lemma FieldsEncodingSingle(field: Json)
    ensures FieldsEncoding([field]) == FieldEncoding(field)
  {
    assert [field][1..] == [];
    if FieldEncoding(field).Ok? {
      assert FieldEncoding(field).value + "" == FieldEncoding(field).value;
    }
  }

  /** The encodings of two runs of fields are those of each run, one after the other. */
  lemma {:induction false} FieldsEncodingAppend(a: seq<Json>, b: seq<Json>)
    requires FieldsEncoding(a).Ok? && FieldsEncoding(b).Ok?
    ensures FieldsEncoding(a + b) == Ok(FieldsEncoding(a).value + FieldsEncoding(b).value)
    decreases |a|
  {
    if a == [] {
      assert a + b == b;
      assert FieldsEncoding(a).value + FieldsEncoding(b).value == FieldsEncoding(b).value;
    } else {
      assert (a + b)[0] == a[0];
      assert (a + b)[1..] == a[1..] + b;
      FieldsEncodingAppend(a[1..], b);
      var first := FieldEncoding(a[0]).value;
      var restA := FieldsEncoding(a[1..]).value;
      var rb := FieldsEncoding(b).value;
      assert FieldsEncoding(a).value == first + restA;
      assert FieldsEncoding(a + b) == Ok(first + (restA + rb));
      assert first + (restA + rb) == first + restA + rb;
    }
  }

  /**
   * `structDefinitionToEncoding`: "{", the name, "=", the encoding of each
   * field, "}"; a struct without a field list has no field encodings.
   */
  function StructDefinitionToEncoding(def: Json): (r: Result<string>)
    ensures def.JNull? ==> r.Err?
    ensures !def.JNull? && !IsTruthyOpt(Prop(def, "fields")) ==>
              r == Ok(GenUtil.StructEncoding(OptToString(Prop(def, "name")), ""))
    ensures !def.JNull? && IsTruthyOpt(Prop(def, "fields")) ==>
              (r.Ok? <==> Prop(def, "fields").value.JArr? && FieldsEncoding(Prop(def, "fields").value.items).Ok?)
    ensures !def.JNull? && IsTruthyOpt(Prop(def, "fields")) && r.Ok? ==>
              r.value == GenUtil.StructEncoding(OptToString(Prop(def, "name")), FieldsEncoding(Prop(def, "fields").value.items).value)
    ensures r.Ok? ==> StartsWith(r.value, "{" + OptToString(Prop(def, "name")) + "=") && EndsWith(r.value, "}")
  {
    if def.JNull? then Err("TypeError: Cannot read property 'name' of null")
    else
      var name := OptToString(Prop(def, "name"));
      var fields := Prop(def, "fields");
      var body :=
        if !IsTruthyOpt(fields) then Ok("")
        else if fields.value.JArr? then FieldsEncoding(fields.value.items)
        else Err("TypeError: value.fields.forEach is not a function");
      match body
      case Err(e) => Err(e)
      case Ok(encodings) =>
        var r := GenUtil.StructEncoding(name, encodings);
        assert r[..|"{" + name + "="|] == "{" + name + "=";
        assert r[|r| - 1..] == "}";
        Ok(r)
  }

  /** The generator reads back the struct name from the encoding built here. */
  lemma StructDefinitionNameRoundTrip(def: Json, name: string)
    requires Prop(def, "name") == Some(JStr(name)) && GenUtil.IsPlainStructName(name)
    requires StructDefinitionToEncoding(def).Ok?
    ensures GenUtil.GetStructNameFromEncoding(StructDefinitionToEncoding(def).value) == Some(name)
  {
    var fields := Prop(def, "fields");
    var encodings :=
      if !IsTruthyOpt(fields) then "" else FieldsEncoding(fields.value.items).value;
    assert StructDefinitionToEncoding(def).value == GenUtil.StructEncoding(name, encodings);
    GenUtil.StructNameRoundTrip(name, encodings);
  }

  /** Field objects that carry non-empty encodings encode to those encodings, in order. */
  lemma {:induction false} FieldsEncodingOfObjects(fields: seq<GenStruct.Enc>)
    requires forall k :: 0 <= k < |fields| ==> GenStruct.Encode(fields[k]) != []
    ensures FieldsEncoding(GenStruct.EncodingObjects(fields)) == Ok(GenStruct.EncodeAll(fields))
    decreases |fields|
  {
    if fields != [] {
      var init := fields[..|fields| - 1];
      var last := fields[|fields| - 1];
      var obj := JObj(map["encoding" := JStr(GenStruct.Encode(last))]);
      assert GenStruct.EncodingObjects(fields) == GenStruct.EncodingObjects(init) + [obj];
      FieldsEncodingOfObjects(init);
      assert Prop(obj, "encoding") == Some(JStr(GenStruct.Encode(last)));
      assert FieldEncoding(obj) == Ok(GenStruct.Encode(last));
      FieldsEncodingSingle(obj);
      FieldsEncodingAppend(GenStruct.EncodingObjects(init), [obj]);
      GenStruct.EncodeAllSnoc(init, last);
      assert init + [last] == fields;
    }
  }

  /** A struct whose fields carry their (non-empty) encodings encodes as `{name=...}` over them. */
  lemma StructDefinitionOfObjects(def: Json, name: string, fields: seq<GenStruct.Enc>)
    requires forall k :: 0 <= k < |fields| ==> GenStruct.Encode(fields[k]) != []
    requires Prop(def, "name") == Some(JStr(name))
    requires Prop(def, "fields") == Some(JArr(GenStruct.EncodingObjects(fields)))
    ensures StructDefinitionToEncoding(def) == Ok(GenUtil.StructEncoding(name, GenStruct.EncodeAll(fields)))
  {
    assert OptToString(Some(JStr(name))) == name;
    assert IsTruthyOpt(Prop(def, "fields"));
    FieldsEncodingOfObjects(fields);
  }

  /**
   * The Swift generator encodes a struct as `makeStruct` does when its
   * fields carry their (non-empty) encodings.
   */
  lemma StructDefinitionAgreesWithMakeStruct(name: string, fields: seq<GenStruct.Enc>)
    requires forall k :: 0 <= k < |fields| ==> GenStruct.Encode(fields[k]) != []
    ensures
      var m := map["name" := JStr(name), "fields" := JArr(GenStruct.EncodingObjects(fields))];
      StructDefinitionToEncoding(JObj(m)) == GenStruct.StructEncodingOf(m)
  {
    var m := map["name" := JStr(name), "fields" := JArr(GenStruct.EncodingObjects(fields))];
    assert "name" in m && m["name"] == JStr(name);
    assert "fields" in m && m["fields"] == JArr(GenStruct.EncodingObjects(fields));
    StructDefinitionOfObjects(JObj(m), name, fields);
    GenStruct.MakeStructOfFields(name, fields);
  }

  // ---------------------------------------------------------------- type resolution

  /**
   * What `resolveType` reads from the metabase: the names of its classes
   * (none when the metabase has no `classes` object), its structs and its
   * typedefs.
   */
  datatype Env = Env(classes: Option<set<string>>, structs: map<string, Json>, typedefs: map<string, Json>)

  /** A resolved type: the `value`, `type` and `encoding` properties; the last two may be undefined. */
  datatype TypeInfo = TypeInfo(value: string, typ: Option<Json>, encoding: Option<Json>)

  predicate IsClassIn(env: Env, value: string)
  {
    env.classes.Some? && value in env.classes.value
  }

  /**
   * `resolveType`: a primitive (by its lower-case name), a class (encoded
   * "@"), a struct (its struct encoding), a typedef (its own type and
   * encoding), tried in this order; any other name ends the process.
   */
  function ResolveType(env: Env, value: string): (r: Result<TypeInfo>)
    ensures GenUtil.IsPrimitive(ToLower(value)) ==>
              r == Ok(TypeInfo(ToLower(value), Some(JStr(ToLower(value))), Some(JStr(GetEncodingForValue(ToLower(value))))))
    ensures !GenUtil.IsPrimitive(ToLower(value)) && IsClassIn(env, value) ==>
              r == Ok(TypeInfo(value, Some(JStr(value)), Some(JStr("@"))))
    ensures !GenUtil.IsPrimitive(ToLower(value)) && !IsClassIn(env, value) && value in env.structs ==>
              (r.Ok? <==> StructDefinitionToEncoding(env.structs[value]).Ok?)
              && (r.Ok? ==> r.value == TypeInfo(value, Some(JStr(value)), Some(JStr(StructDefinitionToEncoding(env.structs[value]).value))))
    ensures !GenUtil.IsPrimitive(ToLower(value)) && !IsClassIn(env, value) && value !in env.structs
            && value in env.typedefs && !env.typedefs[value].JNull? ==>
              r == Ok(TypeInfo(value, Prop(env.typedefs[value], "type"), Prop(env.typedefs[value], "encoding")))
    ensures r.Ok? ==> r.value.value == value || r.value.value == ToLower(value)
    ensures r.Err? ==> !GenUtil.IsPrimitive(ToLower(value)) && !IsClassIn(env, value)
                       && (value in env.structs ==> StructDefinitionToEncoding(env.structs[value]).Err?)
                       && (value !in env.structs && value in env.typedefs ==> env.typedefs[value].JNull?)
  {
    var lower := ToLower(value);
    if GenUtil.IsPrimitive(lower) then
      Ok(TypeInfo(lower, Some(JStr(lower)), Some(JStr(GetEncodingForValue(lower)))))
    else if IsClassIn(env, value) then
      Ok(TypeInfo(value, Some(JStr(value)), Some(JStr("@"))))
    else if value in env.structs then
      match StructDefinitionToEncoding(env.structs[value])
      case Err(e) => Err(e)
      case Ok(encoding) => Ok(TypeInfo(value, Some(JStr(value)), Some(JStr(encoding))))
    else if value in env.typedefs then
      var typedef := env.typedefs[value];
      if typedef.JNull? then Err("TypeError: Cannot read property 'type' of null")
      else Ok(TypeInfo(value, Prop(typedef, "type"), Prop(typedef, "encoding")))
    else
      Err("Swift Generation failed with unknown or unsupported type (" + value + ")")
  }

  /** A class of the metabase wins over a struct or typedef of the same name. */
  lemma ClassBeforeStructAndTypedef(env: Env, value: string)
    requires !GenUtil.IsPrimitive(ToLower(value)) && IsClassIn(env, value)
    requires value in env.structs || value in env.typedefs
    ensures ResolveType(env, value).Ok? && ResolveType(env, value).value.encoding == Some(JStr("@"))
  {
  }

  /** A struct of the metabase wins over a typedef of the same name. */
  lemma StructBeforeTypedef(env: Env, value: string)
    requires !GenUtil.IsPrimitive(ToLower(value)) && !IsClassIn(env, value)
    requires value in env.structs && value in env.typedefs
    requires StructDefinitionToEncoding(env.structs[value]).Ok?
    ensures ResolveType(env, value) == Ok(TypeInfo(value, Some(JStr(value)), Some(JStr(StructDefinitionToEncoding(env.structs[value]).value))))
  {
  }

  /** A name that is no primitive, class, struct or typedef cannot be resolved. */
  lemma UnknownTypeFails(env: Env, value: string)
    requires !GenUtil.IsPrimitive(ToLower(value)) && !IsClassIn(env, value)
    requires value !in env.structs && value !in env.typedefs
    ensures ResolveType(env, value).Err?
  {
  }
}
