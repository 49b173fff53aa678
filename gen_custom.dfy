/**
 * Custom classes defined from JavaScript with `Hyperloop.defineClass` and
 * `addMethod` (iphone/hooks/generate/custom.js): the Objective-C type
 * encoding of a method (`v@:^vi`) is decoded against the metabase into
 * argument and return descriptions, friendly type names (`'float'`,
 * `'UIView'`) are encoded into it, and each `addMethod` spec is normalised
 * and recorded on its class.
 */
module GenCustom {
  import opened Wrappers
  import opened Strs
  import opened JsStrings
  import opened Json
  import opened JsValues
  import opened GenUtil

  // ---------------------------------------------------------------- count

  /** `count(str, find)` for a one-character `find`: how often it occurs. */
  function CountChar(s: string, c: char): (r: nat)
    ensures r <= |s|
  {
    if s == [] then 0 else (if s[0] == c then 1 else 0) + CountChar(s[1..], c)
  }

  /** Counting distributes over concatenation. */
  lemma {:induction false} CountCharAppend(a: string, b: string, c: char)
    ensures CountChar(a + b, c) == CountChar(a, c) + CountChar(b, c)
  {
    if a == [] {
      assert a + b == b;
    } else {
      assert (a + b)[0] == a[0] && (a + b)[1..] == a[1..] + b;
      CountCharAppend(a[1..], b, c);
    }
  }

  // ---------------------------------------------------------------- decodeStruct

  /** As many `{` as `}`. */
  predicate Balanced(s: string)
  {
    CountChar(s, '{') == CountChar(s, '}')
  }

  /**
   * The first index at or after `from` holding a `}` that closes a balanced
   * slice starting at `offset`, or None when no `}` does.
   */
  function BalancedEnd(str: string, offset: nat, from: nat): (r: Option<nat>)
    requires offset <= from
    decreases |str| - from
    ensures r.Some? ==> from <= r.value < |str| && str[r.value] == '}'
  {
    if from >= |str| then None
    else if str[from] == '}' && Balanced(str[offset..from + 1]) then Some(from)
    else BalancedEnd(str, offset, from + 1)
  }

  /**
   * What `decodeStruct(str, offset)` returns: the shortest slice from
   * `offset` that ends in `}` and balances its braces, or the whole string
   * when there is none.
   */
  function DecodeStructSpec(str: string, offset: nat): (r: string)
    ensures offset < |str| ==> |r| >= 1
  {
    if offset > |str| then str
    else
      match BalancedEnd(str, offset, offset)
      case Some(i) => str[offset..i + 1]
      case None => str
  }

  /** The balanced end closes a balanced slice. */
  lemma {:induction false} BalancedEndBalanced(str: string, offset: nat, from: nat)
    requires offset <= from
    decreases |str| - from
    ensures BalancedEnd(str, offset, from).Some? ==> Balanced(str[offset..BalancedEnd(str, offset, from).value + 1])
  {
    if from < |str| && !(str[from] == '}' && Balanced(str[offset..from + 1])) {
      BalancedEndBalanced(str, offset, from + 1);
    }
  }

  /**
   * The decoded structure is the shortest balanced slice from `offset`
   * ending in `}`: no earlier `}` balances; with no balancing `}` at all
   * it is the whole string.
   */
  lemma DecodeStructShortest(str: string, offset: nat)
    requires offset < |str|
    ensures var r := DecodeStructSpec(str, offset);
      (offset + |r| <= |str| && r == str[offset..offset + |r|] && r[|r| - 1] == '}' && Balanced(r) &&
       forall j :: offset <= j < offset + |r| - 1 && str[j] == '}' ==> !Balanced(str[offset..j + 1]))
      ||
      (r == str && forall j :: offset <= j < |str| && str[j] == '}' ==> !Balanced(str[offset..j + 1]))
  {
    BalancedEndBalanced(str, offset, offset);
    var e := BalancedEnd(str, offset, offset);
    var stop := if e.Some? then e.value else |str|;
    forall j | offset <= j < stop && str[j] == '}'
      ensures !Balanced(str[offset..j + 1])
    {
      BalancedEndFirst(str, offset, offset, j);
    }
  }

  /** No `}` before the balanced end, or anywhere when there is none, closes a balanced slice. */
  lemma {:induction false} BalancedEndFirst(str: string, offset: nat, from: nat, j: nat)
    requires offset <= from <= j < |str| && str[j] == '}'
    requires BalancedEnd(str, offset, from).Some? ==> j < BalancedEnd(str, offset, from).value
    decreases j - from
    ensures !Balanced(str[offset..j + 1])
  {
    if from < j {
      BalancedEndFirst(str, offset, from + 1, j);
    }
  }

  /** Skipping characters that are not `}` does not change the balanced end. */
  lemma {:induction false} BalancedEndSkip(str: string, offset: nat, from: nat, stop: nat)
    requires offset <= from <= stop <= |str|
    requires forall j :: from <= j < stop ==> str[j] != '}'
    decreases stop - from
    ensures BalancedEnd(str, offset, from) == BalancedEnd(str, offset, stop)
  {
    if from < stop {
      BalancedEndSkip(str, offset, from + 1, stop);
    }
  }

  /** A one-character pattern matches exactly where that character is. */
  lemma MatchAtChar(s: string, c: char, j: int)
    ensures MatchAt(s, [c], j) <==> 0 <= j < |s| && s[j] == c
  {
    if 0 <= j < |s| {
      assert s[j..j + 1] == [s[j]];
    }
  }

  /** `str.indexOf('}', from)`. */
  function NextBrace(str: string, from: nat): (r: Option<nat>)
    ensures r.Some? ==> from <= r.value < |str| && str[r.value] == '}'
  {
    var i := FindFrom(str, "}", from);
    if i.Some? then MatchAtChar(str, '}', i.value); i else i
  }

  /** The balanced end is found at the next `}` or later. */
  lemma NextBraceBalancedEnd(str: string, offset: nat, from: nat)
    requires offset <= from <= |str|
    ensures BalancedEnd(str, offset, from) ==
      (if NextBrace(str, from).Some? then BalancedEnd(str, offset, NextBrace(str, from).value) else None)
  {
    var i := FindFrom(str, "}", from);
    FindFromFirst(str, "}", from);
    var stop := if i.Some? then i.value else |str|;
    forall j | from <= j < stop
      ensures str[j] != '}'
    {
      MatchAtChar(str, '}', j);
    }
    BalancedEndSkip(str, offset, from, stop);
  }

  /**
   * The loop's state: `i` is a `}` at or after `offset` (or None), and the
   * balanced end from `offset` is the one found from `i`.
   */
  predicate Searching(str: string, offset: nat, i: Option<nat>)
  {
    offset <= |str| &&
    (i.Some? ==> offset <= i.value < |str| && str[i.value] == '}') &&
    BalancedEnd(str, offset, offset) == (if i.Some? then BalancedEnd(str, offset, i.value) else None)
  }

  /** The first `}` from `offset` starts the search. */
  lemma SearchStart(str: string, offset: nat)
    requires offset <= |str|
    ensures Searching(str, offset, NextBrace(str, offset))
  {
    NextBraceBalancedEnd(str, offset, offset);
  }

  /**
   * At a `}`: a balanced slice up to it is the decoded structure, and an
   * unbalanced one passes the search on to the next `}`.
   */
  lemma SearchStep(str: string, offset: nat, i: nat)
    requires Searching(str, offset, Some(i))
    ensures Balanced(Substring(str, offset, i + 1)) ==> DecodeStructSpec(str, offset) == Substring(str, offset, i + 1)
    ensures !Balanced(Substring(str, offset, i + 1)) ==> Searching(str, offset, NextBrace(str, i + 1))
  {
    assert Substring(str, offset, i + 1) == str[offset..i + 1];
    if Balanced(str[offset..i + 1]) {
      DecodeStructAt(str, offset, i);
    } else {
      NextBraceBalancedEnd(str, offset, i + 1);
    }
  }

  /** With no `}` left the whole string is returned. */
  lemma SearchExhausted(str: string, offset: nat)
    requires Searching(str, offset, None)
    ensures DecodeStructSpec(str, offset) == str
  {
  }

  /**
   * `decodeStruct`: walks the `}` positions after `offset` and returns the
   * first slice whose braces balance.
   */
  method DecodeStruct(str: string, offset: nat) returns (r: string)
    ensures r == DecodeStructSpec(str, offset)
  {
    if offset > |str| {
      return str;
    }
    SearchStart(str, offset);
    var i := NextBrace(str, offset);
    while i.Some?
      invariant Searching(str, offset, i)
      decreases if i.Some? then |str| + 1 - i.value else 0
    {
      SearchStep(str, offset, i.value);
      var struct := Substring(str, offset, i.value + 1);
      if Balanced(struct) {
        return struct;
      }
      i := NextBrace(str, i.value + 1);
    }
    SearchExhausted(str, offset);
    return str;
  }

  /** A balanced slice closed at the `}` where the search stands is the decoded structure. */
  lemma DecodeStructAt(str: string, offset: nat, i: nat)
    requires offset <= i < |str| && str[i] == '}' && Balanced(str[offset..i + 1])
    requires BalancedEnd(str, offset, offset) == BalancedEnd(str, offset, i)
    ensures DecodeStructSpec(str, offset) == str[offset..i + 1]
  {
    assert BalancedEnd(str, offset, i) == Some(i);
  }

  // ---------------------------------------------------------------- getEncoding

  /** The error `getEncoding` throws for a character it does not know. */
  const UnknownEncoding := "unknown encoding"

  /** The part of the metabase the decoder looks up; a missing table is None. */
  datatype ObjcMetabase = ObjcMetabase(
    classes: Option<map<string, Json>>,
    structs: Option<map<string, Json>>,
    protocols: Option<map<string, Json>>,
    typedefs: Option<map<string, Json>>)

  /** The metabase and the custom classes the parser has seen (`state.customClasses`). */
  datatype Ctx = Ctx(metabase: ObjcMetabase, customClasses: Option<set<string>>)

  /** One decoded type; `skip` is how many further characters it spans (0 when the source leaves it unset). */
  datatype Entry = Entry(
    value: Option<string>,
    encoding: Option<string>,
    typ: Option<string>,
    skip: int,
    framework: Option<Json>,
    filename: Option<Json>)

  /** The type qualifiers (`const`, `in`, `out`, `oneway` …) that decode to an empty value. */
  predicate IsQualifier(c: char)
  {
    c == 'r' || c == 'n' || c == 'N' || c == 'o' || c == 'O' || c == 'R' || c == 'V'
  }

  /** The single-character encodings and the C type each stands for. */
  function PrimitiveValue(c: char): (r: Option<string>)
    ensures r.Some? ==> r.value != [] && !IsQualifier(c) && c != '{' && c != '@' && c != '^' && c != '['
  {
    match c
    case 'i' => Some("int")
    case 'd' => Some("double")
    case 'f' => Some("float")
    case 'l' => Some("long")
    case 's' => Some("short")
    case 'c' => Some("char")
    case 'B' => Some("bool")
    case 'q' => Some("long long")
    case 'C' => Some("unsigned char")
    case 'I' => Some("unsigned int")
    case 'S' => Some("unsigned short")
    case 'L' => Some("unsigned long")
    case 'Q' => Some("unsigned long long")
    case '#' => Some("Class")
    case ':' => Some("SEL")
    case '*' => Some("char *")
    case 'v' => Some("void")
    case '?' => Some("void *")
    case _ => None
  }

  /** The entry of a single-character encoding. */
  function Primitive(c: char, v: string): Entry
  {
    Entry(Some(v), Some([c]), Some(v), 0, None, None)
  }

  /** A value that `args.push` keeps: a non-empty string. */
  predicate HasValue(e: Entry)
  {
    e.value.Some? && e.value.value != []
  }

  /** `String(x)` of a value that may be `undefined`. */
  function OptStr(o: Option<string>): (r: string)
    ensures o.Some? ==> r == o.value
  {
    if o.Some? then o.value else "undefined"
  }

  /** A typedef's property as a string; a value of another type counts as missing. */
  function ValueString(o: Option<Json>): Option<string>
  {
    if o.Some? && o.value.JStr? then Some(o.value.s) else None
  }

  /**
   * A `{name=…}` structure: its encoding is the balanced slice from
   * `index`; its value is the metabase struct's name when there is one, the
   * encoding itself otherwise, and `void *` when the slice has no name.
   */
  function StructEntry(ctx: Ctx, str: string, index: nat): (r: Result<Entry>)
    requires index < |str|
    ensures r.Ok? ==> r.value.encoding == Some(DecodeStructSpec(str, index)) && r.value.skip == |DecodeStructSpec(str, index)| - 1 >= 0
    ensures r.Ok? ==> HasValue(r.value)
  {
    var enc := DecodeStructSpec(str, index);
    var i := match Find(enc, "=") case Some(k) => k as int case None => -1;
    if i > 0 then
      if ctx.metabase.structs.None? then Err(TypeError)
      else
        var name := Substring(enc, 1, i);
        var structs := ctx.metabase.structs.value;
        var value :=
          if name in structs && IsTruthy(structs[name]) && IsTruthyOpt(Prop(structs[name], "name")) && Prop(structs[name], "name").value.JStr?
          then Prop(structs[name], "name").value.s
          else enc;
        Ok(Entry(Some(value), Some(enc), Some("struct"), |enc| - 1, None, None))
    else Ok(Entry(Some("void *"), Some(enc), Some("struct"), |enc| - 1, None, None))
  }

  /** The field encodings of a metabase struct appended in order (`undefined` for a field without one). */
  function FieldEncodings(fields: seq<Json>): Result<string>
  {
    if fields == [] then Ok([])
    else if fields[0].JNull? then Err(TypeError)
    else
      match FieldEncodings(fields[1..])
      case Err(e) => Err(e)
      case Ok(rest) => Ok(OptToString(Prop(fields[0], "encoding")) + rest)
  }

  /** `struct.fields && struct.fields.forEach(…)`: nothing for a falsy list, an error for a truthy non-array. */
  function StructFields(fields: Option<Json>): Result<string>
  {
    if !IsTruthyOpt(fields) then Ok([])
    else if fields.value.JArr? then FieldEncodings(fields.value.items)
    else Err(TypeError)
  }

  /** The name between `[` and `]`, as `substring(index + 1, indexOf(']', index + 1))` computes it. */
  function BracketName(str: string, index: nat): (r: string)
  {
    var n := match FindFrom(str, "]", index + 1) case Some(k) => k as int case None => -1;
    Substring(str, index + 1, n)
  }

  /**
   * `[Name]`: a metabase class, struct, `id`, protocol, typedef or custom
   * class, looked up in that order; a name that is none of them is an
   * error, and so is a lookup in a table the metabase lacks.
   */
  function BracketEntry(ctx: Ctx, str: string, index: nat): (r: Result<Entry>)
    ensures r.Ok? ==> r.value.skip == |BracketName(str, index)| + 1
    ensures var cls := BracketName(str, index);
      ctx.metabase.classes.Some? && cls in ctx.metabase.classes.value && !ctx.metabase.classes.value[cls].JNull? ==>
      r.Ok? && r.value.value == Some(cls + " *") && r.value.encoding == Some("@")
  {
    var cls := BracketName(str, index);
    var skip := |cls| + 1;
    var mb := ctx.metabase;
    if mb.classes.None? then Err(TypeError)
    else if cls in mb.classes.value then
      var e := mb.classes.value[cls];
      if e.JNull? then Err(TypeError)
      else Ok(Entry(Some(cls + " *"), Some("@"), Some("objc_interface"), skip, Prop(e, "framework"), Prop(e, "filename")))
    else if mb.structs.None? then Err(TypeError)
    else if cls in mb.structs.value then
      var s := mb.structs.value[cls];
      if s.JNull? then Err(TypeError)
      else
        match StructFields(Prop(s, "fields"))
        case Err(m) => Err(m)
        case Ok(f) => Ok(Entry(Some(cls), Some("{" + cls + f + "}"), Some("struct"), skip, None, None))
    else if cls == "id" then Ok(Entry(Some("id"), Some("@"), Some("objc_interface"), skip, None, None))
    else if mb.protocols.None? then Err(TypeError)
    else if cls in mb.protocols.value then
      var e := mb.protocols.value[cls];
      if e.JNull? then Err(TypeError)
      else Ok(Entry(Some("NSObject <" + cls + "> *"), Some("@"), Some("objc_interface"), skip, Prop(e, "framework"), Prop(e, "filename")))
    else if mb.typedefs.None? then Err(TypeError)
    else if cls in mb.typedefs.value then
      var t := mb.typedefs.value[cls];
      if t.JNull? then Err(TypeError)
      else
        Ok(Entry(ValueString(Prop(t, "value")), ValueString(Prop(t, "encoding")), ValueString(Prop(t, "type")),
                 skip, Prop(t, "framework"), Prop(t, "filename")))
    else if ctx.customClasses.Some? && cls in ctx.customClasses.value then
      Ok(Entry(Some(cls + " *"), Some("@"), Some("objc_interface"), skip, Some(JStr("hyperloop")), Some(JStr(cls))))
    else Err(UnknownEncoding)
  }

  /**
   * `^T`: a pointer to the type decoded after the caret. As written, the
   * span is the inner span or else the inner value's length minus two;
   * corrected, it is the inner span plus the caret's own character.
   */
  function PointerEntry(inner: Entry, asWritten: bool): (r: Result<Entry>)
    ensures r.Ok? ==> r.value.value == Some(OptStr(inner.value) + " *") && HasValue(r.value)
    ensures r.Ok? ==> r.value.encoding == Some("^" + OptStr(inner.encoding))
    ensures !asWritten ==> r.Ok? && r.value.skip == inner.skip + 1
    ensures asWritten && inner.skip == 0 && inner.value.Some? ==> r.Ok? && r.value.skip == |inner.value.value| - 2
  {
    var value := OptStr(inner.value) + " *";
    var skip :=
      if !asWritten then Ok(inner.skip + 1)
      else if inner.skip != 0 then Ok(inner.skip)
      else if inner.value.None? then Err(TypeError)
      else Ok(|inner.value.value| - 2);
    match skip
    case Err(m) => Err(m)
    case Ok(n) => Ok(Entry(Some(value), Some("^" + OptStr(inner.encoding)), Some(value), n, None, None))
  }

  /**
   * `getEncoding(str, index)`: decodes the type whose encoding starts at
   * `index`. `asWritten` selects the pointer span the source computes;
   * otherwise the corrected span is used.
   */
  function GetEncoding(ctx: Ctx, str: string, index: int, asWritten: bool): (r: Result<Entry>)
    decreases |str| - index, 1
    ensures index < 0 || index >= |str| ==> r.Err?
    ensures r.Ok? && !asWritten ==> r.value.skip >= 0
  {
    if index < 0 || index >= |str| then Err(UnknownEncoding)
    else CharEncoding(ctx, str, index, asWritten)
  }

  /** The type whose encoding starts with the character at `index`. */
  function CharEncoding(ctx: Ctx, str: string, index: nat, asWritten: bool): (r: Result<Entry>)
    requires index < |str|
    decreases |str| - index, 0
    ensures r.Ok? && !asWritten ==> r.value.skip >= 0
  {
    var ch := str[index];
    if IsQualifier(ch) then Ok(Entry(Some(""), None, None, 0, None, None))
    else if PrimitiveValue(ch).Some? then Ok(Primitive(ch, PrimitiveValue(ch).value))
    else if ch == '{' then StructEntry(ctx, str, index)
    else if ch == '@' then
      var skip := if index + 1 < |str| && str[index + 1] == '?' then 1 else 0;
      Ok(Entry(Some("id"), Some(if skip == 1 then "@?" else "@"), Some("objc_interface"), skip, None, None))
    else if ch == '^' then
      match GetEncoding(ctx, str, index + 1, asWritten)
      case Err(m) => Err(m)
      case Ok(inner) => PointerEntry(inner, asWritten)
    else if ch == '[' then BracketEntry(ctx, str, index)
    else Err(UnknownEncoding)
  }

  /**
   * The character at `index` decides: a qualifier has an empty value, a
   * single-character encoding its C type, `@` is `id` (spanning `@?` for a
   * block), an unknown character is an error, and every decoded type but a
   * qualifier or `[Name]` has a value.
   */
  lemma EncodingByCharacter(ctx: Ctx, str: string, index: nat, asWritten: bool)
    requires index < |str|
    ensures IsQualifier(str[index]) ==> GetEncoding(ctx, str, index, asWritten) == Ok(Entry(Some(""), None, None, 0, None, None))
    ensures PrimitiveValue(str[index]).Some? ==>
      GetEncoding(ctx, str, index, asWritten) == Ok(Primitive(str[index], PrimitiveValue(str[index]).value))
    ensures str[index] == '@' ==>
      GetEncoding(ctx, str, index, asWritten).Ok? && GetEncoding(ctx, str, index, asWritten).value.value == Some("id") &&
      GetEncoding(ctx, str, index, asWritten).value.skip == (if index + 1 < |str| && str[index + 1] == '?' then 1 else 0)
    ensures !IsQualifier(str[index]) && PrimitiveValue(str[index]).None? && str[index] != '{' && str[index] != '@' && str[index] != '^' && str[index] != '[' ==>
      GetEncoding(ctx, str, index, asWritten).Err?
    ensures GetEncoding(ctx, str, index, asWritten).Ok? && !IsQualifier(str[index]) && str[index] != '[' ==>
      HasValue(GetEncoding(ctx, str, index, asWritten).value)
  {
    assert GetEncoding(ctx, str, index, asWritten) == CharEncoding(ctx, str, index, asWritten);
  }

  // ---------------------------------------------------------------- parseEncoding

  /** The decoded method signature. */
  datatype Signature = Signature(ret: Entry, args: seq<Entry>)

  /** Where `@:` separates the return type from the argument types (-1 when absent). */
  function SelfSelIndex(encoding: string): int
  {
    match Find(encoding, "@:") case Some(k) => k as int case None => -1
  }

  /** The return-type encoding: everything before `@:`. */
  function ReturnPart(encoding: string): string
  {
    Substring(encoding, 0, SelfSelIndex(encoding))
  }

  /** The argument encodings: everything after `@:`. */
  function ArgumentPart(encoding: string): string
  {
    Substring(encoding, SelfSelIndex(encoding) + 2, |encoding|)
  }

  /**
   * The arguments decoded from `c` on with the corrected spans: each entry
   * with a value is kept, and decoding resumes after the entry's span.
   */
  function ParseArgs(ctx: Ctx, argtypes: string, c: nat): (r: Result<seq<Entry>>)
    decreases |argtypes| - c
    ensures r.Ok? ==> forall k :: 0 <= k < |r.value| ==> HasValue(r.value[k])
    ensures c >= |argtypes| ==> r == Ok([])
  {
    if c >= |argtypes| then Ok([])
    else
      match GetEncoding(ctx, argtypes, c, false)
      case Err(m) => Err(m)
      case Ok(e) => Push(e, ParseArgs(ctx, argtypes, c + e.skip + 1))
  }

  /** `enc.value && args.push(enc)` in front of the rest of the decoding. */
  function Push(e: Entry, rest: Result<seq<Entry>>): (r: Result<seq<Entry>>)
    ensures rest.Ok? ==> r.Ok? && r.value == (if HasValue(e) then [e] + rest.value else rest.value)
    ensures rest.Err? ==> r == rest
  {
    match rest
    case Err(m) => Err(m)
    case Ok(tail) => Ok(if HasValue(e) then [e] + tail else tail)
  }

  /** `parseEncoding`: the arguments after `@:`, then the return type before it. */
  function ParseEncodingSpec(ctx: Ctx, encoding: string): (r: Result<Signature>)
    ensures r.Ok? ==> ParseArgs(ctx, ArgumentPart(encoding), 0) == Ok(r.value.args)
    ensures r.Ok? ==> GetEncoding(ctx, ReturnPart(encoding), 0, false) == Ok(r.value.ret)
    ensures r.Err? ==> ParseArgs(ctx, ArgumentPart(encoding), 0).Err? || GetEncoding(ctx, ReturnPart(encoding), 0, false).Err?
  {
    match ParseArgs(ctx, ArgumentPart(encoding), 0)
    case Err(m) => Err(m)
    case Ok(args) =>
      match GetEncoding(ctx, ReturnPart(encoding), 0, false)
      case Err(m) => Err(m)
      case Ok(ret) => Ok(Signature(ret, args))
  }

  /** The decoded arguments so far in front of the rest of the decoding. */
  function Prepend(done: seq<Entry>, rest: Result<seq<Entry>>): Result<seq<Entry>>
  {
    match rest
    case Err(m) => Err(m)
    case Ok(tail) => Ok(done + tail)
  }

  /** The loop's state: the arguments kept so far, then the decoding from `c`, make the whole decoding. */
  predicate Decoding(ctx: Ctx, argtypes: string, args: seq<Entry>, c: nat)
  {
    Prepend(args, ParseArgs(ctx, argtypes, c)) == ParseArgs(ctx, argtypes, 0)
  }

  /** Nothing is kept before the first argument. */
  lemma DecodingStart(ctx: Ctx, argtypes: string)
    ensures Decoding(ctx, argtypes, [], 0)
  {
    match ParseArgs(ctx, argtypes, 0)
    case Err(_) =>
    case Ok(tail) => assert [] + tail == tail;
  }

  /** The entry at `c` in front of the decoding after its span. */
  lemma ParseArgsStep(ctx: Ctx, argtypes: string, c: nat, e: Entry)
    requires c < |argtypes| && GetEncoding(ctx, argtypes, c, false) == Ok(e)
    ensures e.skip >= 0
    ensures ParseArgs(ctx, argtypes, c) == Push(e, ParseArgs(ctx, argtypes, c + e.skip + 1))
  {
  }

  /** One step of the decoding: the entry at `c` is kept when it has a value, and decoding resumes after its span. */
  lemma DecodingStep(ctx: Ctx, argtypes: string, args: seq<Entry>, c: nat, e: Entry)
    requires Decoding(ctx, argtypes, args, c)
    requires c < |argtypes| && GetEncoding(ctx, argtypes, c, false) == Ok(e)
    ensures e.skip >= 0
    ensures Decoding(ctx, argtypes, if HasValue(e) then args + [e] else args, c + e.skip + 1)
  {
    ParseArgsStep(ctx, argtypes, c, e);
    PrependPush(args, e, ParseArgs(ctx, argtypes, c + e.skip + 1));
  }

  /** Keeping an entry moves it from the rest of the decoding to the decoded arguments. */
  lemma PrependPush(args: seq<Entry>, e: Entry, rest: Result<seq<Entry>>)
    ensures Prepend(args, Push(e, rest)) == Prepend(if HasValue(e) then args + [e] else args, rest)
  {
    match rest
    case Err(_) =>
    case Ok(tail) => assert args + ([e] + tail) == args + [e] + tail;
  }

  /** A type that does not decode fails the whole decoding with its error. */
  lemma DecodingFails(ctx: Ctx, argtypes: string, args: seq<Entry>, c: nat)
    requires Decoding(ctx, argtypes, args, c)
    requires c < |argtypes| && GetEncoding(ctx, argtypes, c, false).Err?
    ensures ParseArgs(ctx, argtypes, 0) == Err(GetEncoding(ctx, argtypes, c, false).error)
  {
  }

  /** At the end the kept arguments are the whole decoding. */
  lemma DecodingDone(ctx: Ctx, argtypes: string, args: seq<Entry>, c: nat)
    requires Decoding(ctx, argtypes, args, c) && c >= |argtypes|
    ensures ParseArgs(ctx, argtypes, 0) == Ok(args)
  {
    assert args + [] == args;
  }

  /** `parseEncoding`: the arguments decoded by its loop, then the return type. */
  method ParseEncoding(ctx: Ctx, encoding: string) returns (r: Result<Signature>)
    ensures r == ParseEncodingSpec(ctx, encoding)
  {
    var args := DecodeArguments(ctx, ArgumentPart(encoding));
    if args.Err? {
      return Err(args.error);
    }
    var ret := GetEncoding(ctx, ReturnPart(encoding), 0, false);
    if ret.Err? {
      return Err(ret.error);
    }
    return Ok(Signature(ret.value, args.value));
  }

  /** The loop of `parseEncoding` over the argument encodings after `@:`. */
  method DecodeArguments(ctx: Ctx, argtypes: string) returns (r: Result<seq<Entry>>)
    ensures r == ParseArgs(ctx, argtypes, 0)
  {
    var args: seq<Entry> := [];
    var c: nat := 0;
    DecodingStart(ctx, argtypes);
    while c < |argtypes|
      invariant Decoding(ctx, argtypes, args, c)
      decreases |argtypes| - c
    {
      var e := GetEncoding(ctx, argtypes, c, false);
      if e.Err? {
        DecodingFails(ctx, argtypes, args, c);
        return Err(e.error);
      }
      DecodingStep(ctx, argtypes, args, c, e.value);
      if HasValue(e.value) {
        args := args + [e.value];
      }
      c := c + e.value.skip + 1;
    }
    DecodingDone(ctx, argtypes, args, c);
    return Ok(args);
  }

  /** An argument encoding made only of single-character types decodes to those types, in order. */
  lemma {:induction false} PrimitiveArgs(ctx: Ctx, argtypes: string, c: nat)
    requires forall k :: c <= k < |argtypes| ==> PrimitiveValue(argtypes[k]).Some?
    decreases |argtypes| - c
    ensures var r := ParseArgs(ctx, argtypes, c);
      r.Ok? && |r.value| == (if c <= |argtypes| then |argtypes| - c else 0) &&
      forall k :: 0 <= k < |r.value| ==> r.value[k] == Primitive(argtypes[c + k], PrimitiveValue(argtypes[c + k]).value)
  {
    if c < |argtypes| {
      assert GetEncoding(ctx, argtypes, c, false) == CharEncoding(ctx, argtypes, c, false);
      PrimitiveArgs(ctx, argtypes, c + 1);
    }
  }

  // ---------------------------------------------------------------- the pointer span

  /**
   * One pass of `parseEncoding`'s loop as written: the entry pushed, if
   * any, and the index the loop continues from.
   */
  function ParseStepAsWritten(ctx: Ctx, argtypes: string, c: int): (r: Result<(Option<Entry>, int)>)
    ensures r.Ok? ==> GetEncoding(ctx, argtypes, c, true).Ok? && r.value.1 == c + GetEncoding(ctx, argtypes, c, true).value.skip + 1
  {
    match GetEncoding(ctx, argtypes, c, true)
    case Err(m) => Err(m)
    case Ok(e) => Ok((if HasValue(e) then Some(e) else None, c + e.skip + 1))
  }

  /**
   * `void *` followed by `int`: as written the pointer spans three
   * characters, so the loop stops after one argument and the `int` is lost;
   * the corrected decoding keeps both.
   */
  lemma PointerSkipAsWritten(ctx: Ctx)
    ensures ParseStepAsWritten(ctx, "^vi", 0).Ok?
    ensures ParseStepAsWritten(ctx, "^vi", 0).value.1 == 3 == |"^vi"|
    ensures ParseStepAsWritten(ctx, "^vi", 0).value.0.Some?
    ensures ParseArgs(ctx, "^vi", 0).Ok? && |ParseArgs(ctx, "^vi", 0).value| == 2
    ensures ParseArgs(ctx, "^vi", 0).value[0].value == Some("void *")
    ensures ParseArgs(ctx, "^vi", 0).value[1].value == Some("int")
  {
    var s := "^vi";
    assert s[0] == '^' && s[1] == 'v' && s[2] == 'i';
    EncodingByCharacter(ctx, s, 1, true);
    EncodingByCharacter(ctx, s, 1, false);
    EncodingByCharacter(ctx, s, 2, false);
    assert GetEncoding(ctx, s, 0, true).value.skip == 2;
    PointerSpansInner(ctx, s, 0);
    var pointer := GetEncoding(ctx, s, 0, false).value;
    assert pointer.value == Some("void *") by { assert "void" + " *" == "void *"; }
    ParseArgsStep(ctx, s, 0, pointer);
    ParseArgsStep(ctx, s, 2, Primitive('i', "int"));
  }

  /**
   * `int` then a pointer to a qualifier (`i^r*`): as written the pointer's
   * span is -2, so the loop goes back from index 1 to index 0 and from 0
   * to 1 again, and never ends.
   */
  lemma PointerLoopAsWritten(ctx: Ctx)
    ensures ParseStepAsWritten(ctx, "i^r*", 0).Ok? && ParseStepAsWritten(ctx, "i^r*", 0).value.1 == 1
    ensures ParseStepAsWritten(ctx, "i^r*", 1).Ok? && ParseStepAsWritten(ctx, "i^r*", 1).value.1 == 0
  {
    var s := "i^r*";
    assert s[0] == 'i' && s[1] == '^' && s[2] == 'r';
    EncodingByCharacter(ctx, s, 0, true);
    EncodingByCharacter(ctx, s, 2, true);
    assert GetEncoding(ctx, s, 1, true).value.skip == -2;
  }

  /** With the corrected span every decoding step moves forward, past the pointer's inner type. */
  lemma PointerSpansInner(ctx: Ctx, str: string, index: nat)
    requires index + 1 < |str| && str[index] == '^'
    requires GetEncoding(ctx, str, index + 1, false).Ok?
    ensures GetEncoding(ctx, str, index, false).Ok?
    ensures GetEncoding(ctx, str, index, false).value.skip == GetEncoding(ctx, str, index + 1, false).value.skip + 1
    ensures GetEncoding(ctx, str, index, false).value.value == Some(OptStr(GetEncoding(ctx, str, index + 1, false).value.value) + " *")
  {
    assert GetEncoding(ctx, str, index, false) == CharEncoding(ctx, str, index, false);
  }

  // ---------------------------------------------------------------- generateIdentifier

  /** `generateIdentifier`: class name, selector and instance flag joined by `_`, made a safe symbol. */
  function GenerateIdentifier(className: string, selector: string, instance: bool): (r: string)
    ensures |r| == |className| + |selector| + 3
    ensures r[|r| - 1] == (if instance then '1' else '0')
    ensures forall k :: 0 <= k < |r| ==> !IsSymbolBreak(r[k])
  {
    var s := className + "_" + selector + "_" + (if instance then "1" else "0");
    SafeSymbolIsSafe(s);
    assert !IsSymbolBreak(s[|s| - 1]);
    GenerateSafeSymbol(s)
  }

  // ---------------------------------------------------------------- encodeFriendlyType

  /** The friendly type names with a fixed encoding. */
  function FriendlyCode(t: string): (r: Option<string>)
    ensures r.Some? ==> 1 <= |r.value| <= 2 && r.value[0] != '?' && r.value[0] != '['
  {
    match t
    case "long" => Some("l")
    case "int" => Some("i")
    case "double" => Some("d")
    case "short" => Some("s")
    case "float" => Some("f")
    case "long long" => Some("q")
    case "BOOL" => Some("c")
    case "char" => Some("c")
    case "bool" => Some("B")
    case "void" => Some("v")
    case "void *" => Some("^v")
    case "unsigned int" => Some("I")
    case "unsigned long" => Some("L")
    case "unsigned short" => Some("S")
    case "unsigned long long" => Some("Q")
    case "unsigned char" => Some("C")
    case "char *" => Some("*")
    case "SEL" => Some(":")
    case "selector" => Some(":")
    case "Class" => Some("#")
    case "class" => Some("#")
    case "id" => Some("@")
    case "objc_pointer" => Some("@")
    case "objc_interface" => Some("@")
    case "obj_interface" => Some("@")
    case "object" => Some("@")
    case "NSObject" => Some("@")
    case _ => None
  }

  /** The name a friendly type decodes back to: its synonyms collapse to one spelling. */
  function CanonicalName(t: string): string
  {
    match t
    case "BOOL" => "char"
    case "selector" => "SEL"
    case "class" => "Class"
    case "objc_pointer" => "id"
    case "objc_interface" => "id"
    case "obj_interface" => "id"
    case "object" => "id"
    case "NSObject" => "id"
    case _ => t
  }

  /** A class name: the friendly type cut at its first `<` (protocol list). */
  function ClassPart(t: string): (r: string)
    ensures |r| <= |t| && r == t[..|r|]
    ensures '<' !in r
  {
    match Find(t, "<")
    case None =>
      FindFirst(t, "<");
      assert forall j :: 0 <= j < |t| ==> t[j] != '<' by {
        forall j | 0 <= j < |t| ensures t[j] != '<' { MatchAtChar(t, '<', j); }
      }
      t
    case Some(k) =>
      FindFirst(t, "<");
      assert forall j :: 0 <= j < k ==> t[j] != '<' by {
        forall j | 0 <= j < k ensures t[j] != '<' { MatchAtChar(t, '<', j); }
      }
      t[..k]
  }

  /**
   * `encodeFriendlyType`: a known name's fixed encoding, or `[Class]` for
   * any other name, which is then recorded among the class's imports.
   */
  function EncodeFriendlyType(t: string, imports: set<string>): (r: (string, set<string>))
    ensures FriendlyCode(t).Some? ==> r == (FriendlyCode(t).value, imports)
    ensures FriendlyCode(t).None? ==> r.0 == "[" + ClassPart(t) + "]" && r.1 == imports + {ClassPart(t)}
  {
    match FriendlyCode(t)
    case Some(code) => (code, imports)
    case None => ("[" + ClassPart(t) + "]", imports + {ClassPart(t)})
  }

  /** Every name in the list has a fixed encoding. */
  predicate AllFixed(names: seq<string>)
  {
    names == [] || (FriendlyCode(names[0]).Some? && AllFixed(names[1..]))
  }

  /** The fixed encodings of a list of friendly names, concatenated. */
  function Codes(names: seq<string>): string
    requires AllFixed(names)
  {
    if names == [] then [] else FriendlyCode(names[0]).value + Codes(names[1..])
  }

  /**
   * A friendly name's encoding, met at index `i`, decodes back to the
   * name's canonical spelling and spans exactly the encoding.
   */
  lemma FriendlyCodeDecodes(ctx: Ctx, t: string, s: string, i: nat)
    requires FriendlyCode(t).Some? && MatchAt(s, FriendlyCode(t).value, i)
    requires i + |FriendlyCode(t).value| < |s| ==> s[i + |FriendlyCode(t).value|] != '?'
    ensures GetEncoding(ctx, s, i, false).Ok?
    ensures GetEncoding(ctx, s, i, false).value.value == Some(CanonicalName(t))
    ensures GetEncoding(ctx, s, i, false).value.skip == |FriendlyCode(t).value| - 1
    ensures HasValue(GetEncoding(ctx, s, i, false).value)
  {
    var code := FriendlyCode(t).value;
    assert s[i] == code[0];
    FriendlyCodeChar(t);
    if code == "^v" {
      assert s[i + 1] == 'v';
      EncodingByCharacter(ctx, s, i + 1, false);
      PointerSpansInner(ctx, s, i);
      assert "void" + " *" == "void *";
    } else {
      EncodingByCharacter(ctx, s, i, false);
    }
  }

  /** Each fixed encoding but `^v` is one character that decodes to the canonical name. */
  lemma FriendlyCodeChar(t: string)
    requires FriendlyCode(t).Some?
    ensures var code := FriendlyCode(t).value;
      if code == "^v" then CanonicalName(t) == "void *"
      else |code| == 1 && if code[0] == '@' then CanonicalName(t) == "id" else PrimitiveValue(code[0]) == Some(CanonicalName(t))
  {
  }

  /** A decoding whose values are the canonical spellings of `names`, one each. */
  predicate DecodesTo(r: Result<seq<Entry>>, names: seq<string>)
  {
    r.Ok? && |r.value| == |names| && forall k :: 0 <= k < |names| ==> r.value[k].value == Some(CanonicalName(names[k]))
  }

  /** One more decoded name in front. */
  lemma DecodesToCons(e: Entry, rest: Result<seq<Entry>>, names: seq<string>)
    requires names != [] && e.value == Some(CanonicalName(names[0])) && DecodesTo(rest, names[1..])
    requires HasValue(e)
    ensures DecodesTo(Push(e, rest), names)
  {
    var r := Push(e, rest);
    assert r.value == [e] + rest.value;
    forall k | 0 <= k < |names|
      ensures r.value[k].value == Some(CanonicalName(names[k]))
    {
      if k > 0 {
        assert r.value[k] == rest.value[k - 1] && names[k] == names[1..][k - 1];
      }
    }
  }

  /** The concatenated encodings of friendly names decode to their canonical spellings, one argument each. */
  lemma {:induction false} FriendlyArgsDecode(ctx: Ctx, p: string, names: seq<string>)
    requires AllFixed(names)
    decreases |names|
    ensures DecodesTo(ParseArgs(ctx, p + Codes(names), |p|), names)
  {
    if names == [] {
      assert p + Codes(names) == p;
    } else {
      var q := p + FriendlyCode(names[0]).value;
      CodesSplit(p, names);
      FriendlyArgsDecode(ctx, q, names[1..]);
      FriendlyStep(ctx, p + Codes(names), |p|, names);
    }
  }

  /** The first name's encoding opens the concatenation, and what follows it is not `?`. */
  lemma CodesSplit(p: string, names: seq<string>)
    requires AllFixed(names) && names != []
    ensures var code := FriendlyCode(names[0]).value;
      var s := p + Codes(names);
      s == (p + code) + Codes(names[1..]) && MatchAt(s, code, |p|) &&
      (|p| + |code| < |s| ==> s[|p| + |code|] != '?')
  {
    var code := FriendlyCode(names[0]).value;
    var s := p + Codes(names);
    var rest := Codes(names[1..]);
    assert s == (p + code) + rest;
    assert s[|p|..|p| + |code|] == code;
    if rest != [] {
      assert s[|p| + |code|] == rest[0] == FriendlyCode(names[1]).value[0];
    }
  }

  /** A name whose encoding is met at `i`, in front of the decoding of the rest. */
  lemma FriendlyStep(ctx: Ctx, s: string, i: nat, names: seq<string>)
    requires names != [] && FriendlyCode(names[0]).Some?
    requires MatchAt(s, FriendlyCode(names[0]).value, i)
    requires i + |FriendlyCode(names[0]).value| < |s| ==> s[i + |FriendlyCode(names[0]).value|] != '?'
    requires DecodesTo(ParseArgs(ctx, s, i + |FriendlyCode(names[0]).value|), names[1..])
    ensures DecodesTo(ParseArgs(ctx, s, i), names)
  {
    FriendlyCodeDecodes(ctx, names[0], s, i);
    var e := GetEncoding(ctx, s, i, false).value;
    ParseArgsStep(ctx, s, i, e);
    DecodesToCons(e, ParseArgs(ctx, s, i + e.skip + 1), names);
  }


  // ---------------------------------------------------------------- addMethod

  /** `spec[key]`: the member, or `undefined`. */
  function Field(spec: map<string, Json>, key: string): (r: Option<Json>)
    ensures key in spec ==> r == Some(spec[key])
    ensures key !in spec ==> r.None?
  {
    if key in spec then Some(spec[key]) else None
  }

  /** String values as a JSON array's items. */
  function Strings(names: seq<string>): (r: seq<Json>)
    ensures |r| == |names|
    ensures forall k :: 0 <= k < |names| ==> r[k] == JStr(names[k])
  {
    if names == [] then [] else [JStr(names[0])] + Strings(names[1..])
  }

  /** `arguments.map(encodeFriendlyType).join('')`: every item must be a string name. */
  function FriendlyList(items: seq<Json>, imports: set<string>): (r: Result<(string, set<string>)>)
    ensures r.Ok? ==> imports <= r.value.1
    ensures (exists k :: 0 <= k < |items| && !items[k].JStr?) ==> r.Err?
  {
    if items == [] then Ok(([], imports))
    else if !items[0].JStr? then Err(TypeError)
    else
      var (code, next) := EncodeFriendlyType(items[0].s, imports);
      match FriendlyList(items[1..], next)
      case Err(m) => Err(m)
      case Ok((rest, last)) =>
        assert forall k :: 1 <= k < |items| ==> items[k] == items[1..][k - 1];
        Ok((code + rest, last))
  }

  /** Names with fixed encodings are encoded to their codes and record no import. */
  lemma {:induction false} FriendlyListOfNames(names: seq<string>, imports: set<string>)
    requires AllFixed(names)
    ensures FriendlyList(Strings(names), imports) == Ok((Codes(names), imports))
  {
    if names != [] {
      assert Strings(names)[1..] == Strings(names[1..]);
      FriendlyListOfNames(names[1..], imports);
    }
  }

  /** `signature` given instead of `selector` takes its place. */
  function WithSelector(spec: map<string, Json>): (r: map<string, Json>)
    ensures IsTruthyOpt(Field(spec, "signature")) ==>
      "signature" !in r && "selector" in r && r["selector"] == spec["signature"] && r.Keys == spec.Keys - {"signature"} + {"selector"}
    ensures !IsTruthyOpt(Field(spec, "signature")) ==> r == spec
  {
    if IsTruthyOpt(Field(spec, "signature")) then spec["selector" := spec["signature"]] - {"signature"}
    else spec
  }

  /**
   * `returnType` and `arguments` given as friendly types become the
   * encoding `<return>@:<arguments>` and are removed; with neither, the
   * spec is unchanged.
   */
  function WithFriendlyEncoding(spec: map<string, Json>, imports: set<string>): (r: Result<(map<string, Json>, set<string>)>)
    ensures !IsTruthyOpt(Field(spec, "returnType")) && !IsTruthyOpt(Field(spec, "arguments")) ==> r == Ok((spec, imports))
    ensures r.Ok? && (IsTruthyOpt(Field(spec, "returnType")) || IsTruthyOpt(Field(spec, "arguments"))) ==>
      "returnType" !in r.value.0 && "arguments" !in r.value.0 && "encoding" in r.value.0 && r.value.0["encoding"].JStr? &&
      r.value.0.Keys == spec.Keys - {"returnType", "arguments"} + {"encoding"}
    ensures r.Ok? ==> imports <= r.value.1
    ensures r.Ok? ==> forall k :: k in spec && k != "returnType" && k != "arguments" && k != "encoding" ==> k in r.value.0 && r.value.0[k] == spec[k]
  {
    var returnType := Field(spec, "returnType");
    var arguments := Field(spec, "arguments");
    if !IsTruthyOpt(returnType) && !IsTruthyOpt(arguments) then Ok((spec, imports))
    else
      var typ := ReturnTypeCode(returnType, imports);
      if typ.Err? then Err(typ.error)
      else
        var args := ArgumentsCode(arguments, typ.value.1);
        if args.Err? then Err(args.error)
        else Ok((spec["encoding" := JStr(typ.value.0 + "@:" + args.value.0)] - {"returnType", "arguments"}, args.value.1))
  }

  /** `returnType ? encodeFriendlyType(returnType) : 'v'`: a truthy return type must be a string name. */
  function ReturnTypeCode(returnType: Option<Json>, imports: set<string>): (r: Result<(string, set<string>)>)
    ensures !IsTruthyOpt(returnType) ==> r == Ok(("v", imports))
    ensures IsTruthyOpt(returnType) && returnType.value.JStr? ==> r == Ok(EncodeFriendlyType(returnType.value.s, imports))
    ensures IsTruthyOpt(returnType) && !returnType.value.JStr? ==> r.Err?
  {
    if !IsTruthyOpt(returnType) then Ok(("v", imports))
    else if returnType.value.JStr? then Ok(EncodeFriendlyType(returnType.value.s, imports))
    else Err(TypeError)
  }

  /**
   * `(arguments || '')` after the list is mapped and joined: an array of
   * string names is encoded name by name, any other truthy value is
   * spliced in as its string form.
   */
  function ArgumentsCode(arguments: Option<Json>, imports: set<string>): (r: Result<(string, set<string>)>)
    ensures !IsTruthyOpt(arguments) ==> r == Ok(([], imports))
    ensures IsTruthyOpt(arguments) && arguments.value.JArr? ==> r == FriendlyList(arguments.value.items, imports)
    ensures IsTruthyOpt(arguments) && !arguments.value.JArr? ==> r == Ok((JsToString(arguments.value), imports))
  {
    if !IsTruthyOpt(arguments) then Ok(([], imports))
    else if arguments.value.JArr? then FriendlyList(arguments.value.items, imports)
    else Ok((JsToString(arguments.value), imports))
  }

  /** The encoding the normalised spec would carry for friendly types `rt` and `names`. */
  function FriendlyEncoding(rt: string, names: seq<string>): string
    requires FriendlyCode(rt).Some? && AllFixed(names)
  {
    FriendlyCode(rt).value + "@:" + Codes(names)
  }

  /**
   * The checks and defaults `addMethod` applies to a method spec: the
   * signature is renamed to the selector, friendly types are encoded, the
   * encoding defaults to `v@:` (no result, no arguments), the selector
   * must be a string and a callback must be given, `instance` defaults to
   * true, and the callback is dropped. The imports collect the classes
   * the friendly types name.
   */
  function Normalize(spec: map<string, Json>, imports: set<string>): (r: Result<(map<string, Json>, set<string>)>)
    ensures r.Ok? ==> "selector" in r.value.0 && r.value.0["selector"].JStr?
    ensures r.Ok? ==> "encoding" in r.value.0 && IsTruthy(r.value.0["encoding"])
    ensures r.Ok? ==> "instance" in r.value.0 && "callback" !in r.value.0 && "callback" in spec
    ensures r.Ok? && "instance" in spec ==> r.value.0["instance"] == spec["instance"]
    ensures r.Ok? ==> imports <= r.value.1
  {
    var named := WithSelector(spec);
    match WithFriendlyEncoding(named, imports)
    case Err(m) => Err(m)
    case Ok((encoded, imports')) =>
      var defaulted := if IsTruthyOpt(Field(encoded, "encoding")) then encoded else encoded["encoding" := JStr("v@:")];
      var encoding := defaulted["encoding"];
      if !(encoding.JStr? || encoding.JArr?) then Err(TypeError)
      else if !("selector" in defaulted && defaulted["selector"].JStr?) then Err(TypeError)
      else if "callback" !in defaulted then Err(MissingCallback)
      else
        var instanced := if "instance" in defaulted then defaulted else defaulted["instance" := JBool(true)];
        Ok((instanced - {"callback"}, imports'))
  }

  /** The error for a method spec without a callback. */
  const MissingCallback := "addMethod requires callback"

  /** The error for a selector added twice to one class. */
  const DuplicateSelector := "addMethod duplicate selector"

  /** A spec with only a selector and a callback gets the encoding `v@:` and is an instance method. */
  lemma DefaultEncoding(selector: string, callback: Json, imports: set<string>)
    ensures var r := Normalize(map["selector" := JStr(selector), "callback" := callback], imports);
      r == Ok((map["selector" := JStr(selector), "encoding" := JStr("v@:"), "instance" := JBool(true)], imports))
  {
    var spec := map["selector" := JStr(selector), "callback" := callback];
    assert Field(spec, "signature").None? && Field(spec, "returnType").None? && Field(spec, "arguments").None?;
    var d := spec["encoding" := JStr("v@:")]["instance" := JBool(true)];
    assert d - {"callback"} == map["selector" := JStr(selector), "encoding" := JStr("v@:"), "instance" := JBool(true)];
  }

  /** A truthy `signature` is used as the selector. */
  lemma SignatureIsSelector(spec: map<string, Json>, imports: set<string>)
    requires IsTruthyOpt(Field(spec, "signature"))
    requires Normalize(spec, imports).Ok?
    ensures Normalize(spec, imports).value.0["selector"] == spec["signature"]
    ensures "signature" !in Normalize(spec, imports).value.0
  {
  }

  /** Friendly return and argument types with fixed encodings become one string encoding and record no import. */
  lemma FriendlyTypesEncoded(selector: string, callback: Json, rt: string, names: seq<string>, imports: set<string>)
    requires FriendlyCode(rt).Some? && AllFixed(names)
    ensures var spec := map["selector" := JStr(selector), "callback" := callback,
                            "returnType" := JStr(rt), "arguments" := JArr(Strings(names))];
      var r := Normalize(spec, imports);
      r.Ok? && r.value.1 == imports && r.value.0["encoding"] == JStr(FriendlyEncoding(rt, names))
  {
    var spec := map["selector" := JStr(selector), "callback" := callback,
                    "returnType" := JStr(rt), "arguments" := JArr(Strings(names))];
    assert Field(spec, "signature").None?;
    assert WithSelector(spec) == spec;
    FriendlyTypesEncoding(spec, rt, names, imports);
    var w := WithFriendlyEncoding(spec, imports);
    assert "selector" in w.value.0 && w.value.0["selector"] == JStr(selector);
    assert "callback" in w.value.0;
  }

  /** The friendly-type step on its own: the encoding replaces the friendly types. */
  lemma FriendlyTypesEncoding(spec: map<string, Json>, rt: string, names: seq<string>, imports: set<string>)
    requires FriendlyCode(rt).Some? && AllFixed(names)
    requires Field(spec, "returnType") == Some(JStr(rt)) && Field(spec, "arguments") == Some(JArr(Strings(names)))
    ensures var r := WithFriendlyEncoding(spec, imports);
      r.Ok? && r.value.1 == imports && r.value.0["encoding"] == JStr(FriendlyEncoding(rt, names))
  {
    var code := FriendlyCode(rt).value;
    assert rt != [] by { FriendlyCodeNamed(rt); }
    assert ReturnTypeCode(Some(JStr(rt)), imports) == Ok((code, imports));
    FriendlyListOfNames(names, imports);
    assert ArgumentsCode(Some(JArr(Strings(names))), imports) == Ok((Codes(names), imports));
    assert FriendlyEncoding(rt, names) == code + "@:" + Codes(names);
  }

  /**
   * The encoding built from friendly types with fixed encodings decodes
   * back to their canonical spellings, one argument per name.
   */
  lemma FriendlyEncodingDecodes(ctx: Ctx, rt: string, names: seq<string>)
    requires FriendlyCode(rt).Some? && AllFixed(names)
    ensures var p := ParseEncodingSpec(ctx, FriendlyEncoding(rt, names));
      p.Ok? && p.value.ret.value == Some(CanonicalName(rt)) && DecodesTo(Ok(p.value.args), names)
  {
    var code := FriendlyCode(rt).value;
    FriendlyCodeChar(rt);
    SplitAtSelfSel(code, Codes(names));
    FriendlyCodeDecodes(ctx, rt, code, 0);
    FriendlyArgsDecode(ctx, [], names);
    assert [] + Codes(names) == Codes(names);
  }

  /** Only non-empty names have fixed encodings. */
  lemma FriendlyCodeNamed(t: string)
    requires FriendlyCode(t).Some?
    ensures t != []
  {
  }

  /** `@:` right after a one-character or `^v` return encoding splits the encoding back into its parts. */
  lemma SplitAtSelfSel(code: string, rest: string)
    requires |code| == 1 || code == "^v"
    ensures ReturnPart(code + "@:" + rest) == code
    ensures ArgumentPart(code + "@:" + rest) == rest
  {
    var e := code + "@:" + rest;
    assert e[..|code|] == code && e[|code|] == '@' && e[|code| + 1] == ':';
    assert e[|code| + 2..] == rest;
    assert MatchAt(e, "@:", |code|) by { assert e[|code|..|code| + 2] == "@:"; }
    forall j | 0 <= j < |code|
      ensures !MatchAt(e, "@:", j)
    {
      if j == |code| - 1 {
        assert e[j + 1] == '@';
      } else {
        assert e[j] == '^';
      }
    }
    FindIs(e, "@:", |code|);
  }
}

/**
 * A custom class as `Hyperloop.defineClass` records it: the methods added
 * to it by selector, and the classes its source must import.
 */
module GenCustomClass {
  import opened Wrappers
  import opened Json
  import opened GenCustom

  class CustomClass {
    var methods: map<string, map<string, Json>>
    var importClasses: set<string>

    /** A class extending `superclass` and implementing `protocols`, which are all imported. */
    constructor(superclass: string, protocols: seq<string>)
      ensures methods == map[]
      ensures importClasses == {superclass} + set p | p in protocols
    {
      methods := map[];
      importClasses := {superclass} + set p | p in protocols;
    }

    /**
     * `addMethod`: normalises the spec, records the classes its friendly
     * types name, and adds it under its selector unless that selector is
     * already taken.
     */
    method AddMethod(spec: map<string, Json>) returns (r: Result<map<string, Json>>)
      modifies this
      ensures Normalize(spec, old(importClasses)).Err? ==>
        r.Err? && methods == old(methods) && importClasses == old(importClasses)
      ensures Normalize(spec, old(importClasses)).Ok? ==>
        var (m, imports) := Normalize(spec, old(importClasses)).value;
        importClasses == imports &&
        (m["selector"].s in old(methods) ==> r.Err? && methods == old(methods)) &&
        (m["selector"].s !in old(methods) ==> r == Ok(m) && methods == old(methods)[m["selector"].s := m])
    {
      var normalized := Normalize(spec, importClasses);
      if normalized.Err? {
        return Err(normalized.error);
      }
      var (m, imports) := normalized.value;
      importClasses := imports;
      var selector := m["selector"].s;
      if selector in methods {
        return Err(DuplicateSelector);
      }
      methods := methods[selector := m];
      return Ok(m);
    }
  }
}
