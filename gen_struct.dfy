/**
 * Struct wrappers (iphone/hooks/generate/struct.js): the flattening of a
 * struct encoding into its leaf type codes, the fake field list built from
 * it for a struct the metabase does not know, and the encoding `makeStruct`
 * accumulates from a struct's fields.
 */
module GenStruct {
  import opened Wrappers
  import opened Strs
  import opened JsStrings
  import opened Json
  import opened JsValues
  import opened GenUtil

  // ---------------------------------------------------------------- helpers

  /** `s.indexOf(c)`: the first index of `c`, or -1. */
  function IndexOf(s: string, c: char): (r: int)
    ensures -1 <= r < |s|
  {
    if s == [] then -1
    else if s[0] == c then 0
    else
      var k := IndexOf(s[1..], c);
      if k < 0 then -1 else k + 1
  }

  /** The index found holds the first `c`; -1 means there is none. */
  lemma {:induction false} IndexOfFirst(s: string, c: char)
    ensures IndexOf(s, c) >= 0 ==> s[IndexOf(s, c)] == c && forall j :: 0 <= j < IndexOf(s, c) ==> s[j] != c
    ensures IndexOf(s, c) < 0 ==> c !in s
  {
    if s != [] && s[0] != c {
      IndexOfFirst(s[1..], c);
      if IndexOf(s[1..], c) < 0 {
        assert s == [s[0]] + s[1..];
      } else {
        forall j | 1 <= j < IndexOf(s, c) ensures s[j] != c {
          assert s[j] == s[1..][j - 1];
        }
      }
    }
  }

  /** A character found after a prefix lacking it is found at that index. */
  lemma IndexOfAfter(a: string, c: char, b: string)
    requires c !in a
    ensures IndexOf(a + [c] + b, c) == |a|
  {
    var s := a + [c] + b;
    IndexOfFirst(s, c);
    assert s[|a|] == c;
    assert forall j :: 0 <= j < |a| ==> s[j] == a[j];
  }

  /** A character that does not occur is not found. */
  lemma IndexOfNone(s: string, c: char)
    requires c !in s
    ensures IndexOf(s, c) == -1
  {
    IndexOfFirst(s, c);
  }

  /** `.replace(/}/g, '').replace(/{/g, '')`: every brace removed. */
  function StripBraces(s: string): (r: string)
    ensures '{' !in r && '}' !in r
    ensures |r| <= |s|
  {
    if s == [] then []
    else (if s[0] == '{' || s[0] == '}' then [] else [s[0]]) + StripBraces(s[1..])
  }

  /** A string without braces loses nothing. */
  lemma {:induction false} StripBracesNone(s: string)
    requires '{' !in s && '}' !in s
    ensures StripBraces(s) == s
  {
    if s != [] {
      assert s[0] != '{' && s[0] != '}';
      assert '{' !in s[1..] && '}' !in s[1..] by { assert forall k :: 0 <= k < |s[1..]| ==> s[1..][k] == s[k + 1]; }
      StripBracesNone(s[1..]);
      assert [s[0]] + s[1..] == s;
    }
  }

  /** Trimming keeps only characters of the string. */
  lemma TrimKeepsOut(s: string, c: char)
    requires c !in s
    ensures c !in Trim(s)
  {
    TrimEndDrops(s);
    var e := TrimEnd(s);
    TrimStartDrops(e);
    var t := TrimStart(e);
    forall k | 0 <= k < |t| ensures t[k] != c {
      assert t[k] == e[|e| - |t| + k] == s[|e| - |t| + k];
    }
  }

  /** No white space in a leaf type code. */
  predicate Unspaced(s: string)
  {
    forall k :: 0 <= k < |s| ==> !IsJsSpace(s[k])
  }

  /** Joining strings without white space gives none. */
  lemma UnspacedJoin(a: string, b: string)
    requires Unspaced(a) && Unspaced(b)
    ensures Unspaced(a + b)
  {
    forall k | 0 <= k < |a + b| ensures !IsJsSpace((a + b)[k]) {
      if k >= |a| { assert (a + b)[k] == b[k - |a|]; }
    }
  }

  /** Neither a brace nor `=`: a struct name or a run of leaf codes. */
  predicate Plain(s: string)
  {
    '{' !in s && '}' !in s && '=' !in s
  }

  /** Every brace removed, then the white space around trimmed. */
  function Unbrace(s: string): (r: string)
    ensures '{' !in r && '}' !in r
  {
    var u := StripBraces(s);
    TrimKeepsOut(u, '{');
    TrimKeepsOut(u, '}');
    Trim(u)
  }

  /** Leaf codes without braces or white space are their own unbracing. */
  lemma UnbracePlain(s: string)
    requires Plain(s) && Unspaced(s)
    ensures Unbrace(s) == s
  {
    StripBracesNone(s);
    TrimNoSpace(s);
  }

  // ---------------------------------------------------------------- flattenStruct as written

  /** The outcome of one call of `flattenStruct`: no `{` or no `=`, or the text its recursive call trims. */
  datatype Step = Done | Again(cut: string)

  /**
   * The test and the cut of `flattenStruct`: without a `{` or a `=` the
   * call ends; otherwise the text from the first `{` through the first `=`
   * is cut out and the rest is cut at its first `}` past index 0.
   */
  function FlattenStep(str: string): (r: Step)
    ensures r.Done? <==> IndexOf(str, '{') < 0 || IndexOf(str, '=') < 0
    ensures r.Again? && IndexOf(str, '{') < IndexOf(str, '=') ==> |r.cut| < |str|
  {
    var x := IndexOf(str, '{');
    var y := IndexOf(str, '=');
    if x < 0 || y < 0 then Done
    else Again(CutAtClose(str[..x] + str[y + 1..]))
  }

  /** `r.slice(0, z)` at the first `}`, unless that is at index 0 or missing. */
  function CutAtClose(r: string): (c: string)
    ensures |c| <= |r|
  {
    var z := IndexOf(r, '}');
    if z > 0 then r[..z] else r
  }

  /**
   * `flattenStruct(str)`, allowed at most `fuel` calls in all: None when
   * the calls are not over by then.
   */
  function FlattenStruct(str: string, fuel: nat): (r: Option<string>)
    decreases fuel, 1
    ensures r.Some? ==> '{' !in r.value && '}' !in r.value
  {
    if fuel == 0 then None else FlattenCall(str, fuel - 1)
  }

  /**
   * One call of `flattenStruct`: the braces removed and the text trimmed
   * when it ends, otherwise the recursive call on the trimmed cut, which is
   * allowed `fuel` calls.
   */
  function FlattenCall(str: string, fuel: nat): (r: Option<string>)
    decreases fuel, 2
    ensures r.Some? ==> '{' !in r.value && '}' !in r.value
  {
    match FlattenStep(str)
    case Done => Some(Unbrace(str))
    case Again(cut) => FlattenStruct(Trim(cut), fuel)
  }

  /** A call that recurses leaves one call fewer for the trimmed cut. */
  lemma CallAgain(str: string, cut: string, fuel: nat)
    requires fuel >= 1 && FlattenStep(str) == Again(cut)
    ensures FlattenStruct(str, fuel) == FlattenStruct(Trim(cut), fuel - 1)
  {
    assert FlattenStruct(str, fuel) == FlattenCall(str, fuel - 1);
  }

  /** A call that does not recurse removes the braces and trims. */
  lemma CallDone(str: string, fuel: nat)
    requires fuel >= 1 && FlattenStep(str).Done?
    ensures FlattenStruct(str, fuel) == Some(Unbrace(str))
  {
    assert FlattenStruct(str, fuel) == FlattenCall(str, fuel - 1);
  }

  /** More fuel does not change a result already reached. */
  lemma {:induction false} FlattenMoreFuel(str: string, fuel: nat, more: nat)
    requires fuel <= more && FlattenStruct(str, fuel).Some?
    decreases fuel
    ensures FlattenStruct(str, more) == FlattenStruct(str, fuel)
  {
    match FlattenStep(str)
    case Done =>
      CallDone(str, fuel);
      CallDone(str, more);
    case Again(cut) =>
      CallAgain(str, cut, fuel);
      CallAgain(str, cut, more);
      FlattenMoreFuel(Trim(cut), fuel - 1, more - 1);
  }

  /** A struct header `{name=` is cut out and the rest cut at its first `}`. */
  lemma HeaderStep(name: string, rest: string)
    requires Plain(name)
    ensures FlattenStep("{" + name + "=" + rest) == Again(CutAtClose(rest))
  {
    var s := "{" + name + "=" + rest;
    IndexOfAfter([], '{', name + "=" + rest);
    assert s == [] + ['{'] + (name + "=" + rest);
    IndexOfAfter("{" + name, '=', rest);
    assert s == ("{" + name) + ['='] + rest;
    assert s[..0] + s[|name| + 2..] == rest;
  }

  /** Leaf codes end the recursion and are their own result. */
  lemma LeafDone(s: string)
    requires Plain(s) && Unspaced(s)
    ensures FlattenStep(s).Done? && Unbrace(s) == s
  {
    IndexOfNone(s, '{');
    UnbracePlain(s);
  }

  /** The cut stops at the first `}` when something precedes it. */
  lemma CutBeforeClose(a: string, b: string)
    requires '}' !in a && |a| > 0
    ensures CutAtClose(a + "}" + b) == a
  {
    IndexOfAfter(a, '}', b);
    assert a + "}" + b == a + ['}'] + b;
    assert (a + "}" + b)[..|a|] == a;
  }

  /** Without a `}` nothing is cut. */
  lemma CutNoClose(a: string)
    requires '}' !in a
    ensures CutAtClose(a) == a
  {
    IndexOfNone(a, '}');
  }

  /** A string whose trimmed cut is itself recurses on itself forever. */
  lemma {:induction false} FixedPointLoops(s: string, cut: string, fuel: nat)
    requires FlattenStep(s) == Again(cut) && Trim(cut) == s
    decreases fuel
    ensures FlattenStruct(s, fuel).None?
  {
    if fuel > 0 {
      CallAgain(s, cut, fuel);
      FixedPointLoops(s, cut, fuel - 1);
    }
  }

  /** `a={b`: the `=` before the `{` makes the call recurse on the very same string, so it never returns. */
  lemma EqualsBeforeBraceLoops(fuel: nat)
    ensures FlattenStruct("a={b", fuel).None?
  {
    LoopStep();
    FixedPointLoops("a={b", "a={b", fuel);
  }

  /** The cut of `a={b` is `a={b` itself, which trimming keeps. */
  lemma LoopStep()
    ensures FlattenStep("a={b") == Again("a={b") && Trim("a={b") == "a={b"
  {
    var s := "a={b";
    IndexOfAfter("a", '=', "{b");
    IndexOfAfter("a=", '{', "b");
    assert s[..2] + s[2..] == s;
    CutNoClose(s);
    LoopTrimmed();
  }

  /** `a={b` holds no white space. */
  lemma LoopTrimmed()
    ensures Trim("a={b") == "a={b"
  {
    var s := "a={b";
    assert forall k :: 0 <= k < |s| ==> s[k] in {'a', '=', '{', 'b'};
    TrimNoSpace(s);
  }

  /** A struct with only leaf fields flattens to those fields in one recursive call. */
  lemma FlatAsWritten(name: string, fields: string, fuel: nat)
    requires Plain(name) && Plain(fields) && Unspaced(fields) && fuel >= 2
    ensures FlattenStruct("{" + name + "=" + fields + "}", fuel) == Some(fields)
  {
    var s := "{" + name + "=" + fields + "}";
    if |fields| > 0 {
      FlatFirstStep(name, fields);
      CallAgain(s, fields, fuel);
      TrimNoSpace(fields);
      LeafDone(fields);
      CallDone(fields, fuel - 1);
    } else {
      assert s == "{" + name + "=}";
      EmptyFirstStep(name);
      CallAgain(s, "}", fuel);
      CloseStep();
      CallDone("}", fuel - 1);
    }
  }

  /** The first call on a struct of leaf fields cuts out the fields. */
  lemma FlatFirstStep(name: string, fields: string)
    requires Plain(name) && Plain(fields) && |fields| > 0
    ensures FlattenStep("{" + name + "=" + fields + "}") == Again(fields)
  {
    HeaderStep(name, fields + "}");
    assert "{" + name + "=" + fields + "}" == "{" + name + "=" + (fields + "}");
    CutBeforeClose(fields, []);
    assert fields + "}" + [] == fields + "}";
  }

  /** The first call on a struct without fields keeps only its `}`. */
  lemma EmptyFirstStep(name: string)
    requires Plain(name)
    ensures FlattenStep("{" + name + "=}") == Again("}")
  {
    HeaderStep(name, "}");
    assert "{" + name + "=}" == "{" + name + "=" + "}";
    IndexOfAfter([], '}', []);
    assert CutAtClose("}") == "}";
  }

  /** A lone `}`, trimmed, ends the recursion with nothing left. */
  lemma CloseStep()
    ensures Trim("}") == "}" && FlattenStep("}").Done? && Unbrace("}") == []
  {
    TrimNoSpace("}");
    assert StripBraces("}") == [];
    TrimNoSpace([]);
    IndexOfNone("}", '{');
  }

  /**
   * A struct whose fields are two structs flattens, as written, to the
   * first inner struct's fields only: the cut at the first `}` drops the
   * second inner struct.
   */
  lemma NestedAsWritten(outer: string, n1: string, f1: string, n2: string, f2: string, fuel: nat)
    requires Plain(outer) && Plain(n1) && Plain(f1) && Plain(n2) && Plain(f2) && Unspaced(n1) && Unspaced(f1) && fuel >= 3
    ensures FlattenStruct("{" + outer + "={" + n1 + "=" + f1 + "}{" + n2 + "=" + f2 + "}}", fuel) == Some(f1)
  {
    NestedFirstStep(outer, n1, f1, n2, f2);
    AgainOpen("{" + outer + "={" + n1 + "=" + f1 + "}{" + n2 + "=" + f2 + "}}", n1, f1, fuel);
  }

  /** A first step that keeps one unclosed struct header ends with that struct's fields. */
  lemma AgainOpen(str: string, n1: string, f1: string, fuel: nat)
    requires Plain(n1) && Plain(f1) && Unspaced(n1) && Unspaced(f1) && fuel >= 3
    requires FlattenStep(str) == Again("{" + n1 + "=" + f1)
    ensures FlattenStruct(str, fuel) == Some(f1)
  {
    HeaderTrimmed(n1, f1);
    CallAgain(str, "{" + n1 + "=" + f1, fuel);
    OpenAsWritten(n1, f1, fuel - 1);
  }

  /** A struct header and its fields without white space are kept by trimming. */
  lemma HeaderTrimmed(name: string, fields: string)
    requires Unspaced(name) && Unspaced(fields)
    ensures Trim("{" + name + "=" + fields) == "{" + name + "=" + fields
  {
    UnspacedJoin("{", name);
    UnspacedJoin("{" + name, "=");
    UnspacedJoin("{" + name + "=", fields);
    TrimNoSpace("{" + name + "=" + fields);
  }

  /** The first call on two nested structs keeps the first inner struct, without its `}`. */
  lemma NestedFirstStep(outer: string, n1: string, f1: string, n2: string, f2: string)
    requires Plain(outer) && Plain(n1) && Plain(f1)
    ensures FlattenStep("{" + outer + "={" + n1 + "=" + f1 + "}{" + n2 + "=" + f2 + "}}") == Again("{" + n1 + "=" + f1)
  {
    var inner := "{" + n1 + "=" + f1;
    var tail := "{" + n2 + "=" + f2 + "}}";
    assert "{" + outer + "={" + n1 + "=" + f1 + "}{" + n2 + "=" + f2 + "}}" == "{" + outer + "=" + (inner + "}" + tail);
    HeaderStep(outer, inner + "}" + tail);
    CutBeforeClose(inner, tail);
  }

  /** A struct header followed by leaf fields and no closing brace flattens to the fields. */
  lemma OpenAsWritten(name: string, fields: string, fuel: nat)
    requires Plain(name) && Plain(fields) && Unspaced(fields) && fuel >= 2
    ensures FlattenStruct("{" + name + "=" + fields, fuel) == Some(fields)
  {
    var s := "{" + name + "=" + fields;
    HeaderStep(name, fields);
    CutNoClose(fields);
    CallAgain(s, fields, fuel);
    TrimNoSpace(fields);
    LeafDone(fields);
    CallDone(fields, fuel - 1);
  }

  // ---------------------------------------------------------------- flattening, corrected

  /**
   * Every struct header `{name=` removed, and every brace: a `{` with no
   * `=` after it and every `}` are dropped alone.
   */
  function StripHeaders(s: string): (r: string)
    decreases |s|
    ensures '{' !in r && '}' !in r
  {
    if s == [] then []
    else if s[0] == '{' then
      var y := IndexOf(s, '=');
      if y < 0 then StripHeaders(s[1..]) else StripHeaders(s[y + 1..])
    else if s[0] == '}' then StripHeaders(s[1..])
    else [s[0]] + StripHeaders(s[1..])
  }

  /**
   * The intended `flattenStruct`: the leaf type codes of a struct encoding,
   * nested structs included, in order.
   */
  function FlattenCorrected(str: string): (r: string)
    ensures '{' !in r && '}' !in r
  {
    var u := StripHeaders(str);
    TrimKeepsOut(u, '{');
    TrimKeepsOut(u, '}');
    Trim(u)
  }

  /** A struct encoding as a tree: leaf type codes, or a named struct of fields. */
  datatype Enc = Leaf(code: string) | Struct(name: string, fields: seq<Enc>)

  /** The encoding of a tree: `{name=` then the fields' encodings, then `}`. */
  function Encode(e: Enc): string
    decreases e
  {
    match e
    case Leaf(code) => code
    case Struct(name, fields) => "{" + name + "=" + EncodeAll(fields) + "}"
  }

  function EncodeAll(fields: seq<Enc>): string
    decreases fields
  {
    if fields == [] then [] else Encode(fields[0]) + EncodeAll(fields[1..])
  }

  /** The leaf codes of a tree, in order. */
  function Leaves(e: Enc): string
    decreases e
  {
    match e
    case Leaf(code) => code
    case Struct(_, fields) => LeavesAll(fields)
  }

  function LeavesAll(fields: seq<Enc>): string
    decreases fields
  {
    if fields == [] then [] else Leaves(fields[0]) + LeavesAll(fields[1..])
  }

  /** Leaf codes and names hold neither braces nor `=`, and leaf codes no white space. */
  predicate WellFormed(e: Enc)
    decreases e
  {
    match e
    case Leaf(code) => Plain(code) && Unspaced(code)
    case Struct(name, fields) => Plain(name) && WellFormedAll(fields)
  }

  predicate WellFormedAll(fields: seq<Enc>)
    decreases fields
  {
    fields == [] || (WellFormed(fields[0]) && WellFormedAll(fields[1..]))
  }

  /** Leaf codes are copied through. */
  lemma {:induction false} StripLeaf(code: string, rest: string)
    requires Plain(code)
    decreases |code|
    ensures StripHeaders(code + rest) == code + StripHeaders(rest)
  {
    if code != [] {
      assert code[0] in code;
      assert forall c :: c in code[1..] ==> c in code;
      var s := code + rest;
      assert s[0] == code[0] && s[0] != '{' && s[0] != '}';
      assert s[1..] == code[1..] + rest;
      assert StripHeaders(s) == [s[0]] + StripHeaders(s[1..]);
      StripLeaf(code[1..], rest);
      assert code == [code[0]] + code[1..];
    } else {
      assert code + rest == rest;
    }
  }

  /** A struct header is dropped whole. */
  lemma StripHeader(name: string, rest: string)
    requires Plain(name)
    ensures StripHeaders("{" + name + "=" + rest) == StripHeaders(rest)
  {
    var s := "{" + name + "=" + rest;
    IndexOfAfter("{" + name, '=', rest);
    assert s == ("{" + name) + ['='] + rest;
    assert s[|name| + 2..] == rest;
  }

  /** A closing brace is dropped. */
  lemma StripClose(rest: string)
    ensures StripHeaders("}" + rest) == StripHeaders(rest)
  {
    assert ("}" + rest)[1..] == rest;
  }

  /** Stripping a tree's encoding leaves its leaf codes, whatever follows. */
  lemma {:induction false} StripEncode(e: Enc, rest: string)
    requires WellFormed(e)
    decreases e, 1
    ensures StripHeaders(Encode(e) + rest) == Leaves(e) + StripHeaders(rest)
  {
    match e
    case Leaf(code) =>
      StripLeaf(code, rest);
    case Struct(name, fields) =>
      var body := EncodeAll(fields) + ("}" + rest);
      assert Encode(e) + rest == "{" + name + "=" + body;
      StripHeader(name, body);
      StripEncodeAll(fields, "}" + rest);
      StripClose(rest);
  }

  lemma {:induction false} StripEncodeAll(fields: seq<Enc>, rest: string)
    requires WellFormedAll(fields)
    decreases fields, 2
    ensures StripHeaders(EncodeAll(fields) + rest) == LeavesAll(fields) + StripHeaders(rest)
  {
    if fields != [] {
      var tail := EncodeAll(fields[1..]) + rest;
      assert EncodeAll(fields) + rest == Encode(fields[0]) + tail;
      StripEncode(fields[0], tail);
      StripEncodeAll(fields[1..], rest);
      assert LeavesAll(fields) == Leaves(fields[0]) + LeavesAll(fields[1..]);
    } else {
      assert EncodeAll(fields) + rest == rest;
    }
  }

  /** The leaf codes of a well-formed tree hold no white space. */
  lemma {:induction false} LeavesUnspaced(e: Enc)
    requires WellFormed(e)
    decreases e, 1
    ensures Unspaced(Leaves(e))
  {
    match e
    case Leaf(_) =>
    case Struct(_, fields) => LeavesAllUnspaced(fields);
  }

  lemma {:induction false} LeavesAllUnspaced(fields: seq<Enc>)
    requires WellFormedAll(fields)
    decreases fields, 2
    ensures Unspaced(LeavesAll(fields))
  {
    if fields != [] {
      LeavesUnspaced(fields[0]);
      LeavesAllUnspaced(fields[1..]);
      UnspacedJoin(Leaves(fields[0]), LeavesAll(fields[1..]));
    }
  }

  /** The corrected flattening of any well-formed struct encoding is its leaf codes, in order. */
  lemma FlattenCorrectedLeaves(e: Enc)
    requires WellFormed(e)
    ensures FlattenCorrected(Encode(e)) == Leaves(e)
  {
    StripEncode(e, []);
    assert Encode(e) + [] == Encode(e);
    assert StripHeaders([]) == [];
    LeavesUnspaced(e);
    TrimNoSpace(Leaves(e));
  }

  /** On a struct of leaf fields, the corrected flattening agrees with the code as written. */
  lemma FlatCorrected(name: string, fields: string)
    requires Plain(name) && Plain(fields) && Unspaced(fields)
    ensures FlattenCorrected("{" + name + "=" + fields + "}") == fields
  {
    var e := Struct(name, [Leaf(fields)]);
    OneField(Leaf(fields));
    FlattenCorrectedLeaves(e);
  }

  /** A struct of one field. */
  lemma OneField(a: Enc)
    ensures EncodeAll([a]) == Encode(a) && LeavesAll([a]) == Leaves(a)
    ensures WellFormed(a) ==> WellFormedAll([a])
  {
    assert [a][1..] == [];
  }

  /** A struct of two fields. */
  lemma TwoFields(a: Enc, b: Enc)
    ensures EncodeAll([a, b]) == Encode(a) + Encode(b) && LeavesAll([a, b]) == Leaves(a) + Leaves(b)
    ensures WellFormed(a) && WellFormed(b) ==> WellFormedAll([a, b])
  {
    assert [a, b][1..] == [b];
    OneField(b);
  }

  /** Two nested structs keep the fields of both. */
  lemma NestedCorrected(outer: string, n1: string, f1: string, n2: string, f2: string)
    requires Plain(outer) && Plain(n1) && Plain(f1) && Plain(n2) && Plain(f2) && Unspaced(f1) && Unspaced(f2)
    ensures FlattenCorrected("{" + outer + "={" + n1 + "=" + f1 + "}{" + n2 + "=" + f2 + "}}") == f1 + f2
  {
    var s1 := Struct(n1, [Leaf(f1)]);
    var s2 := Struct(n2, [Leaf(f2)]);
    var e := Struct(outer, [s1, s2]);
    OneField(Leaf(f1));
    OneField(Leaf(f2));
    TwoFields(s1, s2);
    assert Encode(e) == "{" + outer + "={" + n1 + "=" + f1 + "}{" + n2 + "=" + f2 + "}}";
    FlattenCorrectedLeaves(e);
  }

  // ---------------------------------------------------------------- createFakeFieldStruct

  /** A field of a struct: its encoding and its name. */
  datatype Field = Field(encoding: string, name: string)

  /** A struct the metabase does not describe, made up from its encoding. */
  datatype FakeStruct = FakeStruct(name: Option<Json>, fields: seq<Field>)

  /** The made-up name of the field at index `c`: `'f' + c`. */
  function FieldName(c: nat): (r: string)
    ensures |r| >= 2 && r[0] == 'f'
  {
    "f" + NatToString(c)
  }

  /** Different indexes give different field names. */
  lemma FieldNamesDistinct(i: nat, j: nat)
    requires i != j
    ensures FieldName(i) != FieldName(j)
  {
    if FieldName(i) == FieldName(j) {
      assert NatToString(i) == FieldName(i)[1..] == FieldName(j)[1..] == NatToString(j);
      NatToStringValue(i);
      NatToStringValue(j);
    }
  }

  /**
   * The flattening `createFakeFieldStruct` uses: `flattenStruct` as written
   * (allowed `fuel` calls), or the corrected flattening.
   */
  function FakeFlattening(encoding: string, asWritten: bool, fuel: nat): (r: Option<string>)
    ensures !asWritten ==> r == Some(FlattenCorrected(encoding))
    ensures asWritten ==> r == FlattenStruct(encoding, fuel)
  {
    if asWritten then FlattenStruct(encoding, fuel) else Some(FlattenCorrected(encoding))
  }

  /**
   * `createFakeFieldStruct`: one field per character of the flattened
   * encoding, holding that character and named `f0`, `f1`, ...; nothing
   * when the flattening as written does not end within `fuel` calls.
   */
  method CreateFakeFieldStruct(name: Option<Json>, encoding: string, asWritten: bool, fuel: nat) returns (s: Option<FakeStruct>)
    ensures s.Some? <==> FakeFlattening(encoding, asWritten, fuel).Some?
    ensures s.Some? ==> s.value.name == name && |s.value.fields| == |FakeFlattening(encoding, asWritten, fuel).value|
    ensures s.Some? ==> forall c :: 0 <= c < |s.value.fields| ==>
      s.value.fields[c] == Field([FakeFlattening(encoding, asWritten, fuel).value[c]], FieldName(c))
  {
    var flat := FakeFlattening(encoding, asWritten, fuel);
    if flat.None? {
      return None;
    }
    var structenc := flat.value;
    var fields: seq<Field> := [];
    var c := 0;
    while c < |structenc|
      invariant 0 <= c <= |structenc| && |fields| == c
      invariant forall k :: 0 <= k < c ==> fields[k] == Field([structenc[k]], FieldName(k))
    {
      fields := fields + [Field([structenc[c]], FieldName(c))];
      c := c + 1;
    }
    s := Some(FakeStruct(name, fields));
  }

  /**
   * The fake fields of a struct of leaf fields are its type codes, one per
   * field, on either flattening.
   */
  lemma FakeFieldsOfLeafStruct(name: string, fields: string, asWritten: bool, fuel: nat)
    requires Plain(name) && Plain(fields) && Unspaced(fields) && fuel >= 2
    ensures FakeFlattening("{" + name + "=" + fields + "}", asWritten, fuel) == Some(fields)
  {
    if asWritten {
      FlatAsWritten(name, fields, fuel);
    } else {
      FlatCorrected(name, fields);
    }
  }

  // ---------------------------------------------------------------- makeStruct's encoding

  /** The field encodings of `fields.forEach`, appended in order; a null field is a TypeError. */
  function FieldsText(items: seq<Json>): (r: Result<string>)
    decreases |items|
    ensures r.Err? <==> exists k :: 0 <= k < |items| && items[k].JNull?
  {
    if items == [] then Ok([])
    else
      var last := items[|items| - 1];
      match FieldsText(items[..|items| - 1])
      case Err(m) => Err(m)
      case Ok(t) => if last.JNull? then Err(TypeError) else Ok(t + OptToString(Prop(last, "encoding")))
  }

  /**
   * The encoding `makeStruct` builds: `{`, the struct's name, `=`, every
   * field's encoding, `}`. A truthy `fields` that is not an array has no
   * `forEach` and throws.
   */
  function StructEncodingOf(struct: map<string, Json>): Result<string>
  {
    var name := OptToString(if "name" in struct then Some(struct["name"]) else None);
    var fields := if "fields" in struct then Some(struct["fields"]) else None;
    if !IsTruthyOpt(fields) then Ok(StructEncoding(name, ""))
    else match fields.value
      case JArr(items) =>
        (match FieldsText(items)
         case Err(m) => Err(m)
         case Ok(t) => Ok(StructEncoding(name, t)))
      case _ => Err(TypeError)
  }

  /** The loop of `makeStruct` over the fields, accumulating the encoding. */
  method MakeStructEncoding(struct: map<string, Json>) returns (r: Result<string>)
    ensures r == StructEncodingOf(struct)
  {
    var name := OptToString(if "name" in struct then Some(struct["name"]) else None);
    var fields := if "fields" in struct then Some(struct["fields"]) else None;
    if !IsTruthyOpt(fields) {
      return Ok(StructEncoding(name, ""));
    }
    if !fields.value.JArr? {
      return Err(TypeError);
    }
    var t := FieldsLoop(fields.value.items);
    match t
    case Err(m) =>
      return Err(m);
    case Ok(text) =>
      return Ok(StructEncoding(name, text));
  }

  /** `fields.forEach`: every field's encoding, appended in order. */
  method FieldsLoop(items: seq<Json>) returns (r: Result<string>)
    ensures r == FieldsText(items)
  {
    var encoding := "";
    var i := 0;
    while i < |items|
      invariant 0 <= i <= |items|
      invariant FieldsText(items[..i]) == Ok(encoding)
    {
      assert items[..i + 1][..i] == items[..i];
      if items[i].JNull? {
        assert items[..i + 1][i].JNull?;
        FieldsTextPrefixErr(items, i + 1);
        return Err(TypeError);
      }
      encoding := encoding + OptToString(Prop(items[i], "encoding"));
      i := i + 1;
    }
    assert items[..i] == items;
    return Ok(encoding);
  }

  /** A null field stops the loop: every longer prefix fails too. */
  lemma FieldsTextPrefixErr(items: seq<Json>, n: nat)
    requires n <= |items| && FieldsText(items[..n]).Err?
    ensures FieldsText(items).Err? && FieldsText(items).error == TypeError
  {
    var k :| 0 <= k < n && items[..n][k].JNull?;
    assert items[k].JNull?;
    FieldsTextErr(items);
  }

  /** The only failure of the fields loop is a TypeError. */
  lemma {:induction false} FieldsTextErr(items: seq<Json>)
    decreases |items|
    ensures FieldsText(items).Err? ==> FieldsText(items).error == TypeError
  {
    if items != [] {
      FieldsTextErr(items[..|items| - 1]);
    }
  }

  /** The field encodings of a struct's fields. */
  function EncodingObjects(fields: seq<Enc>): (r: seq<Json>)
    ensures |r| == |fields|
  {
    if fields == [] then []
    else EncodingObjects(fields[..|fields| - 1]) + [JObj(map["encoding" := JStr(Encode(fields[|fields| - 1]))])]
  }

  /** Fields whose objects hold their encodings are written one after the other. */
  lemma {:induction false} FieldsTextOfObjects(fields: seq<Enc>)
    decreases |fields|
    ensures FieldsText(EncodingObjects(fields)) == Ok(EncodeAll(fields))
  {
    if fields != [] {
      var objs := EncodingObjects(fields);
      var init := fields[..|fields| - 1];
      assert objs[..|objs| - 1] == EncodingObjects(init);
      FieldsTextOfObjects(init);
      EncodeAllSnoc(init, fields[|fields| - 1]);
      assert init + [fields[|fields| - 1]] == fields;
    }
  }

  /** Appending a field appends its encoding. */
  lemma {:induction false} EncodeAllSnoc(fields: seq<Enc>, e: Enc)
    decreases |fields|
    ensures EncodeAll(fields + [e]) == EncodeAll(fields) + Encode(e)
  {
    if fields == [] {
      assert [e][1..] == [];
    } else {
      assert (fields + [e])[1..] == fields[1..] + [e];
      EncodeAllSnoc(fields[1..], e);
    }
  }

  /** `makeStruct` on a named struct whose fields carry their encodings. */
  lemma MakeStructOfFields(name: string, fields: seq<Enc>)
    ensures StructEncodingOf(map["name" := JStr(name), "fields" := JArr(EncodingObjects(fields))])
      == Ok(StructEncoding(name, EncodeAll(fields)))
  {
    var m := map["name" := JStr(name), "fields" := JArr(EncodingObjects(fields))];
    assert "name" in m && m["name"] == JStr(name);
    assert "fields" in m && m["fields"] == JArr(EncodingObjects(fields));
    assert OptToString(Some(JStr(name))) == name;
    assert IsTruthyOpt(Some(JArr(EncodingObjects(fields))));
    FieldsTextOfObjects(fields);
  }

  /**
   * What `makeStruct` writes for a struct read back: `getStructNameFromEncoding`
   * gives the struct's name, and the corrected flattening gives the leaf
   * codes of its fields, nested structs included.
   */
  lemma MakeStructRoundTrip(name: string, fields: seq<Enc>)
    requires IsPlainStructName(name) && Plain(name) && WellFormedAll(fields)
    ensures var r := StructEncodingOf(map["name" := JStr(name), "fields" := JArr(EncodingObjects(fields))]);
      r.Ok? && GetStructNameFromEncoding(r.value) == Some(name) && FlattenCorrected(r.value) == LeavesAll(fields)
  {
    MakeStructOfFields(name, fields);
    StructNameRoundTrip(name, EncodeAll(fields));
    assert Encode(Struct(name, fields)) == StructEncoding(name, EncodeAll(fields));
    FlattenCorrectedLeaves(Struct(name, fields));
  }
}
