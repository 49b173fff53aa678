/**
 * Blocks: the two block definitions of the metabase generator and the
 * return-type extraction from a block's type spelling.
 *
 * `BlockParser.cpp` builds a block from a parameter whose type is a block:
 * its return type is cut out of the spelling `R (^)(A, B)`, its encoding
 * is `@?`, and it has no base members. `block.cpp` builds one from a
 * block typedef: base members and signature, but no return type, so its
 * `returns` is resolved from an empty object.
 */
module Blocks {
  import opened Wrappers
  import opened Strs
  import opened MetabaseUtil
  import opened Json
  import opened Defs
  import opened ResolveJson
  import opened Kinds

  // ------------------------------------------------ return type, as written

  /** Where the scan for the end of a parameter list stopped: the index of a `)` (None for `npos`) and the skip `e`. */
  datatype Scan = Scan(close: Option<nat>, skip: nat)

  /** `block.find(")", offset)`. */
  function NextClose(block: string, offset: nat): (r: Option<nat>)
    ensures r.Some? ==> offset <= r.value < |block| && block[r.value] == ')'
  {
    if offset <= |block| then FindFromChar(block, ')', offset); FindFrom(block, [')'], offset)
    else FindFrom(block, [')'], offset)
  }

  /** `NextClose` finds the first `)`: there is none before it, and none at all when it finds nothing. */
  lemma NextCloseFirst(block: string, offset: nat)
    requires offset <= |block|
    ensures NextClose(block, offset).Some? ==> ')' !in block[offset..NextClose(block, offset).value]
    ensures NextClose(block, offset).None? ==> ')' !in block[offset..]
  {
    FindFromChar(block, ')', offset);
  }

  /** What one round of the scan does: stop with a result, or resume at `offset` with the `)` found and `e = 1`. */
  datatype Round = Stopped(sc: Scan) | Resumed(offset: nat, close: Option<nat>, skip: nat)

  /**
   * One round of the `while (offset < len)` loop of
   * `BlockDefinition::parseBlock`: find the next `)`; a `^)` or a `),` is
   * taken to be inside the parameters and the scan resumes after it with
   * `e = 1`; any other `)`, or none, ends the scan.
   */
  function ScanRound(block: string, offset: nat, skip: nat): (r: Round)
    requires 1 <= offset < |block| && skip <= 1
    ensures r.Resumed? ==> offset < r.offset <= |block| && r.skip == 1 && r.close == Some(r.offset - 1)
    ensures r.Stopped? ==> r.sc.skip == skip && (r.sc.close.Some? ==> offset <= r.sc.close.value < |block|)
  {
    match NextClose(block, offset)
    case None => Stopped(Scan(None, skip))
    case Some(q) =>
      if block[q - 1] == '^' then Resumed(q + 1, Some(q), 1)
      else if q + 1 < |block| && block[q + 1] == ',' then Resumed(q + 1, Some(q), 1)
      else Stopped(Scan(Some(q), skip))
  }

  /** The whole loop: rounds until one stops or `offset` reaches the end. */
  function ScanFrom(block: string, offset: nat, close: Option<nat>, skip: nat): (r: Scan)
    requires 1 <= offset && skip <= 1 && close.Some? && close.value <= |block|
    decreases |block| - offset
    ensures r.skip <= 1
    ensures r.close.Some? ==> r.close.value <= |block|
    ensures r.close.None? ==> |block| > 0
  {
    if offset >= |block| then Scan(close, skip)
    else
      match ScanRound(block, offset, skip)
      case Stopped(sc) => sc
      case Resumed(o, c, k) => ScanFrom(block, o, c, k)
  }

  /**
   * `p2 + 1 < block.size() ? block.substr(p2 + 1 + e) : ""`; with `p2`
   * equal to `npos`, `p2 + 1` wraps around to 0.
   */
  function AfterClose(block: string, sc: Scan): (r: string)
    requires sc.skip <= 1 && (sc.close.Some? ==> sc.close.value <= |block|) && (sc.close.None? ==> |block| > 0)
    ensures sc.close.None? ==> r == block[sc.skip..]
    ensures sc.close.Some? && sc.close.value + 1 < |block| ==> r == block[sc.close.value + 1 + sc.skip..]
    ensures sc.close.Some? && sc.close.value + 1 >= |block| ==> r == []
  {
    match sc.close
    case None => block[sc.skip..]
    case Some(p2) => if p2 + 1 < |block| then block[p2 + 1 + sc.skip..] else ""
  }

  /**
   * `BlockDefinition::parseBlock` as written: no `(^)(` gives the empty
   * string; otherwise the text before `(^)(` joined to the text after the
   * `)` the scan stopped at, trimmed.
   */
  function BlockReturnAsWritten(block: string): (r: string)
    ensures IsTrimmed(r)
    ensures Find(block, "(^)(").None? ==> r == []
  {
    match Find(block, "(^)(")
    case None => ""
    case Some(p1) => ReturnAround(block, p1)
  }

  /** The text before the `(^)(` at `p1` joined to the text after the `)` the scan stops at, trimmed. */
  function ReturnAround(block: string, p1: nat): (r: string)
    requires p1 + 4 <= |block|
    ensures IsTrimmed(r)
  {
    Trim(block[..p1] + AfterClose(block, ScanFrom(block, p1 + 4, Some(p1 + 4), 0)))
  }

  /** The `while (offset < len)` loop of `BlockDefinition::parseBlock`, from just after the `(^)(` at `p1`. */
  method ScanClose(block: string, p1: nat) returns (sc: Scan)
    requires p1 + 4 <= |block|
    ensures sc == ScanFrom(block, p1 + 4, Some(p1 + 4), 0)
  {
    var offset := p1 + 4;
    var p2: Option<nat> := Some(offset);
    var e := 0;
    ghost var want := ScanFrom(block, p1 + 4, Some(p1 + 4), 0);
    while offset < |block|
      invariant 1 <= offset && e <= 1 && p2.Some? && p2.value <= |block|
      invariant ScanFrom(block, offset, p2, e) == want
      decreases |block| - offset
    {
      match ScanRound(block, offset, e)
      case Stopped(result) =>
        return result;
      case Resumed(o, c, k) =>
        offset, p2, e := o, c, k;
    }
    sc := Scan(p2, e);
  }

  /** `BlockDefinition::parseBlock`: the scan, the splice around it and its two `trim`s. */
  method BlockReturnSpelling(block: string) returns (r: string)
    ensures r == BlockReturnAsWritten(block)
  {
    var found := Find(block, "(^)(");
    if found.None? {
      return "";
    }
    var p1 := found.value;
    var sc := ScanClose(block, p1);
    AsWrittenFromScan(block, p1, sc);
    var ret := block[..p1] + AfterClose(block, sc);
    ret := Trim(ret);
    r := Trim(ret);
  }

  /** `BlockReturnAsWritten` once `(^)(` has been found at `p1`. */
  lemma AsWrittenFromScan(block: string, p1: nat, sc: Scan)
    requires Find(block, "(^)(") == Some(p1)
    requires p1 + 4 <= |block| && sc == ScanFrom(block, p1 + 4, Some(p1 + 4), 0)
    ensures BlockReturnAsWritten(block) == Trim(Trim(block[..p1] + AfterClose(block, sc)))
  {
    TrimIdempotent(block[..p1] + AfterClose(block, sc));
  }

  // ----------------------------------------------- return type, corrected

  /** How much a character changes the parenthesis depth. */
  function Delta(c: char): int
  {
    if c == '(' then 1 else if c == ')' then -1 else 0
  }

  /** Opened minus closed parentheses of `t`. */
  function Depth(t: string): int
  {
    if t == [] then 0 else Depth(t[..|t| - 1]) + Delta(t[|t| - 1])
  }

  /** `t` closes every parenthesis it opens and never one it did not open. */
  predicate Balanced(t: string)
  {
    Depth(t) == 0 && forall j :: 0 <= j <= |t| ==> Depth(t[..j]) >= 0
  }

  /** The index of the `)` that closes a parenthesis opened before `i`, with `depth` more opened since. */
  function MatchingClose(s: string, i: nat, depth: nat): (r: Option<nat>)
    decreases |s| - i
    ensures r.Some? ==> i <= r.value < |s| && s[r.value] == ')'
  {
    if i >= |s| then None
    else if s[i] == ')' then (if depth == 0 then Some(i) else MatchingClose(s, i + 1, depth - 1))
    else if s[i] == '(' then MatchingClose(s, i + 1, depth + 1)
    else MatchingClose(s, i + 1, depth)
  }

  /**
   * The return type of a block spelling `R (^)(P)`, `P` any balanced
   * parameter list: the text before `(^)(` joined to the text after the
   * `)` that closes it, trimmed. A spelling whose parameter list is never
   * closed keeps only the text before `(^)(`.
   */
  function BlockReturn(block: string): (r: string)
    ensures IsTrimmed(r)
    ensures Find(block, "(^)(").None? ==> r == []
  {
    match Find(block, "(^)(")
    case None => ""
    case Some(p1) =>
      match MatchingClose(block, p1 + 4, 0)
      case None => Trim(block[..p1])
      case Some(c) => Trim(block[..p1] + block[c + 1..])
  }

  /** Last-character unfolding of `Depth` on a prefix. */
  lemma DepthStep(t: string, j: nat)
    requires j < |t|
    ensures Depth(t[..j + 1]) == Depth(t[..j]) + Delta(t[j])
  {
    assert t[..j + 1][..j] == t[..j];
  }

  /** Scanning a balanced stretch returns to the depth at which it started. */
  lemma {:induction false} MatchingCloseSkips(s: string, start: nat, n: nat, j: nat)
    requires start + n <= |s| && j <= n && Balanced(s[start..start + n])
    ensures Depth(s[start..start + n][..j]) >= 0
    ensures MatchingClose(s, start + j, Depth(s[start..start + n][..j]) as nat) == MatchingClose(s, start + n, 0)
    decreases n - j
  {
    var t := s[start..start + n];
    if j == n {
      assert t[..j] == t;
    } else {
      DepthStep(t, j);
      assert t[j] == s[start + j];
      assert Depth(t[..j + 1]) >= 0;
      MatchingCloseSkips(s, start, n, j + 1);
    }
  }

  /**
   * The corrected extraction cuts out exactly the parameter list: for
   * `R (^)(P)R'` with `P` balanced, the result is `R R'` trimmed.
   */
  lemma BlockReturnOfBalanced(block: string, p: nat, n: nat)
    requires Find(block, "(^)(") == Some(p)
    requires p + 4 + n < |block| && block[p + 4 + n] == ')' && Balanced(block[p + 4..p + 4 + n])
    ensures BlockReturn(block) == Trim(block[..p] + block[p + 5 + n..])
  {
    MatchingCloseSkips(block, p + 4, n, 0);
    assert block[p + 4..p + 4 + n][..0] == [];
  }

  /** A stretch without parentheses is balanced. */
  lemma {:induction false} BalancedWithoutParens(t: string)
    requires '(' !in t && ')' !in t
    ensures Balanced(t)
  {
    forall j | 0 <= j <= |t| ensures Depth(t[..j]) == 0 {
      DepthWithoutParens(t[..j]);
    }
    assert t[..|t|] == t;
  }

  lemma {:induction false} DepthWithoutParens(t: string)
    requires '(' !in t && ')' !in t
    ensures Depth(t) == 0
  {
    if t != [] {
      assert t[|t| - 1] in t;
      assert forall c :: c in t[..|t| - 1] ==> c in t;
      DepthWithoutParens(t[..|t| - 1]);
    }
  }

  /** `find` reports `i` when `p` occurs at `i` and nowhere before. */
  lemma FindIs(s: string, p: string, i: nat)
    requires MatchAt(s, p, i) && forall j :: 0 <= j < i ==> !MatchAt(s, p, j)
    ensures Find(s, p) == Some(i)
  {
    FindFirst(s, p);
  }

  /** The first `)` at or after `from`. */
  lemma FindCloseIs(s: string, from: nat, k: nat)
    requires from <= k < |s| && s[k] == ')' && forall j :: from <= j < k ==> s[j] != ')'
    ensures NextClose(s, from) == Some(k)
  {
    NextCloseFirst(s, from);
    assert s[from..][k - from] == ')';
  }

  /**
   * The scan as written stops at the first `)` after `(^)(` when that one
   * is neither preceded by `^` nor followed by `,`.
   */
  lemma AsWrittenStopsAt(block: string, p: nat, k: nat)
    requires Find(block, "(^)(") == Some(p)
    requires p + 4 <= k < |block| && block[k] == ')' && forall j :: p + 4 <= j < k ==> block[j] != ')'
    requires block[k - 1] != '^' && !(k + 1 < |block| && block[k + 1] == ',')
    ensures BlockReturnAsWritten(block) == Trim(block[..p] + block[k + 1..])
  {
    FindCloseIs(block, p + 4, k);
    var sc := ScanFrom(block, p + 4, Some(p + 4), 0);
    assert sc == Scan(Some(k), 0);
    assert AfterClose(block, sc) == block[k + 1..];
    assert BlockReturnAsWritten(block) == ReturnAround(block, p);
  }

  /**
   * Where the parameter list holds no parentheses, does not end in `^` and
   * is not followed by `,`, the code as written and the corrected
   * extraction agree: both cut out exactly the parameter list.
   */
  lemma AsWrittenAgreesWithoutNesting(block: string, p: nat, n: nat)
    requires Find(block, "(^)(") == Some(p)
    requires p + 4 + n < |block| && block[p + 4 + n] == ')'
    requires '(' !in block[p + 4..p + 4 + n] && ')' !in block[p + 4..p + 4 + n]
    requires block[p + 3 + n] != '^'
    requires !(p + 5 + n < |block| && block[p + 5 + n] == ',')
    ensures BlockReturnAsWritten(block) == Trim(block[..p] + block[p + 5 + n..])
    ensures BlockReturn(block) == BlockReturnAsWritten(block)
  {
    var k := p + 4 + n;
    forall j | p + 4 <= j < k ensures block[j] != ')' {
      assert block[j] == block[p + 4..k][j - (p + 4)];
    }
    AsWrittenStopsAt(block, p, k);
    BalancedWithoutParens(block[p + 4..k]);
    BlockReturnOfBalanced(block, p, n);
  }

  /** `void (^)(void (*)(int))`: a block taking a function pointer. */
  const Nested: string := "void (^)(void (*)(int))"

  /** Where `(^)(` occurs in `Nested`. */
  lemma NestedCaret(s: string)
    requires s == Nested
    ensures Find(s, "(^)(") == Some(5)
  {
    assert s[5..9] == "(^)(";
    forall j | 0 <= j < 5 ensures !MatchAt(s, "(^)(", j) {
      assert s[j] != '(';
      assert s[j..j + 4][0] == s[j];
    }
    FindIs(s, "(^)(", 5);
  }

  /** The depth of two stretches one after the other is the sum of their depths. */
  lemma {:induction false} DepthConcat(a: string, b: string)
    ensures Depth(a + b) == Depth(a) + Depth(b)
    decreases |b|
  {
    if b == [] {
      assert a + b == a;
    } else {
      var b0 := b[..|b| - 1];
      assert (a + b)[..|a + b| - 1] == a + b0;
      DepthConcat(a, b0);
    }
  }

  /** Two balanced stretches one after the other are balanced. */
  lemma BalancedConcat(a: string, b: string)
    requires Balanced(a) && Balanced(b)
    ensures Balanced(a + b)
  {
    DepthConcat(a, b);
    forall j | 0 <= j <= |a + b| ensures Depth((a + b)[..j]) >= 0 {
      if j <= |a| {
        assert (a + b)[..j] == a[..j];
      } else {
        assert (a + b)[..j] == a + b[..j - |a|];
        DepthConcat(a, b[..j - |a|]);
      }
    }
  }

  /** A balanced stretch inside a pair of parentheses is balanced. */
  lemma BalancedWrap(x: string)
    requires Balanced(x)
    ensures Balanced("(" + x + ")")
  {
    var w := "(" + x + ")";
    assert Depth("(") == 1 by { assert "("[..0] == []; }
    assert Depth(")") == -1 by { assert ")"[..0] == []; }
    DepthConcat("(", x);
    DepthConcat("(" + x, ")");
    forall j | 0 <= j <= |w| ensures Depth(w[..j]) >= 0 {
      if j == 0 {
        assert w[..j] == [];
      } else if j <= |x| + 1 {
        assert w[..j] == "(" + x[..j - 1];
        DepthConcat("(", x[..j - 1]);
      } else {
        assert w[..j] == w;
      }
    }
  }

  /** `void (*)(int)`, a function-pointer parameter, is balanced. */
  lemma FunctionPointerBalanced(t: string)
    requires t == "void (*)(int)"
    ensures Balanced(t)
  {
    BalancedWithoutParens("void ");
    BalancedWithoutParens("*");
    BalancedWithoutParens("int");
    BalancedWrap("*");
    BalancedWrap("int");
    var star, args := "(" + "*" + ")", "(" + "int" + ")";
    BalancedConcat(star, args);
    BalancedConcat("void ", star + args);
    assert t == "void " + (star + args);
  }

  /** The first `)` of `Nested` after `(^)(` is the one after `(*`, followed by `(`. */
  lemma NestedFirstClose(s: string)
    requires s == Nested
    ensures |s| == 23 && s[16] == ')' && s[15] == '*' && s[17] == '('
    ensures forall j :: 9 <= j < 16 ==> s[j] != ')'
  {
    forall j | 9 <= j < 16 ensures s[j] != ')' {
      assert s[9..16] == "void (*";
      assert s[j] == s[9..16][j - 9];
    }
  }

  /**
   * The code as written stops at the `)` after `(*`, because it is neither
   * preceded by `^` nor followed by `,`, and keeps `(int))` as part of the
   * return type.
   */
  lemma NestedAsWritten(s: string)
    requires s == Nested
    ensures BlockReturnAsWritten(s) == "void (int))"
  {
    NestedCaret(s);
    NestedFirstClose(s);
    AsWrittenStopsAt(s, 5, 16);
    NestedSplice(s);
    TrimTrimmed("void (int))");
  }

  /** The two pieces of `Nested` the code as written splices together, and the two the corrected extraction does. */
  lemma NestedSplice(s: string)
    requires s == Nested
    ensures s[..5] + s[17..] == "void (int))"
    ensures s[..5] + s[23..] == "void "
  {
  }

  /** The corrected extraction of `Nested` yields `void`. */
  lemma NestedCorrected(s: string)
    requires s == Nested
    ensures BlockReturn(s) == "void"
  {
    NestedCaret(s);
    FunctionPointerBalanced(s[9..22]);
    BlockReturnOfBalanced(s, 5, 13);
    NestedSplice(s);
    var u := s[..5] + s[23..];
    assert TrimRight(u) == "void" by {
      assert u[..|u| - 1] == "void";
    }
  }

  // ------------------------------------------------------- BlockParser.cpp

  /** The return type `BlockParser`'s `executeParse` sets: `Type(context, returns, returns)` with the extracted spelling. */
  function ParsedBlockReturnType(signature: string): (r: TypeInfo)
    ensures IsTrimmed(r.tag) && IsTrimmed(r.value) && r.encoding == ""
    ensures HasNoQualifierPattern(BlockReturn(signature)) ==>
              r.tag == BlockReturn(signature) && r.value == BlockReturn(signature)
  {
    var spelling := BlockReturn(signature);
    MakeType(spelling, spelling, "")
  }

  /** The members `BlockParser`'s `toJSON` writes besides `returns` and `arguments` (no base members). */
  function BlockParserHead(d: Def): (kv: map<string, Json>)
    requires d.body.BlockBody?
    ensures kv.Keys == {"encoding", "type", "signature"}
    ensures kv["encoding"] == JStr(d.encoding) && kv["type"] == JStr("block") && kv["signature"] == JStr(d.body.signature)
  {
    map["encoding" := JStr(d.encoding), "type" := JStr("block"), "signature" := JStr(d.body.signature)]
  }

  /**
   * `BlockParser`'s `BlockDefinition::toJSON`: encoding, type `block`,
   * signature, then `returns` and `arguments` through the resolver. A block
   * whose return type was never set is an error.
   */
  function BlockParserToJSON(f: (Tree, map<string, Json>) --> Result<Resolved>, tree: Tree, d: Def): (r: Result<Emitted>)
    requires IsResolver(f) && ValidTree(tree) && d.body.BlockBody?
    ensures d.body.ret.None? ==> r.Err?
    ensures r.Ok? ==>
              d.body.ret.Some? && ResolveSignature(f, tree, d.body.ret.value, d.body.args).Ok?
              && var sig := ResolveSignature(f, tree, d.body.ret.value, d.body.args).value;
                 r.value == Emitted(WithSignature(BlockParserHead(d), sig), sig.tree)
  {
    match d.body.ret
    case None => Err("null return type")
    case Some(ret) =>
      match ResolveSignature(f, tree, ret, d.body.args)
      case Err(e) => Err(e)
      case Ok(sig) => Ok(Emitted(WithSignature(BlockParserHead(d), sig), sig.tree))
  }

  /** A serialised parameter block holds exactly five members and none of the base ones. */
  lemma BlockParserObject(d: Def, sig: Signature)
    requires d.body.BlockBody?
    ensures var kv := WithSignature(BlockParserHead(d), sig);
            kv.Keys == {"encoding", "type", "signature", "returns", "arguments"}
            && kv["type"] == JStr("block") && kv["signature"] == JStr(d.body.signature)
            && kv["encoding"] == JStr(d.encoding)
  {
    var head := BlockParserHead(d);
    var kv := WithSignature(head, sig);
    forall k | k != "returns" && k != "arguments"
      ensures k in kv <==> k in head
    {
      WithSignatureKeeps(head, sig, k);
    }
    WithSignatureKeeps(head, sig, "type");
    WithSignatureKeeps(head, sig, "signature");
    WithSignatureKeeps(head, sig, "encoding");
  }

  // ------------------------------------------------------------- block.cpp

  /**
   * The tail of `block.cpp`'s `toJSON`: `returns` was never set, so the
   * resolver runs on an empty object, then on every argument in order.
   */
  function ResolveUntypedSignature(f: (Tree, map<string, Json>) --> Result<Resolved>, tree: Tree,
                                   args: seq<Argument>): (r: Result<Signature>)
    requires IsResolver(f) && ValidTree(tree)
    ensures r.Ok? ==> SameRegistries(tree, r.value.tree)
    ensures r.Ok? ==> r.value.ret.Keys == {"type", "value", "encoding"}
    ensures r.Ok? ==> ResolvedArguments(r.value.args, args)
  {
    match f(tree, map[])
    case Err(e) => Err(e)
    case Ok(rr) =>
      match ResolveEach(f, rr.tree, ArgumentObjects(args))
      case Err(e) => Err(e)
      case Ok(x) =>
        SameRegistriesTransitive(tree, rr.tree, x.1);
        Ok(Signature(rr.kv, x.0, x.1))
  }

  /** The members `block.cpp`'s `toJSON` writes besides `returns` and `arguments`. */
  function BlockHead(d: Def): (kv: map<string, Json>)
    requires d.body.BlockBody?
    ensures kv.Keys == ToJSONBase(d).Keys + {"signature"}
    ensures forall k :: k in ToJSONBase(d) ==> kv[k] == ToJSONBase(d)[k]
    ensures kv["signature"] == JStr(d.body.signature)
  {
    var base := ToJSONBase(d);
    assert "signature" !in base;
    base["signature" := JStr(d.body.signature)]
  }

  /**
   * `block.cpp`'s `BlockDefinition::toJSON`: the base members and the
   * signature, a `returns` resolved from nothing, and the arguments
   * through the resolver. Its return type is never consulted.
   */
  function BlockToJSON(f: (Tree, map<string, Json>) --> Result<Resolved>, tree: Tree, d: Def): (r: Result<Emitted>)
    requires IsResolver(f) && ValidTree(tree) && d.body.BlockBody?
    ensures r.Ok? <==> ResolveUntypedSignature(f, tree, d.body.args).Ok?
    ensures r.Ok? ==>
              var sig := ResolveUntypedSignature(f, tree, d.body.args).value;
              r.value == Emitted(WithSignature(BlockHead(d), sig), sig.tree)
  {
    match ResolveUntypedSignature(f, tree, d.body.args)
    case Err(e) => Err(e)
    case Ok(sig) => Ok(Emitted(WithSignature(BlockHead(d), sig), sig.tree))
  }

  /** The output of `block.cpp`'s `toJSON` does not depend on the block's return type. */
  lemma BlockIgnoresReturnType(f: (Tree, map<string, Json>) --> Result<Resolved>, tree: Tree, d: Def, ret: Option<TypeInfo>)
    requires IsResolver(f) && ValidTree(tree) && d.body.BlockBody?
    ensures BlockToJSON(f, tree, d.(body := BlockBody(d.body.signature, ret, d.body.args))) == BlockToJSON(f, tree, d)
  {
    var d' := d.(body := BlockBody(d.body.signature, ret, d.body.args));
    assert ToJSONBase(d') == ToJSONBase(d);
    assert BlockHead(d') == BlockHead(d);
  }

  /** A serialised typedef block holds the base members, the signature, `returns` and `arguments`. */
  lemma BlockObject(d: Def, sig: Signature)
    requires d.body.BlockBody?
    ensures var kv := WithSignature(BlockHead(d), sig);
            kv.Keys == ToJSONBase(d).Keys + {"signature", "returns", "arguments"}
            && kv["signature"] == JStr(d.body.signature)
            && (forall k :: k in ToJSONBase(d) ==> kv[k] == ToJSONBase(d)[k])
  {
    var head := BlockHead(d);
    var kv := WithSignature(head, sig);
    forall k | k != "returns" && k != "arguments"
      ensures k in kv <==> k in head
      ensures k in head ==> kv[k] == head[k]
    {
      WithSignatureKeeps(head, sig, k);
    }
  }
}
