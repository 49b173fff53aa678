/**
 * Block wrappers (iphone/hooks/generate/block.js): the declaration of a
 * block variable, the name of the method that wraps a block signature, the
 * comparison of two block signatures that may spell the boolean type
 * differently, and the search for a block in the metabase.
 */
module GenBlock {
  import opened Wrappers
  import opened Strs
  import opened Json
  import opened JsValues
  import opened JsStrings
  import opened GenUtil

  // ---------------------------------------------------------------- getBlockAsReturnVariable

  /** `block.indexOf('(^)')`, with -1 when there is none. */
  function CaretIndex(block: string): (i: int)
    ensures i == -1 || (0 <= i && MatchAt(block, "(^)", i))
  {
    match Find(block, "(^)")
    case Some(k) => k
    case None => -1
  }

  /**
   * `getBlockAsReturnVariable`: the variable's name inserted two characters
   * after the first `(^)`, that is between `(^` and `)`.
   */
  function GetBlockAsReturnVariable(name: string, block: string): (r: string)
    ensures |r| == |block| + |name|
    ensures CaretIndex(block) >= 0 ==> MatchAt(r, "(^" + name + ")", CaretIndex(block))
  {
    var i := CaretIndex(block);
    var r := Substring(block, 0, i + 2) + name + Substring(block, i + 2, |block|);
    if i >= 0 then
      CaretSplit(name, block, i);
      r
    else r
  }

  /** The name sits between the `(^` and the `)` of the caret at `i`. */
  lemma CaretSplit(name: string, block: string, i: nat)
    requires MatchAt(block, "(^)", i)
    ensures MatchAt(Substring(block, 0, i + 2) + name + Substring(block, i + 2, |block|), "(^" + name + ")", i)
  {
    var r := Substring(block, 0, i + 2) + name + Substring(block, i + 2, |block|);
    assert r == block[..i + 2] + name + block[i + 2..];
    assert block[i..i + 3] == "(^)";
    assert block[i..i + 2] == block[i..i + 3][..2] == "(^";
    assert r[i..i + 2] == block[..i + 2][i..i + 2] == block[i..i + 2];
    assert r[i + 2..i + 2 + |name|] == name;
    assert r[i + 2 + |name|] == block[i + 2] == ')';
    assert r[i..i + |name| + 3] == r[i..i + 2] + r[i + 2..i + 2 + |name|] + [r[i + 2 + |name|]];
  }

  /** Removing the inserted name gives the block back, wherever the name went. */
  lemma ReturnVariableRoundTrip(name: string, block: string)
    ensures var r := GetBlockAsReturnVariable(name, block);
      var j := if |block| == 0 then 0 else if CaretIndex(block) < 0 then 1 else CaretIndex(block) + 2;
      j + |name| <= |r| && r[j..j + |name|] == name && r[..j] + r[j + |name|..] == block
  {
  }

  /** Without `(^)` the name goes after the first character, as `substring(0, 1)` splits there. */
  lemma NoCaretAfterFirst(name: string, block: string)
    requires CaretIndex(block) < 0 && |block| >= 1
    ensures GetBlockAsReturnVariable(name, block) == block[..1] + name + block[1..]
  {
  }

  // ---------------------------------------------------------------- generateBlockMethodName

  /** `generateBlockMethodName`: `Block_` followed by the signature made a safe symbol. */
  function GenerateBlockMethodName(signature: string): (r: string)
    ensures |r| == |signature| + 6 && r[..6] == "Block_"
    ensures forall i :: 6 <= i < |r| ==> !IsSymbolBreak(r[i])
    ensures forall i :: 6 <= i < |r| && !IsSymbolBreak(signature[i - 6]) ==> r[i] == signature[i - 6]
  {
    SafeSymbolIsSafe(signature);
    "Block_" + GenerateSafeSymbol(signature)
  }

  /** Signatures that differ only in breaking characters share a method name. */
  lemma MethodNameIgnoresBreaks(a: string, b: string)
    requires |a| == |b|
    requires forall i :: 0 <= i < |a| ==> a[i] == b[i] || (IsSymbolBreak(a[i]) && IsSymbolBreak(b[i]))
    ensures GenerateBlockMethodName(a) == GenerateBlockMethodName(b)
  {
    var ra := GenerateBlockMethodName(a);
    var rb := GenerateBlockMethodName(b);
    assert forall i :: 0 <= i < |a| ==> GenerateSafeSymbol(a)[i] == GenerateSafeSymbol(b)[i];
    assert GenerateSafeSymbol(a) == GenerateSafeSymbol(b);
  }

  // ---------------------------------------------------------------- matchBlockSignature

  /** The spellings of the boolean type that `/_Bool|bool/` finds. */
  predicate BoolAhead(s: string)
  {
    StartsWith(s, "_Bool") || StartsWith(s, "bool")
  }

  /** The length of the spelling at the start of `s`, `_Bool` tried first. */
  function BoolLength(s: string): (n: nat)
    requires BoolAhead(s)
    ensures n <= |s|
  {
    if StartsWith(s, "_Bool") then 5 else 4
  }

  /** No spelling of the boolean type starts anywhere in `s`. */
  predicate NoBoolAhead(s: string)
  {
    s == [] || (!BoolAhead(s) && NoBoolAhead(s[1..]))
  }

  /** `s.replace(/_Bool|bool/, 'BOOL')`: the first spelling replaced, the rest kept. */
  function NormalizeFirst(s: string): (r: string)
    decreases |s|
    ensures |r| <= |s|
    ensures NoBoolAhead(s) ==> r == s
  {
    if s == [] then []
    else if BoolAhead(s) then "BOOL" + s[BoolLength(s)..]
    else [s[0]] + NormalizeFirst(s[1..])
  }

  /** `s.replace(/_Bool|bool/g, 'BOOL')`: every spelling replaced. */
  function NormalizeAll(s: string): (r: string)
    decreases |s|
    ensures |r| <= |s|
    ensures NoBoolAhead(s) ==> r == s
  {
    if s == [] then []
    else if BoolAhead(s) then "BOOL" + NormalizeAll(s[BoolLength(s)..])
    else [s[0]] + NormalizeAll(s[1..])
  }

  function Normalize(s: string, asWritten: bool): string
  {
    if asWritten then NormalizeFirst(s) else NormalizeAll(s)
  }

  /**
   * `matchBlockSignature`: equal signatures, or signatures equal once the
   * boolean type is spelled `BOOL`; as written only the first spelling is
   * replaced.
   */
  function MatchBlockSignature(signature: string, other: string, asWritten: bool): (r: bool)
    ensures r <==> Normalize(signature, asWritten) == Normalize(other, asWritten)
  {
    signature == other || Normalize(signature, asWritten) == Normalize(other, asWritten)
  }

  /** Matching is an equivalence: reflexive, symmetric and transitive. */
  lemma MatchIsEquivalence(a: string, b: string, c: string, asWritten: bool)
    ensures MatchBlockSignature(a, a, asWritten)
    ensures MatchBlockSignature(a, b, asWritten) ==> MatchBlockSignature(b, a, asWritten)
    ensures MatchBlockSignature(a, b, asWritten) && MatchBlockSignature(b, c, asWritten) ==> MatchBlockSignature(a, c, asWritten)
  {
  }

  /** Text without `b` or `_` holds no spelling of the boolean type anywhere. */
  predicate NoBool(t: string)
  {
    forall k :: 0 <= k < |t| ==> t[k] != 'b' && t[k] != '_'
  }

  /** Text that starts with neither `b` nor `_` keeps its first character under both normalisations. */
  lemma PlainAhead(s: string)
    requires s != [] && s[0] != 'b' && s[0] != '_'
    ensures NormalizeAll(s) == [s[0]] + NormalizeAll(s[1..])
    ensures NormalizeFirst(s) == [s[0]] + NormalizeFirst(s[1..])
  {
    assert !StartsWith(s, "_Bool") && !StartsWith(s, "bool");
  }

  lemma ConsAssoc(t: string, x: string)
    requires t != []
    ensures [t[0]] + (t[1..] + x) == t + x
  {
    assert t == [t[0]] + t[1..];
  }

  lemma {:induction false} NormalizeAllNoBool(t: string, rest: string)
    requires NoBool(t)
    decreases |t|
    ensures NormalizeAll(t + rest) == t + NormalizeAll(rest)
  {
    if t == [] {
      assert t + rest == rest;
    } else {
      assert (t + rest)[0] == t[0] && (t + rest)[1..] == t[1..] + rest;
      PlainAhead(t + rest);
      NormalizeAllNoBool(t[1..], rest);
      ConsAssoc(t, NormalizeAll(rest));
    }
  }

  lemma {:induction false} NormalizeFirstNoBool(t: string, rest: string)
    requires NoBool(t)
    decreases |t|
    ensures NormalizeFirst(t + rest) == t + NormalizeFirst(rest)
  {
    if t == [] {
      assert t + rest == rest;
    } else {
      assert (t + rest)[0] == t[0] && (t + rest)[1..] == t[1..] + rest;
      PlainAhead(t + rest);
      NormalizeFirstNoBool(t[1..], rest);
      ConsAssoc(t, NormalizeFirst(rest));
    }
  }

  /** The three spellings of the boolean type in block signatures. */
  predicate IsBoolSpelling(x: string)
  {
    x == "_Bool" || x == "bool" || x == "BOOL"
  }

  /** Any spelling is normalised to `BOOL`, and the normalisation goes on after it. */
  lemma NormalizeAllSpelling(x: string, rest: string)
    requires IsBoolSpelling(x)
    ensures NormalizeAll(x + rest) == "BOOL" + NormalizeAll(rest)
  {
    var s := x + rest;
    if x == "BOOL" {
      assert NoBool(x);
      NormalizeAllNoBool(x, rest);
    } else {
      assert s[..|x|] == x;
      assert x == "bool" ==> s[0] == 'b' && !StartsWith(s, "_Bool");
      assert BoolAhead(s) && BoolLength(s) == |x|;
      assert s[|x|..] == rest;
    }
  }

  /** A signature whose boolean types are spelled `spellings[k]`, each followed by `texts[k]`. */
  function Render(spellings: seq<string>, texts: seq<string>): string
    requires |spellings| == |texts|
    decreases |spellings|
  {
    if spellings == [] then [] else spellings[0] + texts[0] + Render(spellings[1..], texts[1..])
  }

  /** Every boolean spelled `BOOL`. */
  function AllBOOL(n: nat): (r: seq<string>)
    ensures |r| == n && forall k :: 0 <= k < n ==> r[k] == "BOOL"
  {
    if n == 0 then [] else ["BOOL"] + AllBOOL(n - 1)
  }

  /** Normalising every spelling gives the signature with every boolean spelled `BOOL`. */
  lemma {:induction false} NormalizeAllRender(spellings: seq<string>, texts: seq<string>)
    requires |spellings| == |texts|
    requires forall k :: 0 <= k < |spellings| ==> IsBoolSpelling(spellings[k]) && NoBool(texts[k])
    decreases |spellings|
    ensures NormalizeAll(Render(spellings, texts)) == Render(AllBOOL(|texts|), texts)
  {
    if spellings != [] {
      var tail := Render(spellings[1..], texts[1..]);
      assert Render(spellings, texts) == spellings[0] + (texts[0] + tail);
      NormalizeAllSpelling(spellings[0], texts[0] + tail);
      NormalizeAllNoBool(texts[0], tail);
      NormalizeAllRender(spellings[1..], texts[1..]);
      var all := AllBOOL(|texts|);
      assert all[1..] == AllBOOL(|texts| - 1);
    }
  }

  /**
   * With every spelling replaced, two signatures that differ only in how
   * they spell the boolean type match, whatever the number of booleans.
   */
  lemma SpellingsMatchCorrected(head: string, s1: seq<string>, s2: seq<string>, texts: seq<string>)
    requires |s1| == |texts| && |s2| == |texts| && NoBool(head)
    requires forall k :: 0 <= k < |texts| ==> IsBoolSpelling(s1[k]) && IsBoolSpelling(s2[k]) && NoBool(texts[k])
    ensures MatchBlockSignature(head + Render(s1, texts), head + Render(s2, texts), false)
  {
    NormalizeAllNoBool(head, Render(s1, texts));
    NormalizeAllNoBool(head, Render(s2, texts));
    NormalizeAllRender(s1, texts);
    NormalizeAllRender(s2, texts);
  }

  /** As written, the first spelling after text without one is replaced and the rest is kept. */
  lemma NormalizeFirstAt(head: string, x: string, rest: string)
    requires NoBool(head) && (x == "_Bool" || x == "bool")
    ensures NormalizeFirst(head + x + rest) == head + "BOOL" + rest
  {
    var s := x + rest;
    assert head + x + rest == head + s;
    NormalizeFirstNoBool(head, s);
    assert s[..|x|] == x;
    assert x == "bool" ==> s[0] == 'b' && !StartsWith(s, "_Bool");
    assert BoolAhead(s) && BoolLength(s) == |x|;
    assert s[|x|..] == rest;
  }

  lemma NoBoolConcat(a: string, b: string)
    requires NoBool(a) && NoBool(b)
    ensures NoBool(a + b)
  {
    forall k | 0 <= k < |a + b|
      ensures (a + b)[k] != 'b' && (a + b)[k] != '_'
    {
      if k >= |a| {
        assert (a + b)[k] == b[k - |a|];
      }
    }
  }

  /**
   * As written, a block with two `_Bool` arguments does not match the same
   * block spelled with `BOOL` (`v(_Bool,_Bool)` against `v(BOOL,BOOL)`):
   * only the first `_Bool` is replaced. With every spelling replaced they match.
   */
  lemma TwoBoolsDifferAsWritten(head: string, mid: string, tail: string)
    requires NoBool(head) && NoBool(mid) && NoBool(tail)
    ensures !MatchBlockSignature(head + "_Bool" + mid + "_Bool" + tail, head + "BOOL" + mid + "BOOL" + tail, true)
    ensures MatchBlockSignature(head + "_Bool" + mid + "_Bool" + tail, head + "BOOL" + mid + "BOOL" + tail, false)
  {
    var a := head + "_Bool" + mid + "_Bool" + tail;
    var b := head + "BOOL" + mid + "BOOL" + tail;
    assert a == head + "_Bool" + (mid + "_Bool" + tail);
    NormalizeFirstAt(head, "_Bool", mid + "_Bool" + tail);
    var na := head + "BOOL" + (mid + "_Bool" + tail);
    assert NoBool("BOOL");
    NoBoolConcat(head, "BOOL");
    NoBoolConcat(head + "BOOL", mid);
    NoBoolConcat(head + "BOOL" + mid, "BOOL");
    NoBoolConcat(head + "BOOL" + mid + "BOOL", tail);
    NormalizeFirstNoBool(b, []);
    assert b + [] == b;
    var k := |head| + 4 + |mid|;
    assert na[k] == '_' && b[k] == 'B';
    TwoBoolsMatchCorrected(head, mid, tail);
  }

  lemma TwoBoolsMatchCorrected(head: string, mid: string, tail: string)
    requires NoBool(head) && NoBool(mid) && NoBool(tail)
    ensures MatchBlockSignature(head + "_Bool" + mid + "_Bool" + tail, head + "BOOL" + mid + "BOOL" + tail, false)
  {
    SpellingsMatchCorrected(head, ["_Bool", "_Bool"], ["BOOL", "BOOL"], [mid, tail]);
    RenderTwo(head, "_Bool", mid, tail);
    RenderTwo(head, "BOOL", mid, tail);
  }

  /** A signature with the same spelling twice, rendered. */
  lemma RenderTwo(head: string, x: string, mid: string, tail: string)
    ensures head + Render([x, x], [mid, tail]) == head + x + mid + x + tail
  {
    assert [x, x][1..] == [x] && [mid, tail][1..] == [tail];
    assert [x][1..] == [] && [tail][1..] == [];
    assert Render([x], [tail]) == x + tail + Render([], []);
    assert Render([x], [tail]) == x + tail;
    assert Render([x, x], [mid, tail]) == x + mid + (x + tail);
  }


  // ---------------------------------------------------------------- findBlock

  /** A block of the metabase: its signature and what the generator reads from it. */
  datatype BlockDef = BlockDef(signature: string, returnType: Json, arguments: seq<Json>)

  /**
   * The part of the metabase the search reads: the blocks of each framework
   * (in the order `Object.keys` lists the frameworks; an entry may be null)
   * and the value of each typedef.
   */
  datatype BlockMetabase = BlockMetabase(blocks: seq<(string, seq<Option<BlockDef>>)>, typedefs: map<string, string>)

  const NotFound := "Error"

  /** `json.blocks[frameworkName]`: the first member with that key. */
  function BlocksOf(blocks: seq<(string, seq<Option<BlockDef>>)>, fw: string): (r: Option<seq<Option<BlockDef>>>)
    ensures r.Some? <==> exists p :: 0 <= p < |blocks| && blocks[p].0 == fw
    ensures r.Some? ==> exists p :: 0 <= p < |blocks| && blocks[p] == (fw, r.value)
  {
    if blocks == [] then None
    else if blocks[0].0 == fw then Some(blocks[0].1)
    else
      var r := BlocksOf(blocks[1..], fw);
      assert r.Some? ==> exists p :: 0 <= p < |blocks| - 1 && blocks[1..][p] == (fw, r.value);
      assert forall p :: 0 <= p < |blocks| - 1 ==> blocks[1..][p] == blocks[p + 1];
      r
  }

  /** `blocks.find(block => block && matchBlockSignature(block.signature, signature))`. */
  function FirstMatching(list: seq<Option<BlockDef>>, signature: string, asWritten: bool): (r: Option<BlockDef>)
    ensures r.Some? ==> Some(r.value) in list && MatchBlockSignature(r.value.signature, signature, asWritten)
    ensures r.None? ==> forall k :: 0 <= k < |list| && list[k].Some? ==> !MatchBlockSignature(list[k].value.signature, signature, asWritten)
  {
    if list == [] then None
    else if list[0].Some? && MatchBlockSignature(list[0].value.signature, signature, asWritten) then list[0]
    else
      var r := FirstMatching(list[1..], signature, asWritten);
      assert r.Some? ==> Some(r.value) in list[1..];
      assert forall k :: 1 <= k < |list| ==> list[k] == list[1..][k - 1];
      r
  }

  /** `shallowFindBlock`: a framework without a blocks entry makes `find` throw a TypeError. */
  function ShallowFindBlock(mb: BlockMetabase, signature: string, fw: string, asWritten: bool): (r: Result<Option<BlockDef>>)
    ensures r.Err? <==> BlocksOf(mb.blocks, fw).None?
    ensures r.Err? ==> r.error == TypeError
  {
    match BlocksOf(mb.blocks, fw)
    case None => Err(TypeError)
    case Some(list) => Ok(FirstMatching(list, signature, asWritten))
  }

  /** A block some framework of the metabase lists. */
  predicate InMetabase(mb: BlockMetabase, b: BlockDef)
  {
    exists p :: 0 <= p < |mb.blocks| && Some(b) in mb.blocks[p].1
  }

  /** No block that `json.blocks[p]` lists, for any framework key `p` from index `from` on, matches. */
  predicate NoneMatchFrom(mb: BlockMetabase, signature: string, from: nat, asWritten: bool)
  {
    forall p :: from <= p < |mb.blocks| ==> FirstMatching(BlocksOf(mb.blocks, mb.blocks[p].0).value, signature, asWritten).None?
  }

  /** The search of `packages.find` over every framework, in key order. */
  function SearchFrameworks(mb: BlockMetabase, signature: string, from: nat, asWritten: bool): (r: Option<BlockDef>)
    requires from <= |mb.blocks|
    decreases |mb.blocks| - from
    ensures r.Some? ==> InMetabase(mb, r.value) && MatchBlockSignature(r.value.signature, signature, asWritten)
    ensures r.None? <==> NoneMatchFrom(mb, signature, from, asWritten)
  {
    if from == |mb.blocks| then None
    else
      var list := BlocksOf(mb.blocks, mb.blocks[from].0).value;
      match FirstMatching(list, signature, asWritten)
      case Some(b) => Some(b)
      case None => SearchFrameworks(mb, signature, from + 1, asWritten)
  }

  /** The signature after following `n` typedefs, as far as there are typedefs to follow. */
  function TypedefChain(typedefs: map<string, string>, signature: string, n: nat): string
    decreases n
  {
    if n == 0 || signature !in typedefs then signature else TypedefChain(typedefs, typedefs[signature], n - 1)
  }

  /**
   * `findBlock`: the framework's own blocks first, then the typedef the
   * signature names, then every framework; allowed `fuel` calls, since a
   * typedef chain that loops recurses until the stack overflows.
   */
  function FindBlock(mb: BlockMetabase, signature: string, fw: string, asWritten: bool, fuel: nat): (r: Result<BlockDef>)
    decreases fuel
    ensures fuel > 0 && BlocksOf(mb.blocks, fw).None? ==> r == Err(TypeError)
    ensures r.Err? ==> r.error in {TypeError, NotFound, RangeError}
  {
    if fuel == 0 then Err(RangeError)
    else
      match ShallowFindBlock(mb, signature, fw, asWritten)
      case Err(e) => Err(e)
      case Ok(Some(b)) => Ok(b)
      case Ok(None) =>
        if signature in mb.typedefs then FindBlock(mb, mb.typedefs[signature], fw, asWritten, fuel - 1)
        else
          match SearchFrameworks(mb, signature, 0, asWritten)
          case Some(b) => Ok(b)
          case None => Err(NotFound)
  }

  /** A block found lists in the metabase and matches the signature reached through the typedefs. */
  lemma {:induction false} FindBlockFound(mb: BlockMetabase, signature: string, fw: string, asWritten: bool, fuel: nat)
    decreases fuel
    ensures var r := FindBlock(mb, signature, fw, asWritten, fuel);
      r.Ok? ==> (InMetabase(mb, r.value) &&
        exists n :: 0 <= n < fuel && MatchBlockSignature(r.value.signature, TypedefChain(mb.typedefs, signature, n), asWritten))
  {
    var r := FindBlock(mb, signature, fw, asWritten, fuel);
    if fuel > 0 && r.Ok? {
      var sh := ShallowFindBlock(mb, signature, fw, asWritten);
      if sh.Ok? && sh.value.Some? {
        var list := BlocksOf(mb.blocks, fw).value;
        var p :| 0 <= p < |mb.blocks| && mb.blocks[p] == (fw, list);
        assert Some(r.value) in mb.blocks[p].1;
        assert TypedefChain(mb.typedefs, signature, 0) == signature;
      } else if signature in mb.typedefs {
        FindBlockFound(mb, mb.typedefs[signature], fw, asWritten, fuel - 1);
        var n :| 0 <= n < fuel - 1 && MatchBlockSignature(r.value.signature, TypedefChain(mb.typedefs, mb.typedefs[signature], n), asWritten);
        assert TypedefChain(mb.typedefs, signature, n + 1) == TypedefChain(mb.typedefs, mb.typedefs[signature], n);
      } else {
        assert TypedefChain(mb.typedefs, signature, 0) == signature;
      }
    }
  }

  /**
   * `findBlock` throws its own error only when the typedef chain ends in a
   * signature that no framework's blocks match.
   */
  lemma {:induction false} FindBlockNotFound(mb: BlockMetabase, signature: string, fw: string, asWritten: bool, fuel: nat)
    decreases fuel
    ensures FindBlock(mb, signature, fw, asWritten, fuel) == Err(NotFound) ==>
      exists n :: 0 <= n < fuel && TypedefChain(mb.typedefs, signature, n) !in mb.typedefs &&
        NoneMatchFrom(mb, TypedefChain(mb.typedefs, signature, n), 0, asWritten)
  {
    if fuel > 0 && FindBlock(mb, signature, fw, asWritten, fuel) == Err(NotFound) {
      var sh := ShallowFindBlock(mb, signature, fw, asWritten);
      if signature in mb.typedefs {
        FindBlockNotFound(mb, mb.typedefs[signature], fw, asWritten, fuel - 1);
        var n :| 0 <= n < fuel - 1 && TypedefChain(mb.typedefs, mb.typedefs[signature], n) !in mb.typedefs &&
          NoneMatchFrom(mb, TypedefChain(mb.typedefs, mb.typedefs[signature], n), 0, asWritten);
        assert TypedefChain(mb.typedefs, signature, n + 1) == TypedefChain(mb.typedefs, mb.typedefs[signature], n);
      } else {
        assert TypedefChain(mb.typedefs, signature, 0) == signature;
      }
    }
  }

  /** Once the search ends, allowing it more calls does not change the result. */
  lemma {:induction false} FindBlockMoreFuel(mb: BlockMetabase, signature: string, fw: string, asWritten: bool, fuel: nat, more: nat)
    requires fuel <= more && FindBlock(mb, signature, fw, asWritten, fuel) != Err(RangeError)
    decreases fuel
    ensures FindBlock(mb, signature, fw, asWritten, more) == FindBlock(mb, signature, fw, asWritten, fuel)
  {
    var sh := ShallowFindBlock(mb, signature, fw, asWritten);
    if sh.Ok? && sh.value.None? && signature in mb.typedefs {
      FindBlockMoreFuel(mb, mb.typedefs[signature], fw, asWritten, fuel - 1, more - 1);
    }
  }

  /** A typedef naming itself sends the search round until the stack overflows. */
  lemma {:induction false} SelfTypedefOverflows(mb: BlockMetabase, signature: string, fw: string, asWritten: bool, fuel: nat)
    requires signature in mb.typedefs && mb.typedefs[signature] == signature
    requires ShallowFindBlock(mb, signature, fw, asWritten) == Ok(None)
    decreases fuel
    ensures FindBlock(mb, signature, fw, asWritten, fuel) == Err(RangeError)
  {
    if fuel > 0 {
      SelfTypedefOverflows(mb, signature, fw, asWritten, fuel - 1);
    }
  }
}
