/**
 * The deferred repairs of util.cpp: the encoding of a whole struct
 * (`structDefinitionToEncoding`) and `resolveEncoding`, which patches the
 * serialised triple of a `Type` (tag under `typeKey`, value under
 * `valueKey`, "encoding") by an ordered list of rules. Both read the parse
 * tree; encoding a struct encodes its fields' `Type`s, which the front end
 * shares with the tree, so the struct definition comes back with the
 * fields as that left them.
 */
module ResolveJson {
  import opened Wrappers
  import opened Strs
  import opened MetabaseUtil
  import opened Encoding
  import opened Json
  import opened Defs
  import opened Resolve

  // ------------------------------------------------ structDefinitionToEncoding

  /** The concatenated field encodings of a struct and its fields as encoding left them. */
  datatype FieldsEncoded = FieldsEncoded(encoding: string, fields: seq<Argument>)

  /** How one field is encoded: `CXTypeUnknownToEncoding` in the given tree. */
  function Encoder(tree: Tree): (enc: TypeInfo -> Result<Encoded>)
    requires ValidTree(tree)
    ensures forall t :: enc(t) == CXTypeUnknownToEncoding(tree, t)
  {
    t => CXTypeUnknownToEncoding(tree, t)
  }

  /**
   * The fields encoded one after the other by `enc`, in field order; the
   * first field whose encoding fails stops the whole.
   */
  function FieldEncodings(enc: TypeInfo -> Result<Encoded>, fields: seq<Argument>): (r: Result<FieldsEncoded>)
    ensures r.Ok? <==> forall i :: 0 <= i < |fields| ==> enc(fields[i].ty).Ok?
    ensures r.Ok? ==> |r.value.fields| == |fields|
    ensures r.Ok? ==> forall i :: 0 <= i < |fields| ==> r.value.fields[i] == Argument(fields[i].name, enc(fields[i].ty).value.ty)
    decreases |fields|
  {
    if fields == [] then Ok(FieldsEncoded([], []))
    else
      var init := fields[..|fields| - 1];
      var last := fields[|fields| - 1];
      assert forall i :: 0 <= i < |init| ==> init[i] == fields[i];
      match FieldEncodings(enc, init)
      case Err(e) => Err(e)
      case Ok(done) =>
        match enc(last.ty)
        case Err(e) => Err(e)
        case Ok(x) => Ok(FieldsEncoded(done.encoding + x.encoding, done.fields + [Argument(last.name, x.ty)]))
  }

  /** The encoding of one field alone is that field's own encoding. */
  lemma FieldEncodingsSingle(enc: TypeInfo -> Result<Encoded>, f: Argument)
    ensures var r := FieldEncodings(enc, [f]);
            r.Ok? ==> r.value.encoding == enc(f.ty).value.encoding
  {
    assert [f][..0] == [];
  }

  /** The field encodings of two runs of fields are the encodings of each run, concatenated in order. */
  lemma {:induction false} FieldEncodingsAppend(enc: TypeInfo -> Result<Encoded>, a: seq<Argument>, b: seq<Argument>)
    ensures FieldEncodings(enc, a + b).Ok? ==>
              FieldEncodings(enc, a).Ok? && FieldEncodings(enc, b).Ok? &&
              FieldEncodings(enc, a + b).value.encoding == FieldEncodings(enc, a).value.encoding + FieldEncodings(enc, b).value.encoding
    decreases |b|
  {
    if FieldEncodings(enc, a + b).Ok? {
      forall i | 0 <= i < |a| ensures enc(a[i].ty).Ok? {
        assert (a + b)[i] == a[i];
      }
      forall i | 0 <= i < |b| ensures enc(b[i].ty).Ok? {
        assert (a + b)[|a| + i] == b[i];
      }
      if b == [] {
        assert a + b == a;
      } else {
        var b0 := b[..|b| - 1];
        assert (a + b)[..|a + b| - 1] == a + b0;
        assert (a + b)[|a + b| - 1] == b[|b| - 1];
        FieldEncodingsAppend(enc, a, b0);
        assert FieldEncodings(enc, a + b0).Ok?;
      }
    }
  }

  /** A run of fields whose prefix fails fails with the prefix's error. */
  lemma {:induction false} FieldEncodingsPrefixErr(enc: TypeInfo -> Result<Encoded>, fields: seq<Argument>, j: nat)
    requires j <= |fields| && FieldEncodings(enc, fields[..j]).Err?
    ensures FieldEncodings(enc, fields) == FieldEncodings(enc, fields[..j])
    decreases |fields| - j
  {
    if j < |fields| {
      FieldEncodingsPrefixErr(enc, fields[..|fields| - 1], j);
      assert fields[..|fields| - 1][..j] == fields[..j];
    } else {
      assert fields[..j] == fields;
    }
  }

  /** The fields of a struct definition. */
  function FieldsOf(d: Def): seq<Argument>
  {
    if d.body.StructBody? then d.body.fields else []
  }

  /** The definition with its fields replaced. */
  function WithFields(d: Def, fields: seq<Argument>): (r: Def)
    requires d.body.StructBody?
    ensures r.body.StructBody? && FieldsOf(r) == fields
    ensures r.name == d.name && r.filename == d.filename && r.encoding == d.encoding && r.body.ty == d.body.ty
  {
    d.(body := d.body.(fields := fields))
  }

  /** A struct encoding and the definition as encoding its fields left it. */
  datatype StructEncoded = StructEncoded(encoding: string, def: Def)

  /**
   * `structDefinitionToEncoding`: "{" + name + "=" + the field encodings +
   * "}", passed through `filterEncoding`.
   */
  function StructEncoding(tree: Tree, d: Def): (r: Result<StructEncoded>)
    requires ValidTree(tree) && d.body.StructBody?
    ensures r.Ok? <==> FieldEncodings(Encoder(tree), FieldsOf(d)).Ok?
    ensures r.Ok? ==> r.value.def == WithFields(d, FieldEncodings(Encoder(tree), FieldsOf(d)).value.fields)
  {
    match FieldEncodings(Encoder(tree), FieldsOf(d))
    case Err(e) => Err(e)
    case Ok(f) => Ok(StructEncoded(FilterEncoding("{" + d.name + "=" + f.encoding + "}"), WithFields(d, f.fields)))
  }

  /**
   * The filter never bites on a struct encoding, which starts with '{':
   * the result is the brace-delimited name and field encodings, and it
   * decodes as a struct.
   */
  lemma StructEncodingShape(tree: Tree, d: Def)
    requires ValidTree(tree) && d.body.StructBody?
    ensures var r := StructEncoding(tree, d);
            r.Ok? ==> r.value.encoding == "{" + d.name + "=" + FieldEncodings(Encoder(tree), FieldsOf(d)).value.encoding + "}"
                      && EncodingToType(r.value.encoding) == Ok("struct")
  {
    var r := StructEncoding(tree, d);
    if r.Ok? {
      var s := "{" + d.name + "=" + FieldEncodings(Encoder(tree), FieldsOf(d)).value.encoding + "}";
      assert s[0] == '{' && |s| >= 3;
      EncodingToTypeCompound(s);
    }
  }

  /** One more field encoded after the first `i`. */
  lemma FieldEncodingsNext(enc: TypeInfo -> Result<Encoded>, fields: seq<Argument>, i: nat, acc: string, done: seq<Argument>)
    requires i < |fields| && FieldEncodings(enc, fields[..i]) == Ok(FieldsEncoded(acc, done))
    ensures enc(fields[i].ty).Err? ==> FieldEncodings(enc, fields[..i + 1]) == Err(enc(fields[i].ty).error)
    ensures enc(fields[i].ty).Ok? ==>
              FieldEncodings(enc, fields[..i + 1])
              == Ok(FieldsEncoded(acc + enc(fields[i].ty).value.encoding, done + [Argument(fields[i].name, enc(fields[i].ty).value.ty)]))
  {
    assert fields[..i + 1][..i] == fields[..i];
  }

  /** The loop of `structDefinitionToEncoding`, streaming each field's encoding in order. */
  method StructDefinitionToEncoding(tree: Tree, d: Def) returns (r: Result<StructEncoded>)
    requires ValidTree(tree) && d.body.StructBody?
    ensures r == StructEncoding(tree, d)
  {
    var fields := FieldsOf(d);
    var acc: string := [];
    var done: seq<Argument> := [];
    var i := 0;
    assert fields[..0] == [];
    while i < |fields|
      invariant 0 <= i <= |fields|
      invariant FieldEncodings(Encoder(tree), fields[..i]) == Ok(FieldsEncoded(acc, done))
    {
      var x := CXTypeUnknownToEncoding(tree, fields[i].ty);
      assert x == Encoder(tree)(fields[i].ty);
      FieldEncodingsNext(Encoder(tree), fields, i, acc, done);
      if x.Err? {
        FieldEncodingsPrefixErr(Encoder(tree), fields, i + 1);
        return Err(x.error);
      }
      acc := acc + x.value.encoding;
      done := done + [Argument(fields[i].name, x.value.ty)];
      i := i + 1;
    }
    assert fields[..i] == fields;
    r := Ok(StructEncoded(FilterEncoding("{" + d.name + "=" + acc + "}"), WithFields(d, done)));
  }

  /**
   * `structDefinitionToEncoding(tree->getStruct(name))` for a name the
   * struct registry holds: the encoding, and the tree with the definition's
   * fields updated; a null entry is dereferenced, which the model reports.
   */
  function StructEncodingAt(tree: Tree, name: string): (r: Result<(string, Tree)>)
    requires ValidTree(tree) && HasName(tree.structs, name)
    ensures r.Err? ==> tree.structs[name].None? || FieldEncodings(Encoder(tree), FieldsOf(tree.store[tree.structs[name].value])).Err?
    ensures r.Ok? ==> SameRegistries(tree, r.value.1)
  {
    match tree.structs[name]
    case None => Err("null struct definition")
    case Some(id) =>
      match StructEncoding(tree, tree.store[id])
      case Err(e) => Err(e)
      case Ok(x) => Ok((x.encoding, tree.(store := tree.store[id := x.def])))
  }

  /**
   * Two trees with the same registries, stores of one length, and each
   * definition of the same kind and from the same file (only struct fields
   * and typedef types differ once they have been encoded).
   */
  predicate SameRegistries(t: Tree, u: Tree)
  {
    ValidTree(u) && |u.store| == |t.store| && u == t.(store := u.store)
    && (forall i :: 0 <= i < |t.store| ==>
          (u.store[i].filename == t.store[i].filename
           && u.store[i].body.StructBody? == t.store[i].body.StructBody? && u.store[i].body.TypedefBody? == t.store[i].body.TypedefBody?))
  }

  // --------------------------------------------------------- resolveEncoding

  /** A patched object and the tree as the patch left it. */
  datatype Resolved = Resolved(kv: map<string, Json>, tree: Tree)

  /** `kv[key]` through the non-const `operator[]`: an absent key is inserted as null. */
  function Touch(kv: map<string, Json>, key: string): (r: map<string, Json>)
    ensures r.Keys == kv.Keys + {key}
    ensures forall k :: k in kv ==> r[k] == kv[k]
    ensures key !in kv ==> r[key] == JNull
  {
    if key in kv then kv else kv[key := JNull]
  }

  /** The object once `resolveEncoding` has read its three members. */
  function Touched(kv: map<string, Json>, typeKey: string, valueKey: string): (r: map<string, Json>)
    ensures r.Keys == kv.Keys + {typeKey, valueKey, "encoding"}
    ensures forall k :: k in kv ==> r[k] == kv[k]
  {
    Touch(Touch(Touch(kv, typeKey), valueKey), "encoding")
  }

  /** The value names an object type by its protocol or generic placeholder. */
  predicate IsIdName(v: string)
  {
    v == "id" || v == "ObjectType" || v == "KeyType"
  }

  /**
   * The first ten rules of `resolveEncoding` (lines 680-728 of util.cpp),
   * tried in order on the value: the encoding and tag the first matching
   * one assigns, or None when none matches.
   */
  function FixedRule(tree: Tree, v: string): (r: Option<(string, string)>)
    ensures r.Some? <==> IsIdName(v) || Contains(v, "(^)") || Contains(v, "(**)") || Contains(v, "(*)")
                         || Contains(v, "Class<") || v == "Class" || (Contains(v, "<") && Contains(v, ">"))
                         || Contains(v, "*") || v == "instancetype" || v == "SEL"
    ensures r.Some? ==> r.value in {("@", "id"), ("@?", "block"), ("^^?", "function_callback"), ("^?", "function_callback"),
                                    ("#", "Class"), ("@", "obj_interface"), (":", "SEL")}
                        || (r.value.1 == "pointer" && |r.value.0| >= 2 && r.value.0[0] == '^')
  {
    if IsIdName(v) then Some(("@", "id"))
    else if Contains(v, "(^)") then Some(("@?", "block"))
    else if Contains(v, "(**)") then Some(("^^?", "function_callback"))
    else if Contains(v, "(*)") then Some(("^?", "function_callback"))
    else if Contains(v, "Class<") || v == "Class" then Some(("#", "Class"))
    else if Contains(v, "<") && Contains(v, ">") then Some(("@", "obj_interface"))
    else if Contains(v, "*") then
      var cls := Trim(Replaced(v, "*", ""));
      if HasName(tree.classes, cls) then Some(("@", "obj_interface"))
      else Some(("^" + GetEncodingFromType(cls), "pointer"))
    else if v == "instancetype" then Some(("@", "obj_interface"))
    else if v == "SEL" then Some((":", "SEL"))
    else None
  }

  /** `val.find(p) == 0 ? val.substr(|p|) : val`. */
  function DropPrefix(s: string, p: string): (r: string)
    ensures StartsWith(s, p) ==> r == s[|p|..]
    ensures !StartsWith(s, p) ==> r == s
  {
    if StartsWith(s, p) then s[|p|..] else s
  }

  /**
   * `resolveEncoding(tree, kv, typeKey, valueKey)`. The three members are
   * read through `operator[]` (absent ones become null, read as ""), and
   * the encoding is filtered. A tag of "unexposed" or an empty or "?"
   * encoding runs the rule list; a typedef then resolves to the type its
   * definition names; an encoding that still needs resolving is finally
   * taken from the tag.
   */
  function ResolveEncoding(tree: Tree, kv: map<string, Json>, typeKey: string, valueKey: string): (r: Result<Resolved>)
    requires ValidTree(tree)
    ensures r.Ok? ==> SameRegistries(tree, r.value.tree)
    ensures r.Ok? ==> Touched(kv, typeKey, valueKey).Keys <= r.value.kv.Keys <= Touched(kv, typeKey, valueKey).Keys + {"type"}
    ensures r.Ok? ==> forall k :: k in kv && k != typeKey && k != "type" && k != "encoding" ==> r.value.kv[k] == kv[k]
  {
    var kv1 := Touched(kv, typeKey, valueKey);
    var encoding := FilterEncoding(StrAt(kv1, "encoding"));
    var typeString := StrAt(kv1, typeKey);
    var valueString := StrAt(kv1, valueKey);
    if typeString == "unexposed" || encoding == [] || encoding == "?" then
      UnexposedRules(tree, kv1, typeKey, encoding, typeString, valueString)
    else TypedefRules(tree, kv1, typeKey, encoding, typeString, valueString, false)
  }

  /** The rule list of lines 679-752 of util.cpp: the fixed rules first. */
  function UnexposedRules(tree: Tree, kv: map<string, Json>, typeKey: string, encoding: string, typeString: string,
                          valueString: string): (r: Result<Resolved>)
    requires ValidTree(tree)
    ensures r.Ok? ==> SameRegistries(tree, r.value.tree)
    ensures r.Ok? ==> kv.Keys <= r.value.kv.Keys <= kv.Keys + {typeKey, "type", "encoding"}
    ensures r.Ok? ==> forall k :: k in kv && k != typeKey && k != "type" && k != "encoding" ==> r.value.kv[k] == kv[k]
  {
    match FixedRule(tree, valueString)
    case Some(rule) => Ok(Resolved(kv["encoding" := JStr(rule.0)][typeKey := JStr(rule.1)], tree))
    case None => RegistryRules(tree, kv, typeKey, encoding, typeString, valueString)
  }

  /** Lines 729-751 of util.cpp: an enum spelling, then the struct and type registries, then the tag. */
  function RegistryRules(tree: Tree, kv: map<string, Json>, typeKey: string, encoding: string, typeString: string,
                         valueString: string): (r: Result<Resolved>)
    requires ValidTree(tree)
    ensures r.Ok? ==> SameRegistries(tree, r.value.tree)
    ensures r.Ok? ==> kv.Keys <= r.value.kv.Keys <= kv.Keys + {typeKey, "type", "encoding"}
    ensures r.Ok? ==> forall k :: k in kv && k != typeKey && k != "type" && k != "encoding" ==> r.value.kv[k] == kv[k]
  {
    if Contains(valueString, "enum ") then Ok(Resolved(kv["encoding" := JStr("i")]["type" := JStr("enum")], tree))
    else if HasName(tree.structs, valueString) then
      match StructEncodingAt(tree, valueString)
      case Err(e) => Err(e)
      case Ok(x) => Ok(Resolved(kv["encoding" := JStr(x.0)][typeKey := JStr("struct")], x.1))
    else if HasName(tree.types, valueString) then TypedefRules(tree, kv, typeKey, encoding, typeString, valueString, true)
    else
      match UnmatchedRule(kv, typeKey, encoding, typeString)
      case Err(e) => Err(e)
      case Ok(kv2) => TypedefRules(tree, kv2, typeKey, encoding, typeString, valueString, false)
  }

  /**
   * Lines 743-751 of util.cpp, when no rule matched: an encoding that needs
   * resolving is derived from the tag, and an "unexposed" tag is derived
   * back from the (possibly new) encoding; any other tag is kept.
   */
  function UnmatchedRule(kv: map<string, Json>, typeKey: string, encoding: string, typeString: string): (r: Result<map<string, Json>>)
    ensures r.Ok? ==> r.value.Keys == kv.Keys + {typeKey, "encoding"} || r.value.Keys == kv.Keys + {typeKey}
    ensures r.Ok? ==> forall k :: k in kv && k != typeKey && k != "encoding" ==> r.value[k] == kv[k]
    ensures r.Ok? ==> typeKey != "encoding" && EncodingNeedsResolving(encoding) ==> StrAt(r.value, "encoding") == GetEncodingFromType(typeString)
    ensures r.Ok? ==> typeString != "unexposed" ==> StrAt(r.value, typeKey) == typeString
    ensures r.Err? ==> typeString == "unexposed"
  {
    var kv2 := if EncodingNeedsResolving(encoding) then kv["encoding" := JStr(GetEncodingFromType(typeString))] else kv;
    if typeString == "unexposed" then
      match EncodingToType(StrAt(kv2, "encoding"))
      case Err(e) => Err(e)
      case Ok(t) => Ok(kv2[typeKey := JStr(t)])
    else Ok(kv2[typeKey := JStr(typeString)])
  }

  /** Lines 753-799 of util.cpp: the typedef resolution, then the final fallback. */
  function TypedefRules(tree: Tree, kv: map<string, Json>, typeKey: string, encoding: string, typeString: string,
                        valueString: string, isTypeDef: bool): (r: Result<Resolved>)
    requires ValidTree(tree)
    ensures r.Ok? ==> SameRegistries(tree, r.value.tree)
    ensures r.Ok? ==> kv.Keys <= r.value.kv.Keys <= kv.Keys + {typeKey, "encoding"}
    ensures r.Ok? ==> forall k :: k in kv && k != typeKey && k != "encoding" ==> r.value.kv[k] == kv[k]
  {
    if typeString == "typedef" || isTypeDef then
      if HasName(tree.types, valueString) then
        match tree.types[valueString]
        case None => Err("null type definition")
        case Some(id) =>
          match tree.store[id].body.ty
          case None => Err("null type")
          case Some(t) => TargetRules(tree, kv, typeKey, t.tag, t.value)
      else if valueString == "instancetype" then Ok(Resolved(kv[typeKey := JStr("obj_interface")]["encoding" := JStr("@")], tree))
      else FinalRule(tree, kv, encoding, typeString)
    else FinalRule(tree, kv, encoding, typeString)
  }

  /** Lines 754-788 of util.cpp: the tag and value of the `Type` a typedef definition holds decide. */
  function TargetRules(tree: Tree, kv: map<string, Json>, typeKey: string, typestr: string, valstr: string): (r: Result<Resolved>)
    requires ValidTree(tree)
    ensures r.Ok? ==> SameRegistries(tree, r.value.tree)
    ensures r.Ok? ==> kv.Keys <= r.value.kv.Keys <= kv.Keys + {typeKey, "encoding"}
    ensures r.Ok? ==> forall k :: k in kv && k != typeKey && k != "encoding" ==> r.value.kv[k] == kv[k]
  {
    if typestr == "enum" && HasName(tree.enums, DropPrefix(valstr, "enum ")) then
      Ok(Resolved(kv[typeKey := JStr("enum")]["encoding" := JStr("i")], tree))
    else if typestr == "record" && HasName(tree.structs, DropPrefix(valstr, "struct ")) then
      match StructEncodingAt(tree, DropPrefix(valstr, "struct "))
      case Err(e) => Err(e)
      case Ok(x) => Ok(Resolved(kv[typeKey := JStr("struct")]["encoding" := JStr(x.0)], x.1))
    else Ok(Resolved(kv[typeKey := JStr(typestr)]["encoding" := JStr(GetEncodingFromType(typestr))], tree))
  }

  /** Lines 797-799 of util.cpp: an encoding that still needs resolving is derived from the tag. */
  function FinalRule(tree: Tree, kv: map<string, Json>, encoding: string, typeString: string): (r: Result<Resolved>)
    requires ValidTree(tree)
    ensures r.Ok? && r.value.tree == tree
    ensures EncodingNeedsResolving(encoding) ==> r.value.kv == kv["encoding" := JStr(GetEncodingFromType(typeString))]
    ensures !EncodingNeedsResolving(encoding) ==> r.value.kv == kv
  {
    if EncodingNeedsResolving(encoding) then Ok(Resolved(kv["encoding" := JStr(GetEncodingFromType(typeString))], tree))
    else Ok(Resolved(kv, tree))
  }

  // --------------------------------------------------- lemmas about it

  /** The tag `EncodingToType` gives back for the tag a fixed rule assigns. */
  function DecodedTag(tag: string): string
  {
    if tag == "function_callback" then "pointer" else if tag == "obj_interface" then "id" else tag
  }

  /**
   * Each fixed rule assigns an encoding and a tag that agree: decoding the
   * encoding gives the tag back, a callback decoding as a pointer and an
   * object interface as `id`.
   */
  lemma FixedRuleDecodes(tree: Tree, v: string)
    ensures var r := FixedRule(tree, v);
            r.Some? ==> EncodingToType(r.value.0) == Ok(DecodedTag(r.value.1))
  {
    FixedCodesDecode();
    var r := FixedRule(tree, v);
    if r.Some? && r.value.1 == "pointer" && r.value.0 != "^?" {
      EncodingToTypeCompound(r.value.0);
    }
  }

  /** The fixed codes the rules assign, decoded. */
  lemma FixedCodesDecode()
    ensures EncodingToType("@") == Ok("id") && EncodingToType("#") == Ok("Class") && EncodingToType(":") == Ok("SEL")
    ensures EncodingToType("@?") == Ok("block")
    ensures EncodingToType("^?") == Ok("pointer") && EncodingToType("^^?") == Ok("pointer")
  {
    assert FilterEncoding("@?") == "@?";
    EncodingToTypeCompound("^?");
    EncodingToTypeCompound("^^?");
  }

  /** The fixed rules are tried in order: a block spelling wins over every later rule, a '*' included. */
  lemma FixedRuleBlockFirst(tree: Tree, v: string)
    requires Contains(v, "(^)") && !IsIdName(v)
    ensures FixedRule(tree, v) == Some(("@?", "block"))
  {
  }

  /**
   * A pointer spelling that no earlier rule claims: an object when its base
   * names a registered class, otherwise a caret in front of the base's
   * primitive code, which decodes as a pointer.
   */
  lemma FixedRulePointer(tree: Tree, v: string)
    requires Contains(v, "*") && !IsIdName(v) && !Contains(v, "(^)") && !Contains(v, "(**)") && !Contains(v, "(*)")
    requires !Contains(v, "Class<") && v != "Class" && !(Contains(v, "<") && Contains(v, ">"))
    ensures var cls := Trim(Replaced(v, "*", ""));
            HasName(tree.classes, cls) ==> FixedRule(tree, v) == Some(("@", "obj_interface"))
    ensures var cls := Trim(Replaced(v, "*", ""));
            !HasName(tree.classes, cls) ==>
              FixedRule(tree, v) == Some(("^" + GetEncodingFromType(cls), "pointer")) &&
              EncodingToType("^" + GetEncodingFromType(cls)) == Ok("pointer")
  {
    var cls := Trim(Replaced(v, "*", ""));
    var e := "^" + GetEncodingFromType(cls);
    assert e[0] == '^' && |e| >= 2;
    EncodingToTypeCompound(e);
  }

  /** The rule list runs when the tag is "unexposed" or the filtered encoding is empty or "?". */
  predicate Triggers(kv: map<string, Json>, typeKey: string)
  {
    var encoding := FilterEncoding(StrAt(kv, "encoding"));
    StrAt(kv, typeKey) == "unexposed" || encoding == [] || encoding == "?"
  }

  /**
   * An object whose tag is neither "unexposed" nor "typedef" and whose
   * encoding needs no resolving comes back as it was, apart from the null
   * members reading inserted.
   */
  lemma ResolveEncodingUntouched(tree: Tree, kv: map<string, Json>, typeKey: string, valueKey: string)
    requires ValidTree(tree)
    requires var kv1 := Touched(kv, typeKey, valueKey);
             StrAt(kv1, typeKey) != "unexposed" && StrAt(kv1, typeKey) != "typedef"
             && !EncodingNeedsResolving(FilterEncoding(StrAt(kv1, "encoding")))
    ensures ResolveEncoding(tree, kv, typeKey, valueKey) == Ok(Resolved(Touched(kv, typeKey, valueKey), tree))
  {
  }

  /** When the rule list runs, the first fixed rule that matches sets the encoding, then the tag, and nothing else happens. */
  lemma ResolveEncodingFixedRule(tree: Tree, kv: map<string, Json>, typeKey: string, valueKey: string)
    requires ValidTree(tree)
    ensures var kv1 := Touched(kv, typeKey, valueKey);
            var rule := FixedRule(tree, StrAt(kv1, valueKey));
            Triggers(kv1, typeKey) && rule.Some? ==>
              ResolveEncoding(tree, kv, typeKey, valueKey) == Ok(Resolved(kv1["encoding" := JStr(rule.value.0)][typeKey := JStr(rule.value.1)], tree))
  {
  }

  /** An "enum " spelling no fixed rule claims is an int, and its tag goes to the literal "type" member. */
  lemma ResolveEncodingEnum(tree: Tree, kv: map<string, Json>, typeKey: string, valueKey: string)
    requires ValidTree(tree)
    ensures var kv1 := Touched(kv, typeKey, valueKey);
            var v := StrAt(kv1, valueKey);
            Triggers(kv1, typeKey) && FixedRule(tree, v).None? && Contains(v, "enum ") ==>
              ResolveEncoding(tree, kv, typeKey, valueKey) == Ok(Resolved(kv1["encoding" := JStr("i")]["type" := JStr("enum")], tree))
  {
  }

  /**
   * A registered struct spelling no earlier rule claims takes the struct's
   * encoding, "{" + name + "=" + its field encodings + "}", and the tag
   * "struct".
   */
  lemma ResolveEncodingStruct(tree: Tree, kv: map<string, Json>, typeKey: string, valueKey: string)
    requires ValidTree(tree) && typeKey != "encoding"
    ensures var kv1 := Touched(kv, typeKey, valueKey);
            var v := StrAt(kv1, valueKey);
            var r := ResolveEncoding(tree, kv, typeKey, valueKey);
            Triggers(kv1, typeKey) && FixedRule(tree, v).None? && !Contains(v, "enum ") && HasName(tree.structs, v)
            && tree.structs[v].Some? && r.Ok? ==>
              var d := tree.store[tree.structs[v].value];
              StrAt(r.value.kv, typeKey) == "struct"
              && StrAt(r.value.kv, "encoding") == "{" + d.name + "=" + FieldEncodings(Encoder(tree), FieldsOf(d)).value.encoding + "}"
  {
    var kv1 := Touched(kv, typeKey, valueKey);
    var v := StrAt(kv1, valueKey);
    if HasName(tree.structs, v) && tree.structs[v].Some? {
      StructEncodingShape(tree, tree.store[tree.structs[v].value]);
    }
  }

  /**
   * A typedef whose definition holds a `Type` that is neither an enum nor
   * a record (and whose encoding is fine) takes that type's tag and the
   * primitive code of that tag.
   */
  lemma ResolveEncodingTypedef(tree: Tree, kv: map<string, Json>, typeKey: string, valueKey: string)
    requires ValidTree(tree)
    ensures var kv1 := Touched(kv, typeKey, valueKey);
            var v := StrAt(kv1, valueKey);
            !Triggers(kv1, typeKey) && StrAt(kv1, typeKey) == "typedef" && HasName(tree.types, v) && tree.types[v].Some?
            && tree.store[tree.types[v].value].body.ty.Some? ==>
              var t := tree.store[tree.types[v].value].body.ty.value;
              t.tag != "enum" && t.tag != "record" ==>
                ResolveEncoding(tree, kv, typeKey, valueKey)
                  == Ok(Resolved(kv1[typeKey := JStr(t.tag)]["encoding" := JStr(GetEncodingFromType(t.tag))], tree))
  {
  }
}
