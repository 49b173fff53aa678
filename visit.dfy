/**
 * The visit of one top-level cursor (`begin` in parser.cpp) and the
 * `executeParse` of each kind of definition it creates (struct.cpp,
 * typedef.cpp, enum.cpp, function.cpp), of methods and properties
 * (method.cpp, property.cpp) and of block.cpp's block, with the block
 * discovery (`addBlockIfFound` in util.cpp) they all share.
 */
module Visit {
  import opened Wrappers
  import opened MetabaseUtil
  import opened Encoding
  import opened Clang
  import opened Defs
  import opened Kinds
  import opened Locations
  import opened Parser
  import opened Walk

  // ------------------------------------------------------- block discovery

  /** A block type found on `c` has been registered under the framework name and its signature. */
  ghost predicate Registered(name: string, blocks: map<string, Registry>, c: Cursor)
  {
    FoundBlock(c).Some? && name != [] && FoundBlock(c).value.value != [] ==>
      name in blocks && FoundBlock(c).value.value in blocks[name]
  }

  /** Every child of `kind` among the first `n` has had its block registered. */
  ghost predicate BlocksFound(name: string, blocks: map<string, Registry>, cs: seq<Cursor>, kind: CursorKind, n: nat)
  {
    forall i :: 0 <= i < n && i < |cs| && cs[i].kind == kind ==> Registered(name, blocks, cs[i])
  }

  /** Registrations survive any later change that keeps the block keys. */
  lemma RegisteredKept(name: string, a: map<string, Registry>, b: map<string, Registry>, c: Cursor)
    requires Registered(name, a, c) && KeysKept(a, b)
    ensures Registered(name, b, c)
  {
  }

  lemma BlocksFoundKept(name: string, a: map<string, Registry>, b: map<string, Registry>, cs: seq<Cursor>, kind: CursorKind, n: nat)
    requires BlocksFound(name, a, cs, kind, n) && KeysKept(a, b)
    ensures BlocksFound(name, b, cs, kind, n)
  {
    forall i | 0 <= i < n && i < |cs| && cs[i].kind == kind
      ensures Registered(name, b, cs[i])
    {
      RegisteredKept(name, a, b, cs[i]);
    }
  }

  /**
   * `addBlockIfFound`: when the cursor's type (for a typedef, its
   * canonical underlying type) is a block, the block is parsed and
   * registered with the enclosing definition's introducedIn; otherwise
   * nothing changes.
   */
  method AddBlockIfFound(ctx: ParserContext, introducedIn: string, c: Cursor) returns (r: Result<()>)
    requires Ready(ctx)
    modifies ctx, ctx.tree
    ensures Ready(ctx) && ctx.Place() == old(ctx.Place())
    ensures ctx.tree.Snapshot() == old(ctx.tree.Snapshot()).(blocks := ctx.tree.blocks, store := ctx.tree.store)
    ensures Extends(old(ctx.tree.store), ctx.tree.store) && KeysKept(old(ctx.tree.blocks), ctx.tree.blocks)
    ensures FoundBlock(c).None? ==> r.Ok? && ctx.tree.Snapshot() == old(ctx.tree.Snapshot())
                                    && ctx.current == old(ctx.current) && ctx.previous == old(ctx.previous)
    ensures r.Ok? ==> Registered(ctx.GetFrameworkName(), ctx.tree.blocks, c)
  {
    var found := FoundBlock(c);
    if found.None? {
      KeysKeptSame(ctx.tree.blocks);
      return Ok(());
    }
    var p := ParseBlock(ctx, introducedIn, c, found.value);
    if p.Err? {
      return Err(p.error);
    }
    r := Ok(());
  }

  // ---------------------------------------------------------- the members

  /** The fold `CursorArguments` is, one child at a time. */
  lemma CursorArgumentsStep(cs: seq<Cursor>, kind: CursorKind, structs: Registry, i: nat)
    requires i < |cs|
    ensures CursorArguments(cs[..i + 1], kind, structs) ==
              (match CursorArguments(cs[..i], kind, structs)
               case Err(e) => Err(e)
               case Ok(args) =>
                 if cs[i].kind != kind then Ok(args)
                 else match CursorArgument(cs[i], structs)
                      case Err(e) => Err(e)
                      case Ok(a) => Ok(args + [a]))
  {
    assert cs[..i + 1][..i] == cs[..i];
  }

  /** `t` differs from `t0` only by blocks added and definitions appended or updated, none removed. */
  ghost predicate Grown(t0: Tree, t: Tree)
  {
    t == t0.(blocks := t.blocks, store := t.store) && Extends(t0.store, t.store) && KeysKept(t0.blocks, t.blocks)
  }

  lemma GrownTransitive(a: Tree, b: Tree, c: Tree)
    requires Grown(a, b) && Grown(b, c)
    ensures Grown(a, c)
  {
    ExtendsTransitive(a.store, b.store, c.store);
    KeysKeptTransitive(a.blocks, b.blocks, c.blocks);
  }

  lemma GrownSame(t: Tree)
    ensures Grown(t, t)
  {
    KeysKeptSame(t.blocks);
  }

  /** The visit of the first `i` children has collected `args` and registered their blocks. */
  ghost predicate MembersSoFar(name: string, t0: Tree, t: Tree, cs: seq<Cursor>, kind: CursorKind, i: nat, args: seq<Argument>)
  {
    Grown(t0, t) && i <= |cs| && CursorArguments(cs[..i], kind, t0.structs) == Ok(args)
    && BlocksFound(name, t.blocks, cs, kind, i)
  }

  lemma MembersStart(name: string, t0: Tree, cs: seq<Cursor>, kind: CursorKind)
    ensures MembersSoFar(name, t0, t0, cs, kind, 0, [])
  {
    GrownSame(t0);
    assert cs[..0] == [];
  }

  lemma MembersDone(name: string, t0: Tree, t: Tree, cs: seq<Cursor>, kind: CursorKind, args: seq<Argument>)
    requires MembersSoFar(name, t0, t, cs, kind, |cs|, args)
    ensures CursorArguments(cs, kind, t.structs) == Ok(args) && BlocksFound(name, t.blocks, cs, kind, |cs|)
  {
    assert cs[..|cs|] == cs;
  }

  /** A child that is not of `kind` leaves the visit as it was. */
  lemma MembersSkip(name: string, t0: Tree, t: Tree, cs: seq<Cursor>, kind: CursorKind, i: nat, args: seq<Argument>)
    requires MembersSoFar(name, t0, t, cs, kind, i, args) && i < |cs| && cs[i].kind != kind
    ensures MembersSoFar(name, t0, t, cs, kind, i + 1, args)
  {
    CursorArgumentsStep(cs, kind, t0.structs, i);
  }

  /** A child of `kind` that gives an argument and whose block is registered extends the visit. */
  lemma MembersNext(name: string, t0: Tree, t: Tree, u: Tree, cs: seq<Cursor>, kind: CursorKind, i: nat, args: seq<Argument>, a: Argument)
    requires MembersSoFar(name, t0, t, cs, kind, i, args) && i < |cs| && cs[i].kind == kind
    requires CursorArgument(cs[i], t0.structs) == Ok(a)
    requires Grown(t, u) && Registered(name, u.blocks, cs[i])
    ensures MembersSoFar(name, t0, u, cs, kind, i + 1, args + [a])
  {
    CursorArgumentsStep(cs, kind, t0.structs, i);
    GrownTransitive(t0, t, u);
    BlocksFoundKept(name, t.blocks, u.blocks, cs, kind, i);
  }

  /** One child of the visit. */
  method ParseMember(ctx: ParserContext, introducedIn: string, cs: seq<Cursor>, kind: CursorKind, i: nat, args: seq<Argument>,
                     ghost t0: Tree) returns (r: Result<seq<Argument>>)
    requires Ready(ctx) && i < |cs| && MembersSoFar(ctx.GetFrameworkName(), t0, ctx.tree.Snapshot(), cs, kind, i, args)
    modifies ctx, ctx.tree
    ensures Ready(ctx) && ctx.Place() == old(ctx.Place()) && Grown(t0, ctx.tree.Snapshot())
    ensures r.Ok? ==> MembersSoFar(ctx.GetFrameworkName(), t0, ctx.tree.Snapshot(), cs, kind, i + 1, r.value)
  {
    var tree := ctx.tree;
    ghost var t1 := tree.Snapshot();
    if cs[i].kind != kind {
      MembersSkip(ctx.GetFrameworkName(), t0, t1, cs, kind, i, args);
      return Ok(args);
    }
    var arg := CursorArgument(cs[i], tree.structs);
    if arg.Err? {
      return Err(arg.error);
    }
    var found := AddBlockIfFound(ctx, introducedIn, cs[i]);
    if found.Err? {
      GrownTransitive(t0, t1, tree.Snapshot());
      return Err(found.error);
    }
    MembersNext(ctx.GetFrameworkName(), t0, t1, tree.Snapshot(), cs, kind, i, args, arg.value);
    r := Ok(args + [arg.value]);
  }

  /**
   * The visit of a definition's children that `parseStructMember`,
   * `parseFunctionMember`, `parseMethodMember` and block.cpp's
   * `parseBlockMember` share: each child of `kind` becomes an argument
   * named after it and typed by `Type(CXCursor)`, and a block on it is
   * registered; other children are skipped.
   */
  method ParseMembers(ctx: ParserContext, introducedIn: string, cs: seq<Cursor>, kind: CursorKind)
    returns (r: Result<seq<Argument>>)
    requires Ready(ctx)
    modifies ctx, ctx.tree
    ensures Ready(ctx) && ctx.Place() == old(ctx.Place()) && Grown(old(ctx.tree.Snapshot()), ctx.tree.Snapshot())
    ensures CursorArguments(cs, kind, ctx.tree.structs).Err? ==> r.Err?
    ensures r.Ok? ==> r == CursorArguments(cs, kind, ctx.tree.structs)
                      && BlocksFound(ctx.GetFrameworkName(), ctx.tree.blocks, cs, kind, |cs|)
  {
    ghost var t0 := ctx.tree.Snapshot();
    MembersStart(ctx.GetFrameworkName(), t0, cs, kind);
    var args: seq<Argument> := [];
    var i := 0;
    while i < |cs|
      invariant Ready(ctx) && ctx.Place() == old(ctx.Place())
      invariant MembersSoFar(ctx.GetFrameworkName(), t0, ctx.tree.Snapshot(), cs, kind, i, args)
    {
      var next := ParseMember(ctx, introducedIn, cs, kind, i, args, t0);
      if next.Err? {
        return Err(next.error);
      }
      args := next.value;
      i := i + 1;
    }
    MembersDone(ctx.GetFrameworkName(), t0, ctx.tree.Snapshot(), cs, kind, args);
    r := Ok(args);
  }

  /** A definition rewritten in place on both sides of a growth keeps the growth. */
  lemma GrownPut(t0: Tree, t: Tree, p: nat, d: Def)
    requires Grown(t0, t) && p < |t0.store|
    ensures Grown(t0.(store := t0.store[p := d]), t.(store := t.store[p := d]))
  {
    assert t.store[p := d][..|t0.store|] == t0.store[p := d];
  }

  // ------------------------------------------------------------- struct.cpp

  /**
   * The struct as `executeParse` first sets it: the type tagged "struct"
   * (`setType` cleans the tag, which leaves "struct" as it is), named
   * after the type's value when it has no name.
   */
  function StructHeader(d: Def, ty: TypeInfo): (r: Def)
    ensures r.body.StructBody? && r.body.fields == [] && r.body.ty == Some(ty.(tag := "struct"))
    ensures r.name == (if d.name == [] then ty.value else d.name)
    ensures r.filename == d.filename && r.line == d.line && r.introducedIn == d.introducedIn
  {
    d.(name := if d.name == [] then ty.value else d.name, body := StructBody(Some(ty.(tag := "struct")), []))
  }

  /** A struct is registered when its cursor kind is exposed and it has a name. */
  predicate StructRegistered(c: Cursor, head: Def)
  {
    !c.unexposed && head.name != []
  }

  /** The name the struct ends up with: without leading underscores when it is registered. */
  function StructName(c: Cursor, head: Def): string
  {
    if StructRegistered(c, head) then TrimUnderscores(head.name) else head.name
  }

  /** The tree after the header: the struct rewritten and, when registered, under its name without leading underscores. */
  ghost function StructHeaderTree(t0: Tree, p: nat, c: Cursor, ty: TypeInfo): (t: Tree)
    requires p < |t0.store|
  {
    var head := StructHeader(t0.store[p], ty);
    var d := head.(name := StructName(c, head));
    t0.(structs := if StructRegistered(c, head) then t0.structs[d.name := Some(p)] else t0.structs, store := t0.store[p := d])
  }

  /** The header leaves as many definitions, the struct at `p` named and typed. */
  lemma StructHeaderAt(t0: Tree, p: nat, c: Cursor, ty: TypeInfo)
    requires p < |t0.store|
    ensures var t := StructHeaderTree(t0, p, c, ty);
            var head := StructHeader(t0.store[p], ty);
            |t.store| == |t0.store| && t.store[p] == head.(name := StructName(c, head))
  {
  }

  /** `Put` of a definition that is not a block in place of one that is not either, which keeps the walk's invariant. */
  method Rewrite(ctx: ParserContext, p: nat, d: Def)
    requires Ready(ctx) && p < |ctx.tree.store| && !ctx.tree.store[p].body.BlockBody?
    requires d.body.StructBody? == ctx.tree.store[p].body.StructBody? && d.body.TypedefBody? == ctx.tree.store[p].body.TypedefBody?
    modifies ctx.tree
    ensures Ready(ctx) && ctx.tree.Snapshot() == old(ctx.tree.Snapshot()).(store := old(ctx.tree.store)[p := d])
  {
    ghost var t0 := ctx.tree.Snapshot();
    ctx.tree.Put(p, d);
    BlocksNamedPut(t0, p, d);
  }

  /** `addStruct` on the named struct at `p`, which keeps the walk's invariant. */
  method AddStructAt(ctx: ParserContext, p: nat)
    requires Ready(ctx) && p < |ctx.tree.store| && ctx.tree.store[p].body.StructBody? && ctx.tree.store[p].name != []
    modifies ctx.tree
    ensures var key := TrimUnderscores(old(ctx.tree.store)[p].name);
            Ready(ctx) && ctx.tree.Snapshot() == old(ctx.tree.Snapshot()).(structs := old(ctx.tree.structs)[key := Some(p)],
                                                                            store := old(ctx.tree.store)[p := old(ctx.tree.store)[p].(name := key)])
  {
    ghost var t0 := ctx.tree.Snapshot();
    ctx.tree.AddStruct(p);
    BlocksNamedPut(t0, p, ctx.tree.store[p]);
  }

  /** The part of `StructDefinition::executeParse` before the fields, once the cursor's type `ty` is known. */
  method ParseStructHeader(ctx: ParserContext, p: nat, c: Cursor, ty: TypeInfo)
    requires Ready(ctx) && p < |ctx.tree.store| && ctx.tree.store[p].body.StructBody?
    modifies ctx.tree
    ensures Ready(ctx) && ctx.tree.Snapshot() == StructHeaderTree(old(ctx.tree.Snapshot()), p, c, ty)
  {
    var head := StructHeader(ctx.tree.store[p], ty);
    Rewrite(ctx, p, head);
    if StructRegistered(c, head) {
      AddStructAt(ctx, p);
    }
  }

  /**
   * The struct once `executeParse` has visited its fields: the header
   * for the cursor's type `ty`, with one field per field declaration,
   * typed against the registry that already holds the struct, and the
   * tree grown from the header's.
   */
  ghost predicate StructParsed(t0: Tree, t: Tree, p: nat, c: Cursor, ty: TypeInfo)
  {
    p < |t0.store|
    && (StructHeaderAt(t0, p, c, ty); true)
    && var t1 := StructHeaderTree(t0, p, c, ty);
       CursorArguments(c.children, FieldDecl, t1.structs).Ok?
       && var d := t1.store[p].(body := StructBody(Some(ty.(tag := "struct")), CursorArguments(c.children, FieldDecl, t1.structs).value));
          p < |t.store| && t.store[p] == d && Grown(t1.(store := t1.store[p := d]), t)
  }

  /** The fields written once they are all visited complete the struct. */
  lemma StructFieldsDone(t0: Tree, t1: Tree, t2: Tree, p: nat, c: Cursor, ty: TypeInfo, fields: seq<Argument>, d: Def)
    requires p < |t0.store| && t1 == StructHeaderTree(t0, p, c, ty) && Grown(t1, t2)
    requires CursorArguments(c.children, FieldDecl, t2.structs) == Ok(fields)
    requires d == t2.store[p].(body := StructBody(Some(ty.(tag := "struct")), fields))
    ensures StructParsed(t0, t2.(store := t2.store[p := d]), p, c, ty)
  {
    StructHeaderAt(t0, p, c, ty);
    assert t2.store[p] == t1.store[p];
    GrownPut(t1, t2, p, d);
  }

  /** The header and the fields of the struct at `p`, once the cursor's type `ty` is known. */
  method ParseStructWith(ctx: ParserContext, p: nat, c: Cursor, ty: TypeInfo) returns (r: Result<()>)
    requires Ready(ctx) && p < |ctx.tree.store| && ctx.tree.store[p].body.StructBody?
    modifies ctx, ctx.tree
    ensures Ready(ctx) && ctx.Place() == old(ctx.Place())
    ensures r.Ok? ==> StructParsed(old(ctx.tree.Snapshot()), ctx.tree.Snapshot(), p, c, ty)
                      && BlocksFound(ctx.GetFrameworkName(), ctx.tree.blocks, c.children, FieldDecl, |c.children|)
  {
    var tree := ctx.tree;
    ghost var t0 := tree.Snapshot();
    ParseStructHeader(ctx, p, c, ty);
    ghost var t1 := tree.Snapshot();
    var fields := ParseMembers(ctx, tree.store[p].introducedIn, c.children, FieldDecl);
    if fields.Err? {
      return Err(fields.error);
    }
    ghost var t2 := tree.Snapshot();
    var d := tree.store[p].(body := StructBody(Some(ty.(tag := "struct")), fields.value));
    Rewrite(ctx, p, d);
    StructFieldsDone(t0, t1, t2, p, c, ty, fields.value, d);
    r := Ok(());
  }

  /**
   * `StructDefinition::executeParse` on the struct at `p`: the type of
   * the cursor (which may throw), the header, then `parseStructMember`
   * over the children, a field declaration adding a field and registering
   * a block found on it; nested struct and union declarations and
   * attributes are skipped.
   */
  method ParseStruct(ctx: ParserContext, p: nat, c: Cursor) returns (r: Result<TypeInfo>)
    requires Ready(ctx) && p < |ctx.tree.store| && ctx.tree.store[p].body.StructBody?
    modifies ctx, ctx.tree
    ensures Ready(ctx) && ctx.Place() == old(ctx.Place())
    ensures TypeOfCursor(c, old(ctx.tree.structs)).Err? ==> r.Err?
    ensures r.Ok? ==> Ok(r.value) == TypeOfCursor(c, old(ctx.tree.structs))
                      && StructParsed(old(ctx.tree.Snapshot()), ctx.tree.Snapshot(), p, c, r.value)
                      && BlocksFound(ctx.GetFrameworkName(), ctx.tree.blocks, c.children, FieldDecl, |c.children|)
  {
    var ty := TypeOfCursor(c, ctx.tree.structs);
    if ty.Err? {
      return Err(ty.error);
    }
    var done := ParseStructWith(ctx, p, c, ty.value);
    if done.Err? {
      return Err(done.error);
    }
    r := ty;
  }

  // ------------------------------------------------------------ typedef.cpp

  /**
   * What a typedef whose type is a record does to the definition made
   * before it: when that one has no name it takes the typedef's spelling;
   * a union is then registered (when the spelling is not empty) and the
   * typedef's type retagged "union", a struct is registered under the
   * spelling without leading underscores and the type retagged "struct"
   * (an empty spelling throws, as `key.at(0)` does), and any other kind is
   * only renamed. A named or absent previous definition, or a type that is
   * not a record, changes nothing.
   */
  ghost function Backfill(t: Tree, prev: Option<nat>, ty: TypeInfo, spelling: string): (r: Result<(TypeInfo, Tree)>)
    requires prev.Some? ==> prev.value < |t.store|
    ensures r.Ok? ==> |r.value.1.store| == |t.store|
    ensures r.Err? <==> ty.tag == "record" && prev.Some? && t.store[prev.value].name == []
                        && t.store[prev.value].body.StructBody? && spelling == []
  {
    if ty.tag != "record" || prev.None? || t.store[prev.value].name != [] then Ok((ty, t))
    else
      var q := prev.value;
      var body := t.store[q].body;
      if body.StructBody? && spelling == [] then Err("out_of_range")
      else
        var name := if body.StructBody? then TrimUnderscores(spelling) else spelling;
        var tag := if body.UnionBody? then "union" else if body.StructBody? then "struct" else ty.tag;
        Ok((ty.(tag := tag),
            t.(unions := if body.UnionBody? && spelling != [] then t.unions[spelling := Some(q)] else t.unions,
               structs := if body.StructBody? then t.structs[name := Some(q)] else t.structs,
               store := t.store[q := t.store[q].(name := name)])))
  }

  /** A named or absent previous definition, or a type that is not a record, leaves the tree alone. */
  lemma BackfillOnlyAnonymous(t: Tree, prev: Option<nat>, ty: TypeInfo, spelling: string)
    requires prev.Some? ==> prev.value < |t.store|
    requires ty.tag != "record" || prev.None? || t.store[prev.value].name != []
    ensures Backfill(t, prev, ty, spelling) == Ok((ty, t))
  {
  }

  /** No definition other than the previous one changes. */
  lemma BackfillOthersKept(t: Tree, q: nat, ty: TypeInfo, spelling: string, i: nat)
    requires q < |t.store| && Backfill(t, Some(q), ty, spelling).Ok? && i < |t.store| && i != q
    ensures Backfill(t, Some(q), ty, spelling).value.1.store[i] == t.store[i]
  {
  }

  /** A record typedef names the anonymous struct before it and registers it under that name, leading underscores removed. */
  lemma BackfillNamesStruct(t: Tree, q: nat, ty: TypeInfo, spelling: string)
    requires q < |t.store| && t.store[q].name == [] && t.store[q].body.StructBody?
    requires ty.tag == "record" && spelling != []
    ensures var b := Backfill(t, Some(q), ty, spelling);
            var key := TrimUnderscores(spelling);
            b.Ok? && b.value.0.tag == "struct" && b.value.1.structs[key] == Some(q) && b.value.1.store[q].name == key
            && (key != [] ==> key[0] != '_')
  {
  }

  /** `setName` on the definition at `p`, which keeps the walk's invariant unless a registered block is renamed. */
  method RenameAt(ctx: ParserContext, p: nat, name: string)
    requires Ready(ctx) && p < |ctx.tree.store| && !(ctx.tree.store[p].body.BlockBody? && ctx.tree.store[p].name != [])
    modifies ctx.tree
    ensures Ready(ctx) && ctx.tree.Snapshot() == old(ctx.tree.Snapshot()).(store := old(ctx.tree.store)[p := old(ctx.tree.store)[p].(name := name)])
  {
    ghost var t0 := ctx.tree.Snapshot();
    ctx.tree.Rename(p, name);
    BlocksNamedPut(t0, p, ctx.tree.store[p]);
  }

  /** The backfill on the tree, for the context's previous definition. */
  method BackfillPrevious(ctx: ParserContext, ty: TypeInfo, spelling: string) returns (r: Result<TypeInfo>)
    requires Ready(ctx)
    modifies ctx.tree
    ensures Ready(ctx)
    ensures var b := Backfill(old(ctx.tree.Snapshot()), ctx.previous, ty, spelling);
            (r.Err? <==> b.Err?) && (r.Ok? ==> r.value == b.value.0 && ctx.tree.Snapshot() == b.value.1)
  {
    var tree := ctx.tree;
    if ty.tag != "record" || ctx.previous.None? || tree.store[ctx.previous.value].name != [] {
      return Ok(ty);
    }
    var q := ctx.previous.value;
    RenameAt(ctx, q, spelling);
    if tree.store[q].body.UnionBody? {
      tree.AddUnion(q);
      return Ok(ty.(tag := "union"));
    }
    if tree.store[q].body.StructBody? {
      if spelling == [] {
        return Err("out_of_range");
      }
      AddStructAt(ctx, q);
      return Ok(ty.(tag := "struct"));
    }
    r := Ok(ty);
  }

  /** Registering the typedef on a grown tree is growing the tree with the typedef registered. */
  lemma GrownTypes(t0: Tree, t: Tree, m: Registry)
    requires Grown(t0, t)
    ensures Grown(t0.(types := m), t.(types := m))
  {
  }

  lemma GrownFunctions(t0: Tree, t: Tree, m: Registry)
    requires Grown(t0, t)
    ensures Grown(t0.(functions := m), t.(functions := m))
  {
  }

  /**
   * The typedef once parsed, for the type `ty` of its underlying type:
   * the backfill of the previous definition, then the typedef at `p` with
   * the (possibly retagged) type and registered under its name, then
   * whatever its block adds.
   */
  ghost predicate TypedefParsed(t0: Tree, t: Tree, p: nat, prev: Option<nat>, c: Cursor, ty: TypeInfo)
  {
    p < |t0.store| && (prev.Some? ==> prev.value < |t0.store| && prev.value != p)
    && Backfill(t0, prev, ty, c.typedefUnderlying.spelling).Ok?
    && var (ty1, t1) := Backfill(t0, prev, ty, c.typedefUnderlying.spelling).value;
       |t1.store| == |t0.store|
       && var d := t0.store[p].(body := TypedefBody(Some(ty1)));
          Grown(t1.(types := t1.types[d.name := Some(p)], store := t1.store[p := d]), t)
  }

  /** `addType` on the typedef at `p`, which keeps the walk's invariant. */
  method AddTypeAt(ctx: ParserContext, p: nat)
    requires Ready(ctx) && p < |ctx.tree.store| && ctx.tree.store[p].body.TypedefBody?
    modifies ctx.tree
    ensures Ready(ctx) && ctx.tree.Snapshot() == old(ctx.tree.Snapshot()).(types := old(ctx.tree.types)[old(ctx.tree.store)[p].name := Some(p)])
  {
    ctx.tree.AddType(p);
  }

  /** The typedef at `p` once the type `ty` of its underlying type is known. */
  method ParseTypedefWith(ctx: ParserContext, p: nat, c: Cursor, ty: TypeInfo) returns (r: Result<()>)
    requires Ready(ctx) && p < |ctx.tree.store| && ctx.tree.store[p].body.TypedefBody?
    requires ctx.previous.Some? ==> ctx.previous.value != p
    modifies ctx, ctx.tree
    ensures Ready(ctx) && ctx.Place() == old(ctx.Place())
    ensures Backfill(old(ctx.tree.Snapshot()), old(ctx.previous), ty, c.typedefUnderlying.spelling).Err? ==> r.Err?
    ensures r.Ok? ==> TypedefParsed(old(ctx.tree.Snapshot()), ctx.tree.Snapshot(), p, old(ctx.previous), c, ty)
                      && Registered(ctx.GetFrameworkName(), ctx.tree.blocks, c)
  {
    var tree := ctx.tree;
    ghost var t0 := tree.Snapshot();
    var ty1 := BackfillPrevious(ctx, ty, c.typedefUnderlying.spelling);
    if ty1.Err? {
      return Err(ty1.error);
    }
    ghost var t1 := tree.Snapshot();
    var d := tree.store[p].(body := TypedefBody(Some(ty1.value)));
    if ctx.previous.Some? {
      BackfillOthersKept(t0, ctx.previous.value, ty, c.typedefUnderlying.spelling, p);
    }
    Rewrite(ctx, p, d);
    AddTypeAt(ctx, p);
    ghost var t2 := tree.Snapshot();
    var found := AddBlockIfFound(ctx, d.introducedIn, c);
    if found.Err? {
      return Err(found.error);
    }
    r := Ok(());
  }

  /**
   * `TypeDefinition::executeParse` on the typedef at `p`: the type of the
   * underlying type (which may throw), the backfill of an anonymous record
   * defined just before, the typedef registered under its name, and a
   * block found on it.
   */
  method ParseTypedef(ctx: ParserContext, p: nat, c: Cursor) returns (r: Result<TypeInfo>)
    requires Ready(ctx) && p < |ctx.tree.store| && ctx.tree.store[p].body.TypedefBody?
    requires ctx.previous.Some? ==> ctx.previous.value != p
    modifies ctx, ctx.tree
    ensures Ready(ctx) && ctx.Place() == old(ctx.Place())
    ensures TypeOfCXType(c.typedefUnderlying, old(ctx.tree.structs)).Err? ==> r.Err?
    ensures r.Ok? ==> Ok(r.value) == TypeOfCXType(c.typedefUnderlying, old(ctx.tree.structs))
                      && TypedefParsed(old(ctx.tree.Snapshot()), ctx.tree.Snapshot(), p, old(ctx.previous), c, r.value)
                      && Registered(ctx.GetFrameworkName(), ctx.tree.blocks, c)
  {
    var ty := TypeOfCXType(c.typedefUnderlying, ctx.tree.structs);
    if ty.Err? {
      return Err(ty.error);
    }
    var done := ParseTypedefWith(ctx, p, c, ty.value);
    if done.Err? {
      return Err(done.error);
    }
    r := ty;
  }

  // --------------------------------------------------------------- enum.cpp

  /** The values `parseEnum` sets over the children: each constant under its name, a later one replacing an earlier. */
  function EnumValues(cs: seq<Cursor>, values: map<string, int>): (r: map<string, int>)
    decreases |cs|
  {
    if cs == [] then values
    else
      var v := EnumValues(cs[..|cs| - 1], values);
      var c := cs[|cs| - 1];
      if c.kind == EnumConstantDecl then v[c.displayName := c.enumValue] else v
  }

  /** A name has a value exactly when it had one or some constant carries it. */
  lemma {:induction false} EnumValuesKeys(cs: seq<Cursor>, values: map<string, int>, k: string)
    decreases |cs|
    ensures k in EnumValues(cs, values) <==>
              k in values || exists i :: 0 <= i < |cs| && cs[i].kind == EnumConstantDecl && cs[i].displayName == k
  {
    if cs != [] {
      var init := cs[..|cs| - 1];
      EnumValuesKeys(init, values, k);
      if exists i :: 0 <= i < |init| && init[i].kind == EnumConstantDecl && init[i].displayName == k {
        var i :| 0 <= i < |init| && init[i].kind == EnumConstantDecl && init[i].displayName == k;
        assert cs[i] == init[i];
      }
      if exists i :: 0 <= i < |cs| && cs[i].kind == EnumConstantDecl && cs[i].displayName == k {
        var i :| 0 <= i < |cs| && cs[i].kind == EnumConstantDecl && cs[i].displayName == k;
        if i < |init| {
          assert init[i] == cs[i];
        }
      }
    }
  }

  /** The value of a constant is that of the last constant of its name. */
  lemma {:induction false} EnumValuesLastWins(cs: seq<Cursor>, values: map<string, int>, i: nat)
    requires i < |cs| && cs[i].kind == EnumConstantDecl
    requires forall j :: i < j < |cs| && cs[j].kind == EnumConstantDecl ==> cs[j].displayName != cs[i].displayName
    decreases |cs|
    ensures cs[i].displayName in EnumValues(cs, values) && EnumValues(cs, values)[cs[i].displayName] == cs[i].enumValue
  {
    if i < |cs| - 1 {
      var init := cs[..|cs| - 1];
      assert init[i] == cs[i];
      EnumValuesLastWins(init, values, i);
    }
  }

  /** Lines 14-29 of enum.cpp: the visit of the children. */
  method CollectEnumValues(cs: seq<Cursor>, values: map<string, int>) returns (r: map<string, int>)
    ensures r == EnumValues(cs, values)
  {
    r := values;
    var i := 0;
    while i < |cs|
      invariant 0 <= i <= |cs|
      invariant r == EnumValues(cs[..i], values)
    {
      assert cs[..i + 1][..i] == cs[..i];
      if cs[i].kind == EnumConstantDecl {
        r := r[cs[i].displayName := cs[i].enumValue];
      }
      i := i + 1;
    }
    assert cs[..i] == cs;
  }

  /** The tree once the enum at `p` is parsed: registered under its name, its values set. */
  ghost function EnumTree(t0: Tree, p: nat, c: Cursor): Tree
    requires p < |t0.store| && t0.store[p].body.EnumBody?
  {
    var d := t0.store[p];
    t0.(enums := t0.enums[d.name := Some(p)], store := t0.store[p := d.(body := EnumBody(EnumValues(c.children, d.body.values)))])
  }

  /**
   * `EnumDefinition::executeParse` on the enum at `p`: registered under
   * its name, then its values set from the constants among the children.
   */
  method ParseEnum(ctx: ParserContext, p: nat, c: Cursor)
    requires Ready(ctx) && p < |ctx.tree.store| && ctx.tree.store[p].body.EnumBody?
    modifies ctx.tree
    ensures Ready(ctx) && ctx.tree.Snapshot() == EnumTree(old(ctx.tree.Snapshot()), p, c)
  {
    var tree := ctx.tree;
    tree.AddEnum(p);
    var values := CollectEnumValues(c.children, tree.store[p].body.values);
    Rewrite(ctx, p, tree.store[p].(body := EnumBody(values)));
  }

  // ----------------------------------------------------------- function.cpp

  /**
   * The function once parsed, for its return type `ret`: registered
   * under its name, with one argument per parameter and the cursor's
   * variadic flag, and the tree grown by the blocks found.
   */
  ghost predicate FunctionParsed(t0: Tree, t: Tree, p: nat, c: Cursor, ret: TypeInfo)
  {
    p < |t0.store| && CursorArguments(c.children, ParmDecl, t0.structs).Ok?
    && var d := t0.store[p].(body := FunctionBody(Some(ret), CursorArguments(c.children, ParmDecl, t0.structs).value, c.variadic));
       p < |t.store| && t.store[p] == d
       && Grown(t0.(functions := t0.functions[d.name := Some(p)], store := t0.store[p := d]), t)
  }

  /** `addFunction` on the function at `p`, which keeps the walk's invariant. */
  method AddFunctionAt(ctx: ParserContext, p: nat)
    requires Ready(ctx) && p < |ctx.tree.store|
    modifies ctx.tree
    ensures Ready(ctx) && ctx.tree.Snapshot() == old(ctx.tree.Snapshot()).(functions := old(ctx.tree.functions)[old(ctx.tree.store)[p].name := Some(p)])
  {
    ctx.tree.AddFunction(p);
  }

  /**
   * Lines of `executeParse` before the children: a block found on the
   * function, then the function registered under its name.
   */
  method RegisterFunction(ctx: ParserContext, p: nat, c: Cursor) returns (r: Result<()>)
    requires Ready(ctx) && p < |ctx.tree.store|
    modifies ctx, ctx.tree
    ensures Ready(ctx) && ctx.Place() == old(ctx.Place())
    ensures r.Ok? ==> var t0 := old(ctx.tree.Snapshot());
                      Grown(t0.(functions := t0.functions[t0.store[p].name := Some(p)]), ctx.tree.Snapshot())
                      && Registered(ctx.GetFrameworkName(), ctx.tree.blocks, c)
  {
    var tree := ctx.tree;
    ghost var t0 := tree.Snapshot();
    var found := AddBlockIfFound(ctx, tree.store[p].introducedIn, c);
    if found.Err? {
      return Err(found.error);
    }
    ghost var t1 := tree.Snapshot();
    assert t1.store[p] == t0.store[p];
    AddFunctionAt(ctx, p);
    GrownFunctions(t0, t1, t0.functions[t0.store[p].name := Some(p)]);
    r := Ok(());
  }

  /** The function at `p` given its arguments and return type, over the tree `t0`. */
  ghost predicate ArgumentsParsed(t0: Tree, t: Tree, p: nat, c: Cursor, ret: TypeInfo)
  {
    p < |t0.store| && CursorArguments(c.children, ParmDecl, t0.structs).Ok?
    && var d := t0.store[p].(body := FunctionBody(Some(ret), CursorArguments(c.children, ParmDecl, t0.structs).value, c.variadic));
       p < |t.store| && t.store[p] == d && Grown(t0.(store := t0.store[p := d]), t)
  }

  /** Lines of `executeParse` from the children on: the arguments, then the body. */
  method ParseArguments(ctx: ParserContext, p: nat, c: Cursor, ret: TypeInfo) returns (r: Result<()>)
    requires Ready(ctx) && p < |ctx.tree.store| && ctx.tree.store[p].body.FunctionBody?
    modifies ctx, ctx.tree
    ensures Ready(ctx) && ctx.Place() == old(ctx.Place())
    ensures r.Ok? ==> ArgumentsParsed(old(ctx.tree.Snapshot()), ctx.tree.Snapshot(), p, c, ret)
                      && BlocksFound(ctx.GetFrameworkName(), ctx.tree.blocks, c.children, ParmDecl, |c.children|)
  {
    var tree := ctx.tree;
    ghost var t0 := tree.Snapshot();
    var args := ParseMembers(ctx, tree.store[p].introducedIn, c.children, ParmDecl);
    if args.Err? {
      return Err(args.error);
    }
    ghost var t1 := tree.Snapshot();
    assert t1.store[p] == t0.store[p];
    var d := tree.store[p].(body := FunctionBody(Some(ret), args.value, c.variadic));
    Rewrite(ctx, p, d);
    GrownPut(t0, t1, p, d);
    r := Ok(());
  }

  /** The function parsed, with the blocks found on it and on its parameters registered. */
  ghost predicate FunctionWithBlocks(name: string, t0: Tree, t: Tree, p: nat, c: Cursor, ret: TypeInfo)
  {
    FunctionParsed(t0, t, p, c, ret) && Registered(name, t.blocks, c)
    && BlocksFound(name, t.blocks, c.children, ParmDecl, |c.children|)
  }

  /** The function's registration and arguments complete it. */
  lemma FunctionDone(name: string, t0: Tree, t1: Tree, t2: Tree, p: nat, c: Cursor, ret: TypeInfo)
    requires p < |t0.store| && Grown(t0.(functions := t0.functions[t0.store[p].name := Some(p)]), t1)
    requires Registered(name, t1.blocks, c) && ArgumentsParsed(t1, t2, p, c, ret)
    requires BlocksFound(name, t2.blocks, c.children, ParmDecl, |c.children|)
    ensures FunctionWithBlocks(name, t0, t2, p, c, ret)
  {
    assert t1.store[p] == t0.store[p];
    var args := CursorArguments(c.children, ParmDecl, t0.structs).value;
    var d := t0.store[p].(body := FunctionBody(Some(ret), args, c.variadic));
    var m := t0.functions[d.name := Some(p)];
    GrownPut(t0.(functions := m), t1, p, d);
    GrownTransitive(t0.(functions := m, store := t0.store[p := d]), t1.(store := t1.store[p := d]), t2);
    RegisteredKept(name, t1.blocks, t2.blocks, c);
  }

  /** The function at `p` once its return type `ret` is known. */
  method ParseFunctionWith(ctx: ParserContext, p: nat, c: Cursor, ret: TypeInfo) returns (r: Result<()>)
    requires Ready(ctx) && p < |ctx.tree.store| && ctx.tree.store[p].body.FunctionBody?
    modifies ctx, ctx.tree
    ensures Ready(ctx) && ctx.Place() == old(ctx.Place())
    ensures r.Ok? ==> FunctionWithBlocks(ctx.GetFrameworkName(), old(ctx.tree.Snapshot()), ctx.tree.Snapshot(), p, c, ret)
  {
    var tree := ctx.tree;
    ghost var t0 := tree.Snapshot();
    var header := RegisterFunction(ctx, p, c);
    if header.Err? {
      return Err(header.error);
    }
    ghost var t1 := tree.Snapshot();
    assert t1.store[p] == t0.store[p];
    var args := ParseArguments(ctx, p, c, ret);
    if args.Err? {
      return Err(args.error);
    }
    FunctionDone(ctx.GetFrameworkName(), t0, t1, tree.Snapshot(), p, c, ret);
    r := Ok(());
  }

  /**
   * `FunctionDefinition::executeParse` on the function at `p`: the return
   * type (which may throw) and the variadic flag, a block found on the
   * function, its registration, then `parseFunctionMember` over the
   * children, a parameter adding an argument and registering a block
   * found on it.
   */
  method ParseFunction(ctx: ParserContext, p: nat, c: Cursor) returns (r: Result<TypeInfo>)
    requires Ready(ctx) && p < |ctx.tree.store| && ctx.tree.store[p].body.FunctionBody?
    modifies ctx, ctx.tree
    ensures Ready(ctx) && ctx.Place() == old(ctx.Place())
    ensures TypeOfCXType(c.resultType, old(ctx.tree.structs)).Err? ==> r.Err?
    ensures r.Ok? ==> Ok(r.value) == TypeOfCXType(c.resultType, old(ctx.tree.structs))
                      && FunctionWithBlocks(ctx.GetFrameworkName(), old(ctx.tree.Snapshot()), ctx.tree.Snapshot(), p, c, r.value)
  {
    var ret := TypeOfCXType(c.resultType, ctx.tree.structs);
    if ret.Err? {
      return Err(ret.error);
    }
    var done := ParseFunctionWith(ctx, p, c, ret.value);
    if done.Err? {
      return Err(done.error);
    }
    r := ret;
  }

  // ------------------------------------------------------------- method.cpp

  /**
   * `MethodDefinition::executeParse` once the return type `ret` is known:
   * a block found on the method, then `parseMethodMember` over the
   * children, a parameter adding an argument and registering a block
   * found on it.
   */
  method ParseMethodWith(ctx: ParserContext, introducedIn: string, c: Cursor, selector: string, instance: bool, optional: bool,
                         ret: TypeInfo) returns (r: Result<MethodDef>)
    requires Ready(ctx)
    modifies ctx, ctx.tree
    ensures Ready(ctx) && ctx.Place() == old(ctx.Place()) && Grown(old(ctx.tree.Snapshot()), ctx.tree.Snapshot())
    ensures r.Ok? ==> CursorArguments(c.children, ParmDecl, old(ctx.tree.structs)).Ok?
                      && r.value == MethodDef(selector, c.declEncoding, Some(ret), CursorArguments(c.children, ParmDecl, old(ctx.tree.structs)).value,
                                              instance, optional)
                      && Registered(ctx.GetFrameworkName(), ctx.tree.blocks, c)
                      && BlocksFound(ctx.GetFrameworkName(), ctx.tree.blocks, c.children, ParmDecl, |c.children|)
  {
    ghost var t0 := ctx.tree.Snapshot();
    var found := AddBlockIfFound(ctx, introducedIn, c);
    if found.Err? {
      return Err(found.error);
    }
    ghost var t1 := ctx.tree.Snapshot();
    var args := ParseMembers(ctx, introducedIn, c.children, ParmDecl);
    if args.Err? {
      GrownTransitive(t0, t1, ctx.tree.Snapshot());
      return Err(args.error);
    }
    GrownTransitive(t0, t1, ctx.tree.Snapshot());
    RegisteredKept(ctx.GetFrameworkName(), t1.blocks, ctx.tree.blocks, c);
    r := Ok(MethodDef(selector, c.declEncoding, Some(ret), args.value, instance, optional));
  }

  /**
   * A `MethodDefinition` created for the selector with the instance and
   * optional flags, and its `executeParse`: the encoding the front end
   * declares, the return type (which may throw), and the arguments; the
   * blocks found on the method and on its parameters are registered in the
   * tree. The method itself belongs to its class, not to the tree.
   */
  method ParseMethod(ctx: ParserContext, introducedIn: string, c: Cursor, selector: string, instance: bool, optional: bool)
    returns (r: Result<MethodDef>)
    requires Ready(ctx)
    modifies ctx, ctx.tree
    ensures Ready(ctx) && ctx.Place() == old(ctx.Place()) && Grown(old(ctx.tree.Snapshot()), ctx.tree.Snapshot())
    ensures TypeOfCXType(c.resultType, old(ctx.tree.structs)).Err? ==> r.Err?
    ensures r.Ok? ==> TypeOfCXType(c.resultType, old(ctx.tree.structs)).Ok?
                      && CursorArguments(c.children, ParmDecl, old(ctx.tree.structs)).Ok?
                      && r.value == MethodDef(selector, c.declEncoding, Some(TypeOfCXType(c.resultType, old(ctx.tree.structs)).value),
                                              CursorArguments(c.children, ParmDecl, old(ctx.tree.structs)).value, instance, optional)
                      && Registered(ctx.GetFrameworkName(), ctx.tree.blocks, c)
                      && BlocksFound(ctx.GetFrameworkName(), ctx.tree.blocks, c.children, ParmDecl, |c.children|)
  {
    var ret := TypeOfCXType(c.resultType, ctx.tree.structs);
    if ret.Err? {
      GrownSame(ctx.tree.Snapshot());
      return Err(ret.error);
    }
    r := ParseMethodWith(ctx, introducedIn, c, selector, instance, optional, ret.value);
  }

  // ----------------------------------------------------------- property.cpp

  /**
   * The `Property` constructor: the property's type from its cursor (which
   * may throw), the attribute list from the attribute bits, and whether
   * the property is optional in its protocol. Its `executeParse` does
   * nothing.
   */
  function PropertyOf(c: Cursor, name: string, structs: Registry): (r: Result<PropertyDef>)
    ensures r.Ok? <==> TypeOfCursor(c, structs).Ok?
    ensures r.Ok? ==> r.value.name == name && Ok(r.value.ty) == TypeOfCursor(c, structs) && r.value.optional == c.isOptional
    ensures r.Ok? ==> ("readonly" in r.value.attributes <==> HasBit(c.propertyAttributes, ReadonlyBit))
                      && ("readwrite" in r.value.attributes <==> HasBit(c.propertyAttributes, ReadwriteBit))
                      && ("class" in r.value.attributes <==> HasBit(c.propertyAttributes, ClassBit))
  {
    match TypeOfCursor(c, structs)
    case Err(e) => Err(e)
    case Ok(ty) => Ok(PropertyDef(name, ty, PropertyAttributes(c.propertyAttributes), c.isOptional))
  }

  // -------------------------------------------------------------- block.cpp

  /** The type whose spelling gives block.cpp's signature: the cursor's, canonical when it is a typedef. */
  function TypedefBlockType(c: Cursor): (t: CXType)
    ensures c.cursorType.kind != Typedef ==> t == c.cursorType
  {
    if c.cursorType.kind == Typedef then Target(c.cursorType) else c.cursorType
  }

  /** The signature block.cpp records: the cleaned spelling of that type. */
  function TypedefBlockSignature(c: Cursor): (r: string)
    ensures IsTrimmed(r)
  {
    CleanString(TypedefBlockType(c).spelling)
  }

  /** The block definition of block.cpp: always named "block", with no return type. */
  function TypedefBlock(filename: string, line: string, introducedIn: string, c: Cursor, args: seq<Argument>): (d: Def)
    ensures d.name == "block" && d.body.BlockBody? && d.body.ret.None?
  {
    Def("block", filename, line, introducedIn, c.declEncoding, BlockBody(TypedefBlockSignature(c), None, args))
  }

  /** The definition block.cpp registers under "block" and its signature, stored at `p`. */
  method RegisterTypedefBlock(ctx: ParserContext, introducedIn: string, c: Cursor) returns (p: nat)
    requires Ready(ctx)
    modifies ctx.tree
    ensures Ready(ctx) && p == |old(ctx.tree.store)| && Grown(old(ctx.tree.Snapshot()), ctx.tree.Snapshot())
    ensures p < |ctx.tree.store| && ctx.tree.store[p] == TypedefBlock(ctx.filename, ctx.line, introducedIn, c, [])
    ensures TypedefBlockSignature(c) != [] ==> "block" in ctx.tree.blocks && TypedefBlockSignature(c) in ctx.tree.blocks["block"]
  {
    var tree := ctx.tree;
    ghost var t0 := tree.Snapshot();
    var d := TypedefBlock(ctx.filename, ctx.line, introducedIn, c, []);
    p := tree.NewDefinition(d);
    BlocksNamedAppend(t0, d);
    ghost var t1 := tree.Snapshot();
    RegisterBlock(ctx, p);
    KeysKeptTransitive(t0.blocks, t1.blocks, tree.blocks);
    assert tree.store[..|t0.store|] == t0.store;
  }

  /**
   * block.cpp's `BlockDefinition::executeParse` on a new block definition:
   * the signature, the block registered, then `parseBlockMember` over the
   * children, a parameter adding an argument typed by `Type(CXCursor)` and
   * registering a block found on it. The definition is stored but does
   * not become the context's current one.
   */
  method ParseTypedefBlock(ctx: ParserContext, introducedIn: string, c: Cursor) returns (r: Result<nat>)
    requires Ready(ctx)
    modifies ctx, ctx.tree
    ensures Ready(ctx) && ctx.Place() == old(ctx.Place()) && Grown(old(ctx.tree.Snapshot()), ctx.tree.Snapshot())
    ensures r.Ok? ==> CursorArguments(c.children, ParmDecl, old(ctx.tree.structs)).Ok?
                      && r.value == |old(ctx.tree.store)| && r.value < |ctx.tree.store|
                      && ctx.tree.store[r.value]
                         == TypedefBlock(ctx.filename, ctx.line, introducedIn, c, CursorArguments(c.children, ParmDecl, old(ctx.tree.structs)).value)
                      && (TypedefBlockSignature(c) != [] ==> "block" in ctx.tree.blocks && TypedefBlockSignature(c) in ctx.tree.blocks["block"])
                      && BlocksFound(ctx.GetFrameworkName(), ctx.tree.blocks, c.children, ParmDecl, |c.children|)
  {
    var tree := ctx.tree;
    ghost var t0 := tree.Snapshot();
    var p := RegisterTypedefBlock(ctx, introducedIn, c);
    ghost var t1 := tree.Snapshot();
    var args := ParseMembers(ctx, introducedIn, c.children, ParmDecl);
    if args.Err? {
      GrownTransitive(t0, t1, tree.Snapshot());
      return Err(args.error);
    }
    ghost var t2 := tree.Snapshot();
    assert t2.store[p] == t1.store[p];
    var d := TypedefBlock(ctx.filename, ctx.line, introducedIn, c, args.value);
    tree.Put(p, d);
    BlocksNamedPut(t2, p, d);
    GrownPut(t1, t2, p, d);
    GrownTransitive(t0, t1.(store := t1.store[p := d]), tree.Snapshot());
    r := Ok(p);
  }

  // ------------------------------------------------------------ parser.cpp

  /**
   * What `begin` decides before creating a definition: nothing for a
   * cursor that is not available or not its own definition, nothing when
   * the availability records (if any) say unavailable for ios or always
   * deprecated or unavailable, and otherwise the version it is introduced
   * in.
   */
  function Admission(c: Cursor): (r: Option<Version>)
  {
    if !c.available || !c.isOwnDefinition then None
    else if c.platforms == [] then Some(Version(0, 0, 0))
    else
      var a := IosAvailability(c.platforms);
      if a.unavailable || c.alwaysDeprecated || c.alwaysUnavailable then None else Some(a.introduced)
  }

  /**
   * A cursor is admitted exactly when it is available, its own definition
   * and, when it carries records, neither always deprecated nor always
   * unavailable nor unavailable on any ios record; its version is that of
   * the last ios record, clamped, or 0.0.0.
   */
  lemma AdmissionCases(c: Cursor)
    ensures Admission(c).Some? <==>
              c.available && c.isOwnDefinition
              && (c.platforms != [] ==>
                    !c.alwaysDeprecated && !c.alwaysUnavailable
                    && forall i :: 0 <= i < |c.platforms| && IsIos(c.platforms[i]) ==> !c.platforms[i].unavailable)
    ensures Admission(c).Some? ==>
              Admission(c).value == (if LastIos(c.platforms).None? then Version(0, 0, 0)
                                     else Clamp(c.platforms[LastIos(c.platforms).value].introduced))
  {
    IosUnavailable(c.platforms);
    IosIntroduced(c.platforms);
  }

  /** A deprecation with no availability record does not keep a declaration out. */
  lemma DeprecatedWithoutRecordsAdmitted(c: Cursor)
    requires c.available && c.isOwnDefinition && c.platforms == []
    ensures Admission(c) == Some(Version(0, 0, 0))
  {
  }

  /** The kinds `begin` creates a definition for. */
  predicate Handled(k: CursorKind)
  {
    k.ObjCInterfaceDecl? || k.ObjCCategoryDecl? || k.ObjCProtocolDecl? || k.TypedefDecl? || k.EnumDecl?
    || k.VarDecl? || k.FunctionDecl? || k.StructDecl? || k.UnionDecl?
  }

  /** An enum whose cursor has no name, which takes the next anonymous name. */
  predicate IsAnonymousEnum(c: Cursor)
  {
    c.kind.EnumDecl? && c.displayName == []
  }

  /**
   * The name a new definition gets: the spelling for a function, "enum_N"
   * for an anonymous enum (N the count of anonymous enums before it), the
   * display name otherwise.
   */
  function DefinitionName(c: Cursor, anonEnumCount: nat): (r: string)
    ensures IsAnonymousEnum(c) ==> r == AnonEnumName(anonEnumCount) && r != []
    ensures !IsAnonymousEnum(c) && !c.kind.FunctionDecl? ==> r == c.displayName
  {
    if c.kind.FunctionDecl? then c.spelling
    else if IsAnonymousEnum(c) then AnonEnumName(anonEnumCount)
    else c.displayName
  }

  /** The per-kind part of a definition before its `executeParse`. */
  function EmptyBody(k: CursorKind): (b: Body)
    requires Handled(k)
  {
    match k
    case TypedefDecl => TypedefBody(None)
    case EnumDecl => EnumBody(map[])
    case VarDecl => VarBody(map[])
    case FunctionDecl => FunctionBody(None, [], false)
    case StructDecl => StructBody(None, [])
    case UnionDecl => UnionBody(map[])
    case _ => ClassBody(map[])
  }

  /** The definition `begin` creates for an admitted cursor of a handled kind, at the cursor's location. */
  function NewDef(c: Cursor, anonEnumCount: nat, v: Version): (d: Def)
    requires Handled(c.kind)
    ensures d.name == DefinitionName(c, anonEnumCount) && d.filename == c.filename && d.line == c.line
    ensures d.introducedIn == IntroducedIn(v)
  {
    Def(DefinitionName(c, anonEnumCount), c.filename, c.line, IntroducedIn(v), c.declEncoding, EmptyBody(c.kind))
  }

  /**
   * The tree once the definition at `p`, created for `c` on `t0`, has run
   * its `executeParse`, `prev` being the definition current before it.
   * The executeParse of classes, categories, protocols, variables and
   * unions leaves the tree as it is here.
   */
  ghost predicate Parsed(name: string, t0: Tree, t: Tree, prev: Option<nat>, p: nat, c: Cursor)
  {
    match c.kind
    case TypedefDecl =>
      TypeOfCXType(c.typedefUnderlying, t0.structs).Ok?
      && TypedefParsed(t0, t, p, prev, c, TypeOfCXType(c.typedefUnderlying, t0.structs).value)
      && Registered(name, t.blocks, c)
    case EnumDecl => p < |t0.store| && t0.store[p].body.EnumBody? && t == EnumTree(t0, p, c)
    case FunctionDecl =>
      TypeOfCXType(c.resultType, t0.structs).Ok?
      && FunctionWithBlocks(name, t0, t, p, c, TypeOfCXType(c.resultType, t0.structs).value)
    case StructDecl =>
      TypeOfCursor(c, t0.structs).Ok?
      && StructParsed(t0, t, p, c, TypeOfCursor(c, t0.structs).value)
      && BlocksFound(name, t.blocks, c.children, FieldDecl, |c.children|)
    case _ => t == t0
  }

  /** The `executeParse` `begin` runs through `parse` on the definition at `p`, by kind. */
  method ParseDefinition(ctx: ParserContext, p: nat, c: Cursor) returns (r: Result<()>)
    requires Ready(ctx) && Handled(c.kind) && p < |ctx.tree.store| && ctx.tree.store[p].body == EmptyBody(c.kind)
    requires ctx.previous.Some? ==> ctx.previous.value != p
    modifies ctx, ctx.tree
    ensures Ready(ctx) && ctx.Place() == old(ctx.Place())
    ensures r.Ok? ==> Parsed(ctx.GetFrameworkName(), old(ctx.tree.Snapshot()), ctx.tree.Snapshot(), old(ctx.previous), p, c)
    ensures r.Err? ==> c.kind.TypedefDecl? || c.kind.FunctionDecl? || c.kind.StructDecl?
  {
    match c.kind {
      case TypedefDecl =>
        var ty := ParseTypedef(ctx, p, c);
        if ty.Err? {
          return Err(ty.error);
        }
      case EnumDecl =>
        ParseEnum(ctx, p, c);
      case FunctionDecl =>
        var ret := ParseFunction(ctx, p, c);
        if ret.Err? {
          return Err(ret.error);
        }
      case StructDecl =>
        var ty := ParseStruct(ctx, p, c);
        if ty.Err? {
          return Err(ty.error);
        }
      case _ =>
    }
    r := Ok(());
  }

  /**
   * The checks at the head of `begin`: a cursor not available or not its
   * own definition is skipped before anything changes; otherwise the
   * location becomes the cursor's, and then the availability records are
   * read.
   */
  method Admit(ctx: ParserContext, c: Cursor) returns (v: Option<Version>)
    modifies ctx`filename, ctx`line
    ensures v == Admission(c)
    ensures !c.available || !c.isOwnDefinition ==> ctx.filename == old(ctx.filename) && ctx.line == old(ctx.line)
    ensures c.available && c.isOwnDefinition ==> ctx.filename == c.filename && ctx.line == c.line
  {
    if !c.available || !c.isOwnDefinition {
      return None;
    }
    ctx.UpdateLocation(map["filename" := c.filename, "line" := c.line]);
    if c.platforms == [] {
      return Some(Version(0, 0, 0));
    }
    var unavailable, introduced := ScanAvailability(c.platforms);
    if unavailable || c.alwaysDeprecated || c.alwaysUnavailable {
      return None;
    }
    v := Some(introduced);
  }

  /** The definition for an admitted cursor of a handled kind, created and made current. */
  method CreateDefinition(ctx: ParserContext, c: Cursor, v: Version) returns (p: nat)
    requires Ready(ctx) && Handled(c.kind)
    modifies ctx`previous, ctx`current, ctx`anonEnumCount, ctx.tree
    ensures Ready(ctx) && p == |old(ctx.tree.store)|
    ensures ctx.anonEnumCount == old(ctx.anonEnumCount) + (if IsAnonymousEnum(c) then 1 else 0)
    ensures ctx.tree.Snapshot() == old(ctx.tree.Snapshot()).(store := old(ctx.tree.store) + [NewDef(c, old(ctx.anonEnumCount), v)])
    ensures ctx.previous == old(ctx.current) && ctx.current == Some(p)
  {
    var n := ctx.anonEnumCount;
    if IsAnonymousEnum(c) {
      n := ctx.NextAnonEnum();
    }
    p := CreateCurrent(ctx, NewDef(c, n, v));
  }

  /** The definition for an admitted cursor of a handled kind, created and parsed. */
  method Create(ctx: ParserContext, c: Cursor, v: Version) returns (r: Result<Option<nat>>)
    requires Ready(ctx) && Handled(c.kind)
    modifies ctx, ctx.tree
    ensures Ready(ctx) && ctx.filename == old(ctx.filename) && ctx.line == old(ctx.line) && ctx.dependencies == old(ctx.dependencies)
    ensures ctx.anonEnumCount == old(ctx.anonEnumCount) + (if IsAnonymousEnum(c) then 1 else 0)
    ensures r.Ok? ==> r == Ok(Some(|old(ctx.tree.store)|))
                      && Parsed(ctx.GetFrameworkName(),
                                old(ctx.tree.Snapshot()).(store := old(ctx.tree.store) + [NewDef(c, old(ctx.anonEnumCount), v)]),
                                ctx.tree.Snapshot(), old(ctx.current), |old(ctx.tree.store)|, c)
    ensures r.Err? ==> c.kind.TypedefDecl? || c.kind.FunctionDecl? || c.kind.StructDecl?
  {
    var p := CreateDefinition(ctx, c, v);
    var done := ParseDefinition(ctx, p, c);
    if done.Err? {
      return Err(done.error);
    }
    r := Ok(Some(p));
  }

  /**
   * `begin` on one top-level cursor: the checks above, then for a handled
   * kind a new definition named after the cursor (an anonymous enum taking
   * the next "enum_N"), introduced in the version found, made the current
   * definition and parsed by its kind. The result is the new definition's
   * place in the tree, or nothing when the cursor was skipped; the
   * exception an `executeParse` throws is the error.
   */
  method Begin(ctx: ParserContext, c: Cursor) returns (r: Result<Option<nat>>)
    requires Ready(ctx)
    modifies ctx, ctx.tree
    ensures Ready(ctx) && ctx.dependencies == old(ctx.dependencies)
    ensures !c.available || !c.isOwnDefinition ==> ctx.filename == old(ctx.filename) && ctx.line == old(ctx.line)
    ensures c.available && c.isOwnDefinition ==> ctx.filename == c.filename && ctx.line == c.line
    ensures Admission(c).None? || !Handled(c.kind) ==>
              r == Ok(None) && ctx.tree.Snapshot() == old(ctx.tree.Snapshot()) && ctx.anonEnumCount == old(ctx.anonEnumCount)
              && ctx.current == old(ctx.current) && ctx.previous == old(ctx.previous)
    ensures Admission(c).Some? && Handled(c.kind) ==>
              ctx.anonEnumCount == old(ctx.anonEnumCount) + (if IsAnonymousEnum(c) then 1 else 0)
              && (r.Ok? ==> r == Ok(Some(|old(ctx.tree.store)|))
                            && Parsed(ctx.GetFrameworkName(),
                                      old(ctx.tree.Snapshot()).(store := old(ctx.tree.store) + [NewDef(c, old(ctx.anonEnumCount), Admission(c).value)]),
                                      ctx.tree.Snapshot(), old(ctx.current), |old(ctx.tree.store)|, c))
    ensures r.Err? ==> Admission(c).Some? && (c.kind.TypedefDecl? || c.kind.FunctionDecl? || c.kind.StructDecl?)
  {
    var v := Admit(ctx, c);
    if v.None? || !Handled(c.kind) {
      return Ok(None);
    }
    r := Create(ctx, c, v.value);
  }
}
