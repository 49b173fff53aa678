/**
 * The walk over the translation unit (`begin` in parser.cpp) and the
 * per-kind `executeParse` of the definitions it creates (typedef.cpp,
 * struct.cpp, enum.cpp, function.cpp, method.cpp, BlockParser.cpp,
 * block.cpp), on the tree and context of parser.dfy. libclang's visits
 * of a cursor's children become loops over `Cursor.children`.
 */
module Walk {
  import opened Wrappers
  import opened Encoding
  import opened Clang
  import opened Defs
  import opened Kinds
  import opened Blocks
  import opened Locations
  import opened Emit
  import opened Parser

  // ---------------------------------------------------------- availability

  /** A version component libclang reports as -1 (not given) reads as 0. */
  function Clamp(v: Version): Version
  {
    Version(if v.major == -1 then 0 else v.major,
            if v.minor == -1 then 0 else v.minor,
            if v.subminor == -1 then 0 else v.subminor)
  }

  /** The outcome of `begin`'s loop over the availability records. */
  datatype Availability = Availability(unavailable: bool, introduced: Version)

  /** The records about ios, the only platform the generator reads. */
  predicate IsIos(p: PlatformAvailability)
  {
    p.platform == "ios"
  }

  /**
   * The loop of `begin` over the records, as a fold: a record about
   * another platform changes nothing, an ios record can mark the
   * declaration unavailable and replaces the version.
   */
  function IosAvailability(ps: seq<PlatformAvailability>): (r: Availability)
    decreases |ps|
  {
    if ps == [] then Availability(false, Version(0, 0, 0))
    else
      var a := IosAvailability(ps[..|ps| - 1]);
      var p := ps[|ps| - 1];
      if !IsIos(p) then a else Availability(a.unavailable || p.unavailable, Clamp(p.introduced))
  }

  /** The position of the last ios record. */
  function LastIos(ps: seq<PlatformAvailability>): (r: Option<nat>)
    decreases |ps|
    ensures r.Some? ==> r.value < |ps| && IsIos(ps[r.value]) && forall j :: r.value < j < |ps| ==> !IsIos(ps[j])
    ensures r.None? ==> forall j :: 0 <= j < |ps| ==> !IsIos(ps[j])
  {
    if ps == [] then None
    else if IsIos(ps[|ps| - 1]) then Some(|ps| - 1)
    else LastIos(ps[..|ps| - 1])
  }

  /** A declaration is unavailable exactly when some ios record says so. */
  lemma {:induction false} IosUnavailable(ps: seq<PlatformAvailability>)
    decreases |ps|
    ensures IosAvailability(ps).unavailable <==> exists i :: 0 <= i < |ps| && IsIos(ps[i]) && ps[i].unavailable
  {
    if ps != [] {
      var init := ps[..|ps| - 1];
      IosUnavailable(init);
      if IosAvailability(ps).unavailable {
        if IosAvailability(init).unavailable {
          var i :| 0 <= i < |init| && IsIos(init[i]) && init[i].unavailable;
          assert ps[i] == init[i];
        } else {
          assert IsIos(ps[|ps| - 1]) && ps[|ps| - 1].unavailable;
        }
      } else {
        forall i | 0 <= i < |ps| && IsIos(ps[i])
          ensures !ps[i].unavailable
        {
          if i < |init| {
            assert ps[i] == init[i];
          }
        }
      }
    }
  }

  /** The version is the clamped one of the last ios record, 0.0.0 when there is none. */
  lemma {:induction false} IosIntroduced(ps: seq<PlatformAvailability>)
    decreases |ps|
    ensures LastIos(ps).None? ==> IosAvailability(ps).introduced == Version(0, 0, 0)
    ensures LastIos(ps).Some? ==> IosAvailability(ps).introduced == Clamp(ps[LastIos(ps).value].introduced)
  {
    if ps != [] && !IsIos(ps[|ps| - 1]) {
      var init := ps[..|ps| - 1];
      IosIntroduced(init);
      if LastIos(init).Some? {
        assert ps[LastIos(init).value] == init[LastIos(init).value];
      }
    }
  }

  /** A clamped version has no component left at -1. */
  lemma ClampedHasNoMissing(v: Version)
    requires v.major >= -1 && v.minor >= -1 && v.subminor >= -1
    ensures var c := Clamp(v); c.major >= 0 && c.minor >= 0 && c.subminor >= 0
    ensures v.major >= 0 && v.minor >= 0 && v.subminor >= 0 ==> Clamp(v) == v
  {
  }

  /** Lines 459-485 of parser.cpp: the loop over the records. */
  method ScanAvailability(ps: seq<PlatformAvailability>) returns (unavailable: bool, introduced: Version)
    ensures Availability(unavailable, introduced) == IosAvailability(ps)
  {
    unavailable := false;
    introduced := Version(0, 0, 0);
    var c := 0;
    while c < |ps|
      invariant 0 <= c <= |ps|
      invariant Availability(unavailable, introduced) == IosAvailability(ps[..c])
    {
      assert ps[..c + 1][..c] == ps[..c];
      var p := ps[c];
      if p.platform == "ios" {
        if p.unavailable {
          unavailable := true;
        }
        introduced := p.introduced;
        if introduced.major == -1 {
          introduced := introduced.(major := 0);
        }
        if introduced.minor == -1 {
          introduced := introduced.(minor := 0);
        }
        if introduced.subminor == -1 {
          introduced := introduced.(subminor := 0);
        }
      }
      c := c + 1;
    }
    assert ps[..c] == ps;
  }

  // ----------------------------------------------------- tree invariants

  /** Every block entry designates a block definition of that name and signature. */
  ghost predicate BlocksNamed(t: Tree)
  {
    forall name, sig :: name in t.blocks && sig in t.blocks[name] && t.blocks[name][sig].Some? ==>
      name != [] && t.blocks[name][sig].value < |t.store|
      && t.store[t.blocks[name][sig].value].name == name
      && t.store[t.blocks[name][sig].value].body.BlockBody?
      && t.store[t.blocks[name][sig].value].body.signature == sig
  }

  /** What the walk keeps true of the context: a valid tree, named blocks, and current and previous designating definitions. */
  ghost predicate Ready(ctx: ParserContext)
    reads ctx, ctx.tree
  {
    ctx.tree.Valid() && BlocksNamed(ctx.tree.Snapshot())
    && (ctx.current.Some? ==> ctx.current.value < |ctx.tree.store|)
    && (ctx.previous.Some? ==> ctx.previous.value < |ctx.tree.store|)
  }

  /** `b` only adds definitions after those of `a`. */
  predicate Extends(a: seq<Def>, b: seq<Def>)
  {
    |a| <= |b| && b[..|a|] == a
  }

  /** No block name and no signature under it is ever removed. */
  predicate KeysKept(a: map<string, Registry>, b: map<string, Registry>)
  {
    forall n :: n in a ==> n in b && a[n].Keys <= b[n].Keys
  }

  lemma ExtendsTransitive(a: seq<Def>, b: seq<Def>, c: seq<Def>)
    requires Extends(a, b) && Extends(b, c)
    ensures Extends(a, c)
  {
    assert c[..|a|] == c[..|b|][..|a|];
  }

  lemma BlocksNamedAppend(t: Tree, d: Def)
    requires BlocksNamed(t)
    ensures BlocksNamed(t.(store := t.store + [d]))
  {
    var u := t.(store := t.store + [d]);
    forall name, sig | name in u.blocks && sig in u.blocks[name] && u.blocks[name][sig].Some?
      ensures u.store[u.blocks[name][sig].value] == t.store[t.blocks[name][sig].value]
    {
    }
  }

  /** Rewriting a definition keeps the invariant unless it changes a registered block's name or signature. */
  lemma BlocksNamedPut(t: Tree, p: nat, d: Def)
    requires BlocksNamed(t) && p < |t.store|
    requires t.store[p].body.BlockBody? && t.store[p].name != [] ==>
               d.name == t.store[p].name && d.body.BlockBody? && d.body.signature == t.store[p].body.signature
    ensures BlocksNamed(t.(store := t.store[p := d]))
  {
  }

  // ----------------------------------------------------------- the types

  /**
   * `Type(context, type, spelling)`, declared outside the modelled files:
   * the tag `CXTypeToType` gives the kind, the spelling as value, and the
   * front end's encoding.
   */
  function TypeOfSpelling(t: CXType, spelling: string): (r: TypeInfo)
    ensures r.encoding == t.objcEncoding
  {
    MakeType(CXTypeToType(t.kind), spelling, t.objcEncoding)
  }

  /** The type `addBlockIfFound` inspects: the cursor's, or for a typedef its canonical underlying type. */
  function BlockCandidate(c: Cursor): (t: CXType)
    ensures c.cursorType.kind != Typedef ==> t == c.cursorType
  {
    if c.cursorType.kind == Typedef then Defs.Resolve(c.typedefUnderlying) else c.cursorType
  }

  /** The children of the kind a visitor turns into arguments or fields, in visiting order. */
  function OfKind(cs: seq<Cursor>, kind: CursorKind): (r: seq<Cursor>)
    decreases |cs|
    ensures forall x :: x in r ==> x in cs && x.kind == kind
    ensures forall x :: x in cs && x.kind == kind ==> x in r
  {
    if cs == [] then []
    else OfKind(cs[..|cs| - 1], kind) + (if cs[|cs| - 1].kind == kind then [cs[|cs| - 1]] else [])
  }

  /**
   * The arguments a visitor collects from the children of `kind`: each
   * named by its cursor and typed by `Type(CXCursor)` against the struct
   * registry, in visiting order; an argument whose type throws, throws.
   */
  function CursorArguments(cs: seq<Cursor>, kind: CursorKind, structs: Registry): (r: Result<seq<Argument>>)
    decreases |cs|
  {
    if cs == [] then Ok([])
    else
      match CursorArguments(cs[..|cs| - 1], kind, structs)
      case Err(e) => Err(e)
      case Ok(args) =>
        var c := cs[|cs| - 1];
        if c.kind != kind then Ok(args)
        else
          match CursorArgument(c, structs)
          case Err(e) => Err(e)
          case Ok(a) => Ok(args + [a])
  }

  /** `addArgument(displayName, cursor)` / `addField`: the child's name and `Type(CXCursor)`. */
  function CursorArgument(c: Cursor, structs: Registry): (r: Result<Argument>)
    ensures r.Ok? ==> r.value.name == c.displayName
    ensures r.Err? <==> TypeOfCursor(c, structs).Err?
  {
    match TypeOfCursor(c, structs)
    case Err(e) => Err(e)
    case Ok(ty) => Ok(Argument(c.displayName, ty))
  }

  /** One argument per child of the kind, named after it, in order. */
  lemma {:induction false} CursorArgumentsNamed(cs: seq<Cursor>, kind: CursorKind, structs: Registry)
    requires CursorArguments(cs, kind, structs).Ok?
    decreases |cs|
    ensures var args := CursorArguments(cs, kind, structs).value;
            |args| == |OfKind(cs, kind)| && forall i :: 0 <= i < |args| ==> args[i].name == OfKind(cs, kind)[i].displayName
  {
    if cs != [] {
      CursorArgumentsNamed(cs[..|cs| - 1], kind, structs);
    }
  }

  /**
   * `BlockDefinition::addArgument` of BlockParser.cpp: the parameter's type
   * from its spelling, an "unexposed" tag re-derived from the declared
   * encoding (which throws for "r").
   */
  function BlockArgument(a: Cursor): (r: Result<Argument>)
    ensures r.Ok? ==> r.value.name == a.displayName
    ensures r.Err? ==> a.declEncoding == "r"
  {
    var ty := TypeOfSpelling(a.cursorType, a.cursorType.spelling);
    if ty.tag == "unexposed" then
      match EncodingToType(a.declEncoding)
      case Err(e) => Err(e)
      case Ok(tag) => Ok(Argument(a.displayName, SetTag(ty, tag)))
    else Ok(Argument(a.displayName, ty))
  }

  /** The arguments of a parsed block: one per parameter, in order. */
  function BlockArguments(cs: seq<Cursor>): (r: Result<seq<Argument>>)
    decreases |cs|
  {
    if cs == [] then Ok([])
    else
      match BlockArguments(cs[..|cs| - 1])
      case Err(e) => Err(e)
      case Ok(args) =>
        var c := cs[|cs| - 1];
        if c.kind != ParmDecl then Ok(args)
        else
          match BlockArgument(c)
          case Err(e) => Err(e)
          case Ok(a) => Ok(args + [a])
  }

  /** A block has one argument per parameter, named after it, in order. */
  lemma {:induction false} BlockArgumentsNamed(cs: seq<Cursor>)
    requires BlockArguments(cs).Ok?
    decreases |cs|
    ensures var args := BlockArguments(cs).value;
            |args| == |OfKind(cs, ParmDecl)| && forall i :: 0 <= i < |args| ==> args[i].name == OfKind(cs, ParmDecl)[i].displayName
  {
    if cs != [] {
      BlockArgumentsNamed(cs[..|cs| - 1]);
    }
  }

  /** A block definition with the encoding "@?". */
  function BlockDef(name: string, filename: string, line: string, introducedIn: string, signature: string,
                    ret: TypeInfo, args: seq<Argument>): Def
  {
    Def(name, filename, line, introducedIn, "@?", BlockBody(signature, Some(ret), args))
  }

  /** The block definition `BlockParser::parseBlock` registers once its parameters are visited. */
  function ParsedBlock(cfg: Config, filename: string, line: string, introducedIn: string, ty: TypeInfo,
                       args: seq<Argument>): Def
  {
    BlockDef(FrameworkName(cfg, filename), filename, line, introducedIn, ty.value, ParsedBlockReturnType(ty.value), args)
  }

  /** The block type `addBlockIfFound` finds on a cursor, if any. */
  function FoundBlock(c: Cursor): (r: Option<TypeInfo>)
    ensures r.Some? ==> r.value.tag == "block"
  {
    var t := BlockCandidate(c);
    var ty := TypeOfSpelling(t, t.spelling);
    if ty.tag == "block" then Some(ty) else None
  }

  lemma KeysKeptTransitive(a: map<string, Registry>, b: map<string, Registry>, c: map<string, Registry>)
    requires KeysKept(a, b) && KeysKept(b, c)
    ensures KeysKept(a, c)
  {
  }

  /** `addBlock` only adds a name or a signature. */
  lemma KeysKeptAdd(blocks: map<string, Registry>, name: string, sig: string, p: nat)
    ensures KeysKept(blocks, blocks[name := BlockSet(blocks, name)[sig := Some(p)]])
  {
    var b := blocks[name := BlockSet(blocks, name)[sig := Some(p)]];
    forall n | n in blocks ensures n in b && blocks[n].Keys <= b[n].Keys {
      if n == name {
        assert b[n] == blocks[n][sig := Some(p)];
      }
    }
  }

  lemma KeysKeptSame(blocks: map<string, Registry>)
    ensures KeysKept(blocks, blocks)
  {
  }

  /** `addBlock` keeps the invariant: the new entry designates the block just registered. */
  lemma BlocksNamedAdd(t: Tree, p: nat)
    requires BlocksNamed(t) && p < |t.store| && t.store[p].body.BlockBody?
    ensures var name := t.store[p].name;
            var sig := t.store[p].body.signature;
            BlocksNamed(t.(blocks := if name == [] || sig == [] then t.blocks else t.blocks[name := BlockSet(t.blocks, name)[sig := Some(p)]]))
  {
  }

  // -------------------------------------------------------------- blocks

  /** The arguments a parameter adds to a block's: none unless it is a parameter declaration. */
  function WithParameter(args: seq<Argument>, a: Cursor): (r: Result<seq<Argument>>)
    ensures a.kind != ParmDecl ==> r == Ok(args)
    ensures a.kind == ParmDecl ==> (r.Ok? <==> BlockArgument(a).Ok?)
    ensures r.Ok? && a.kind == ParmDecl ==> r.value == args + [BlockArgument(a).value]
  {
    if a.kind != ParmDecl then Ok(args)
    else
      match BlockArgument(a)
      case Err(e) => Err(e)
      case Ok(arg) => Ok(args + [arg])
  }

  /** The fold `BlockArguments` is, one parameter at a time. */
  lemma BlockArgumentsStep(cs: seq<Cursor>, i: nat)
    requires i < |cs|
    ensures BlockArguments(cs[..i + 1]) == (match BlockArguments(cs[..i]) case Err(e) => Err(e) case Ok(args) => WithParameter(args, cs[i]))
  {
    assert cs[..i + 1][..i] == cs[..i];
  }

  /**
   * `BlockParser::parseBlock` with the `executeParse` and `parseBlockMember`
   * it runs: a block named after the current framework, with the type's
   * value as signature and the enclosing definition's introducedIn, becomes
   * the current definition; it gets the encoding "@?" and the return type
   * extracted from its signature, is registered, and then takes one
   * argument per parameter, a block-typed parameter being parsed as a block
   * of its own.
   */
  method ParseBlock(ctx: ParserContext, introducedIn: string, c: Cursor, ty: TypeInfo) returns (r: Result<nat>)
    requires Ready(ctx)
    modifies ctx, ctx.tree
    decreases c, 1
    ensures Ready(ctx) && ctx.Place() == old(ctx.Place())
    ensures ctx.tree.Snapshot() == old(ctx.tree.Snapshot()).(blocks := ctx.tree.blocks, store := ctx.tree.store)
    ensures Extends(old(ctx.tree.store), ctx.tree.store) && KeysKept(old(ctx.tree.blocks), ctx.tree.blocks)
    ensures BlockArguments(c.children).Err? ==> r.Err?
    ensures r.Ok? ==> BlockArguments(c.children).Ok? && r.value == |old(ctx.tree.store)| && r.value < |ctx.tree.store|
                      && ctx.tree.store[r.value] == ParsedBlock(ctx.cfg, ctx.filename, ctx.line, introducedIn, ty, BlockArguments(c.children).value)
    ensures r.Ok? ==> var name := FrameworkName(ctx.cfg, ctx.filename);
                      name != [] && ty.value != [] ==> name in ctx.tree.blocks && ty.value in ctx.tree.blocks[name]
  {
    var name := ctx.GetFrameworkName();
    var ret := ParsedBlockReturnType(ty.value);
    var p := CreateCurrent(ctx, BlockDef(name, ctx.filename, ctx.line, introducedIn, ty.value, ret, []));
    RegisterBlock(ctx, p);
    ghost var b1 := ctx.tree.blocks;
    ghost var s1 := ctx.tree.store;
    assert s1[..p] == old(ctx.tree.store);
    var args := ParseBlockParameters(ctx, introducedIn, ty.value, name, ret, p, c);
    KeysKeptTransitive(old(ctx.tree.blocks), b1, ctx.tree.blocks);
    if args.Err? {
      return Err(args.error);
    }
    r := Ok(p);
  }

  /** `parseBlockMember` over every child of the block's cursor, in order. */
  method ParseBlockParameters(ctx: ParserContext, introducedIn: string, signature: string, name: string, ret: TypeInfo,
                              p: nat, c: Cursor) returns (r: Result<seq<Argument>>)
    requires Ready(ctx) && p < |ctx.tree.store|
    requires ctx.tree.store[p] == BlockDef(name, ctx.filename, ctx.line, introducedIn, signature, ret, [])
    modifies ctx, ctx.tree
    decreases c, 0
    ensures Ready(ctx) && ctx.Place() == old(ctx.Place())
    ensures ctx.tree.Snapshot() == old(ctx.tree.Snapshot()).(blocks := ctx.tree.blocks, store := ctx.tree.store)
    ensures p < |ctx.tree.store| && ctx.tree.store[..p] == old(ctx.tree.store)[..p] && KeysKept(old(ctx.tree.blocks), ctx.tree.blocks)
    ensures BlockArguments(c.children).Err? ==> r.Err?
    ensures r.Ok? ==> r == BlockArguments(c.children)
                      && ctx.tree.store[p] == BlockDef(name, ctx.filename, ctx.line, introducedIn, signature, ret, r.value)
  {
    var tree := ctx.tree;
    ghost var t1 := tree.Snapshot();
    var args: seq<Argument> := [];
    var i := 0;
    assert c.children[..0] == [];
    KeysKeptSame(t1.blocks);
    while i < |c.children|
      invariant 0 <= i <= |c.children|
      invariant Ready(ctx) && ctx.Place() == old(ctx.Place())
      invariant tree.Snapshot() == t1.(blocks := tree.blocks, store := tree.store)
      invariant p < |tree.store| && tree.store[..p] == t1.store[..p] && KeysKept(t1.blocks, tree.blocks)
      invariant BlockArguments(c.children[..i]) == Ok(args)
      invariant tree.store[p] == BlockDef(name, ctx.filename, ctx.line, introducedIn, signature, ret, args)
    {
      BlockArgumentsStep(c.children, i);
      ghost var b := tree.blocks;
      var next := ParseBlockParameter(ctx, introducedIn, signature, name, ret, p, args, c.children[i]);
      KeysKeptTransitive(t1.blocks, b, tree.blocks);
      if next.Err? {
        return Err(next.error);
      }
      args := next.value;
      i := i + 1;
    }
    assert c.children[..i] == c.children;
    r := Ok(args);
  }

  /** A new definition, stored in the tree and made the context's current one. */
  method CreateCurrent(ctx: ParserContext, d: Def) returns (p: nat)
    requires Ready(ctx)
    modifies ctx`previous, ctx`current, ctx.tree
    ensures Ready(ctx) && ctx.Place() == old(ctx.Place())
    ensures ctx.tree.Snapshot() == old(ctx.tree.Snapshot()).(store := old(ctx.tree.store) + [d])
    ensures p == |old(ctx.tree.store)| && ctx.previous == old(ctx.current) && ctx.current == Some(p)
  {
    var tree := ctx.tree;
    ghost var t0 := tree.Snapshot();
    p := tree.NewDefinition(d);
    BlocksNamedAppend(t0, d);
    ctx.SetCurrent(Some(p));
  }

  /** `addBlock` on the block at `p`, which keeps the walk's invariant. */
  method RegisterBlock(ctx: ParserContext, p: nat)
    requires Ready(ctx) && p < |ctx.tree.store| && ctx.tree.store[p].body.BlockBody?
    modifies ctx.tree
    ensures Ready(ctx) && ctx.tree.store == old(ctx.tree.store)
    ensures ctx.tree.Snapshot() == old(ctx.tree.Snapshot()).(blocks := ctx.tree.blocks)
    ensures KeysKept(old(ctx.tree.blocks), ctx.tree.blocks)
    ensures var name := ctx.tree.store[p].name;
            var sig := ctx.tree.store[p].body.signature;
            name != [] && sig != [] ==> name in ctx.tree.blocks && sig in ctx.tree.blocks[name] && ctx.tree.blocks[name][sig] == Some(p)
  {
    var tree := ctx.tree;
    ghost var t1 := tree.Snapshot();
    tree.AddBlock(p);
    BlocksNamedAdd(t1, p);
    if tree.store[p].name != [] && tree.store[p].body.signature != [] {
      KeysKeptAdd(t1.blocks, tree.store[p].name, tree.store[p].body.signature, p);
    } else {
      KeysKeptSame(t1.blocks);
    }
  }

  /**
   * One child visited by `parseBlockMember`: a parameter adds its argument
   * to the block at `p` and, when its own type is a block, is parsed as a
   * block too.
   */
  method ParseBlockParameter(ctx: ParserContext, introducedIn: string, signature: string, name: string, ret: TypeInfo,
                             p: nat, args: seq<Argument>, a: Cursor) returns (r: Result<seq<Argument>>)
    requires Ready(ctx) && p < |ctx.tree.store|
    requires ctx.tree.store[p] == BlockDef(name, ctx.filename, ctx.line, introducedIn, signature, ret, args)
    modifies ctx, ctx.tree
    decreases a, 2
    ensures Ready(ctx) && ctx.Place() == old(ctx.Place())
    ensures ctx.tree.Snapshot() == old(ctx.tree.Snapshot()).(blocks := ctx.tree.blocks, store := ctx.tree.store)
    ensures p < |ctx.tree.store| && ctx.tree.store[..p] == old(ctx.tree.store)[..p] && KeysKept(old(ctx.tree.blocks), ctx.tree.blocks)
    ensures WithParameter(args, a).Err? ==> r.Err?
    ensures r.Ok? ==> r == WithParameter(args, a)
                      && ctx.tree.store[p] == BlockDef(name, ctx.filename, ctx.line, introducedIn, signature, ret, r.value)
  {
    if a.kind != ParmDecl {
      return Ok(args);
    }
    var arg := BlockArgument(a);
    if arg.Err? {
      return Err(arg.error);
    }
    var tree := ctx.tree;
    ghost var t0 := tree.Snapshot();
    var more := args + [arg.value];
    tree.Put(p, BlockDef(name, ctx.filename, ctx.line, introducedIn, signature, ret, more));
    BlocksNamedPut(t0, p, tree.store[p]);
    assert tree.store[..p] == t0.store[..p];
    var aty := TypeOfSpelling(a.cursorType, a.cursorType.spelling);
    if aty.tag == "block" {
      ghost var s1 := tree.store;
      var nested := ParseBlock(ctx, introducedIn, a, aty);
      if nested.Err? {
        return Err(nested.error);
      }
      assert tree.store[..p] == tree.store[..|s1|][..p];
    }
    r := Ok(more);
  }
}
