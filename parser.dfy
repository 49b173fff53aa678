/**
 * The parse tree and the parser context of the metabase generator
 * (parser.cpp). Definitions are owned by the tree's store and designated
 * by their index, which stands for the `Definition*` the C++ registries
 * hold; a null pointer is `None`.
 */
module Parser {
  import opened Wrappers
  import opened Json
  import opened Defs
  import opened ResolveJson
  import opened Kinds
  import opened Locations
  import opened Emit
  import opened Order

  /** `registry[name]` through `operator[]`: an absent name is inserted as null. */
  function Looked(m: Registry, name: string): (r: Registry)
    ensures name in r && r.Keys == m.Keys + {name}
    ensures forall k :: k in m ==> r[k] == m[k]
    ensures name !in m ==> r[name] == None
  {
    if name in m then m else m[name := None]
  }

  /** The pointer `registry[name]` yields. */
  function Lookup(m: Registry, name: string): (r: Option<nat>)
    ensures name in m ==> r == m[name]
    ensures name !in m ==> r == None
  {
    if name in m then m[name] else None
  }

  /** Skipping leading underscores stops at the first other character. */
  lemma TrimUnderscoresAt(s: string, c: nat)
    requires c <= |s| && (forall k :: 0 <= k < c ==> s[k] == '_') && (c == |s| || s[c] != '_')
    ensures TrimUnderscores(s) == s[c..]
  {
    var r := TrimUnderscores(s);
    if |s| - |r| < c {
      assert false;
    } else if |s| - |r| > c {
      assert false;
    }
  }

  /** The `for` loop of `addStruct`: how many underscores `key` starts with. */
  method CountUnderscores(key: string) returns (c: nat)
    ensures c <= |key| && key[c..] == TrimUnderscores(key)
    ensures forall k :: 0 <= k < c ==> key[k] == '_'
  {
    c := 0;
    while c < |key| && key[c] == '_'
      invariant 0 <= c <= |key|
      invariant forall k :: 0 <= k < c ==> key[k] == '_'
    {
      c := c + 1;
    }
    TrimUnderscoresAt(key, c);
  }

  /** `ParserTree`: one registry per kind, the blocks by name then signature, and the definitions. */
  class ParserTree {
    var classes: Registry
    var extensions: Registry
    var protocols: Registry
    var types: Registry
    var enums: Registry
    var vars: Registry
    var functions: Registry
    var structs: Registry
    var unions: Registry
    var blocks: map<string, Registry>
    var store: seq<Def>

    /** The tree's state as a value. */
    function Snapshot(): (t: Tree)
      reads this
      ensures t.store == store && t.structs == structs && t.types == types && t.blocks == blocks
    {
      Tree(classes, extensions, protocols, types, enums, vars, functions, structs, unions, blocks, store)
    }

    /** Every pointer designates a definition of the kind its registry holds. */
    ghost predicate Valid()
      reads this
    {
      ValidTree(Snapshot())
    }

    constructor ()
      ensures Valid()
      ensures Snapshot() == Tree(map[], map[], map[], map[], map[], map[], map[], map[], map[], map[], [])
    {
      classes, extensions, protocols, types, enums := map[], map[], map[], map[], map[];
      vars, functions, structs, unions, blocks, store := map[], map[], map[], map[], map[], [];
    }

    /** `new XDefinition(...)`: the definition gets the next pointer. */
    method NewDefinition(d: Def) returns (p: nat)
      requires Valid()
      modifies this
      ensures Valid() && p == |old(store)| && p < |store|
      ensures Snapshot() == old(Snapshot()).(store := old(store) + [d])
    {
      p := |store|;
      store := store + [d];
    }

    /** A definition updated through its pointer, keeping its kind. */
    method Put(p: nat, d: Def)
      requires Valid() && p < |store|
      requires d.body.StructBody? == store[p].body.StructBody? && d.body.TypedefBody? == store[p].body.TypedefBody?
      modifies this
      ensures Valid()
      ensures Snapshot() == old(Snapshot()).(store := old(store)[p := d])
    {
      store := store[p := d];
    }

    /** `addClass`: the definition under its name, replacing any earlier one. */
    method AddClass(p: nat)
      requires Valid() && p < |store|
      modifies this
      ensures Snapshot() == old(Snapshot()).(classes := old(classes)[old(store)[p].name := Some(p)])
      ensures Valid() && (store[p].name != [] ==> HasClass(store[p].name))
    {
      classes := classes[store[p].name := Some(p)];
    }

    /** `addExtension`. */
    method AddExtension(p: nat)
      requires Valid() && p < |store|
      modifies this
      ensures Snapshot() == old(Snapshot()).(extensions := old(extensions)[old(store)[p].name := Some(p)])
      ensures Valid() && (store[p].name != [] ==> HasExtension(store[p].name))
    {
      extensions := extensions[store[p].name := Some(p)];
    }

    /** `addProtocol`. */
    method AddProtocol(p: nat)
      requires Valid() && p < |store|
      modifies this
      ensures Snapshot() == old(Snapshot()).(protocols := old(protocols)[old(store)[p].name := Some(p)])
      ensures Valid()
    {
      protocols := protocols[store[p].name := Some(p)];
    }

    /** `addType`. */
    method AddType(p: nat)
      requires Valid() && p < |store| && store[p].body.TypedefBody?
      modifies this
      ensures Snapshot() == old(Snapshot()).(types := old(types)[old(store)[p].name := Some(p)])
      ensures Valid() && (store[p].name != [] ==> HasType(store[p].name))
    {
      types := types[store[p].name := Some(p)];
    }

    /** `addEnum`. */
    method AddEnum(p: nat)
      requires Valid() && p < |store|
      modifies this
      ensures Snapshot() == old(Snapshot()).(enums := old(enums)[old(store)[p].name := Some(p)])
      ensures Valid() && (store[p].name != [] ==> HasEnum(store[p].name))
    {
      enums := enums[store[p].name := Some(p)];
    }

    /** `addVar`. */
    method AddVar(p: nat)
      requires Valid() && p < |store|
      modifies this
      ensures Snapshot() == old(Snapshot()).(vars := old(vars)[old(store)[p].name := Some(p)])
      ensures Valid()
    {
      vars := vars[store[p].name := Some(p)];
    }

    /** `addFunction`. */
    method AddFunction(p: nat)
      requires Valid() && p < |store|
      modifies this
      ensures Snapshot() == old(Snapshot()).(functions := old(functions)[old(store)[p].name := Some(p)])
      ensures Valid()
    {
      functions := functions[store[p].name := Some(p)];
    }

    /**
     * `addStruct`: the struct goes under its name without leading
     * underscores, and the definition is renamed to match. The name must
     * not be empty (`key.at(0)` throws on an empty one).
     */
    method AddStruct(p: nat)
      requires Valid() && p < |store| && store[p].body.StructBody? && store[p].name != []
      modifies this
      ensures var key := TrimUnderscores(old(store)[p].name);
              Snapshot() == old(Snapshot()).(structs := old(structs)[key := Some(p)], store := old(store)[p := old(store)[p].(name := key)])
      ensures Valid() && store[p].name == TrimUnderscores(old(store)[p].name)
      ensures store[p].name != [] ==> HasStruct(store[p].name) && store[p].name[0] != '_'
    {
      var key := store[p].name;
      if key[0] == '_' {
        var c := CountUnderscores(key);
        if c > 0 {
          key := key[c..];
        }
      } else {
        TrimUnderscoresAt(key, 0);
      }
      Rename(p, key);
      RegisterStruct(p);
    }

    /** `setName` on the definition at `p`. */
    method Rename(p: nat, name: string)
      requires Valid() && p < |store|
      modifies this
      ensures Valid() && Snapshot() == old(Snapshot()).(store := old(store)[p := old(store)[p].(name := name)])
    {
      ValidTreeRenamed(Snapshot(), p, name);
      store := store[p := store[p].(name := name)];
    }

    /** `structs[key] = struct` with the definition's own name as key. */
    method RegisterStruct(p: nat)
      requires Valid() && p < |store| && store[p].body.StructBody?
      modifies this
      ensures Valid() && Snapshot() == old(Snapshot()).(structs := old(structs)[old(store)[p].name := Some(p)])
    {
      ValidTreeStructAdded(Snapshot(), store[p].name, p);
      structs := structs[store[p].name := Some(p)];
    }

    /** `addUnion`: only a named union is registered. */
    method AddUnion(p: nat)
      requires Valid() && p < |store|
      modifies this
      ensures var name := old(store)[p].name;
              Snapshot() == old(Snapshot()).(unions := if name == [] then old(unions) else old(unions)[name := Some(p)])
      ensures Valid()
    {
      var key := store[p].name;
      if key != [] {
        unions := unions[key := Some(p)];
      }
    }

    /**
     * `addBlock`: a block with a name and a signature goes into the map of
     * its name by signature; the same pair replaces the earlier block, and
     * other signatures of the name stay.
     */
    method AddBlock(p: nat)
      requires Valid() && p < |store| && store[p].body.BlockBody?
      modifies this
      ensures var name := old(store)[p].name;
              var sig := old(store)[p].body.signature;
              Snapshot() == old(Snapshot()).(blocks :=
                if name == [] || sig == [] then old(blocks) else old(blocks)[name := BlockSet(old(blocks), name)[sig := Some(p)]])
      ensures Valid()
      ensures var name := old(store)[p].name;
              var sig := old(store)[p].body.signature;
              name != [] && sig != [] ==>
                name in blocks && blocks[name][sig] == Some(p)
                && forall s :: s in BlockSet(old(blocks), name) && s != sig ==> s in blocks[name] && blocks[name][s] == old(blocks)[name][s]
    {
      var key := store[p].name;
      var signature := store[p].body.signature;
      if key != [] && signature != [] {
        var m := BlockSet(blocks, key);
        m := m[signature := Some(p)];
        blocks := blocks[key := m];
      }
    }

    /** `getClass`: the pointer under the name, a lookup that inserts null for an absent name. */
    method GetClass(name: string) returns (r: Option<nat>)
      requires Valid()
      modifies this
      ensures Valid() && r == Lookup(old(classes), name)
      ensures Snapshot() == old(Snapshot()).(classes := Looked(old(classes), name))
      ensures name != [] ==> HasClass(name)
    {
      classes := Looked(classes, name);
      r := classes[name];
    }

    /** `getExtension`. */
    method GetExtension(name: string) returns (r: Option<nat>)
      requires Valid()
      modifies this
      ensures Valid() && r == Lookup(old(extensions), name)
      ensures Snapshot() == old(Snapshot()).(extensions := Looked(old(extensions), name))
      ensures name != [] ==> HasExtension(name)
    {
      extensions := Looked(extensions, name);
      r := extensions[name];
    }

    /** `getType`. */
    method GetType(name: string) returns (r: Option<nat>)
      requires Valid()
      modifies this
      ensures Valid() && r == Lookup(old(types), name)
      ensures Snapshot() == old(Snapshot()).(types := Looked(old(types), name))
      ensures name != [] ==> HasType(name)
    {
      types := Looked(types, name);
      r := types[name];
    }

    /** `getStruct`. */
    method GetStruct(name: string) returns (r: Option<nat>)
      requires Valid()
      modifies this
      ensures Valid() && r == Lookup(old(structs), name)
      ensures Snapshot() == old(Snapshot()).(structs := Looked(old(structs), name))
      ensures name != [] ==> HasStruct(name)
    {
      structs := Looked(structs, name);
      r := structs[name];
    }

    /** `getUnion`. */
    method GetUnion(name: string) returns (r: Option<nat>)
      requires Valid()
      modifies this
      ensures Valid() && r == Lookup(old(unions), name)
      ensures Snapshot() == old(Snapshot()).(unions := Looked(old(unions), name))
      ensures name != [] ==> HasUnion(name)
    {
      unions := Looked(unions, name);
      r := unions[name];
    }

    /** `getEnum`. */
    method GetEnum(name: string) returns (r: Option<nat>)
      requires Valid()
      modifies this
      ensures Valid() && r == Lookup(old(enums), name)
      ensures Snapshot() == old(Snapshot()).(enums := Looked(old(enums), name))
      ensures name != [] ==> HasEnum(name)
    {
      enums := Looked(enums, name);
      r := enums[name];
    }

    /** `hasClass`: false for an empty name, otherwise whether the name is registered, even as null. */
    function HasClass(name: string): (b: bool)
      reads this
      ensures b <==> name != [] && name in classes
    {
      HasName(classes, name)
    }

    /** `hasExtension`. */
    function HasExtension(name: string): (b: bool)
      reads this
      ensures b <==> name != [] && name in extensions
    {
      HasName(extensions, name)
    }

    /** `hasType`. */
    function HasType(name: string): (b: bool)
      reads this
      ensures b <==> name != [] && name in types
    {
      HasName(types, name)
    }

    /** `hasStruct`. */
    function HasStruct(name: string): (b: bool)
      reads this
      ensures b <==> name != [] && name in structs
    {
      HasName(structs, name)
    }

    /** `hasUnion`. */
    function HasUnion(name: string): (b: bool)
      reads this
      ensures b <==> name != [] && name in unions
    {
      HasName(unions, name)
    }

    /** `hasEnum`. */
    function HasEnum(name: string): (b: bool)
      reads this
      ensures b <==> name != [] && name in enums
    {
      HasName(enums, name)
    }

    /**
     * One visit of `toJSON`'s loop over a registry: the context decides
     * whether the entry's location is excluded, and a kept definition is
     * serialised with `ser`, the definitions' own `toJSON`, onto the
     * object `kv` and the list `items` written so far.
     */
    method WriteEntry(ctx: ParserContext, ser: (Tree, nat) --> Result<Emitted>, m: Registry, k: string,
                      kv: map<string, Json>, items: seq<Json>, ghost deps: set<string>)
      returns (r: Result<(map<string, Json>, seq<Json>)>)
      requires Valid() && IsSerialiser(ser) && PointsInto(m, |store|) && k in m
      modifies this`store, ctx`dependencies
      ensures var e := EmitEntry(ser, ctx.cfg, Emission(kv, items, old(Snapshot()), deps), m, k);
              (r.Ok? <==> e.Ok?)
              && (r.Ok? ==> r.value == (e.value.kv, e.value.items) && Snapshot() == e.value.tree && Valid()
                            && ctx.dependencies == old(ctx.dependencies) + RecordedAt(ctx.cfg, old(Snapshot()), m, k))
    {
      if m[k].None? {
        return Err("null definition");
      }
      var id := m[k].value;
      var excluded := ctx.ExcludeLocation(store[id].filename);
      if excluded {
        return Ok((kv, items));
      }
      var x := ser(Snapshot(), id);
      if x.Err? {
        return Err(x.error);
      }
      store := x.value.tree.store;
      assert Snapshot() == x.value.tree;
      r := Ok((kv[k := JObj(x.value.kv)], items + [JObj(x.value.kv)]));
    }

    /** The loop of `toJSON` over one registry, visiting its keys in order. */
    method WriteRegistry(ctx: ParserContext, ser: (Tree, nat) --> Result<Emitted>, m: Registry)
      returns (r: Result<(map<string, Json>, seq<Json>)>)
      requires Valid() && IsSerialiser(ser) && PointsInto(m, |store|)
      modifies this`store, ctx`dependencies
      ensures var e := EmitEntries(ser, ctx.cfg, old(Snapshot()), m, SortedKeys(m.Keys));
              (r.Ok? <==> e.Ok?)
              && (r.Ok? ==> r.value == (e.value.kv, e.value.items) && Snapshot() == e.value.tree
                            && ctx.dependencies == old(ctx.dependencies) + e.value.deps && Valid())
    {
      var keys := SortKeys(m.Keys);
      ghost var t0 := Snapshot();
      ghost var deps0 := ctx.dependencies;
      ghost var deps: set<string> := {};
      var kv: map<string, Json> := map[];
      var items: seq<Json> := [];
      var i := 0;
      assert keys[..0] == [];
      while i < |keys|
        invariant 0 <= i <= |keys| && forall k :: k in keys[..i] ==> k in m
        invariant Valid()
        invariant EmitEntries(ser, ctx.cfg, t0, m, keys[..i]) == Ok(Emission(kv, items, Snapshot(), deps))
        invariant ctx.dependencies == deps0 + deps
      {
        EmitEntriesNext(ser, ctx.cfg, t0, m, keys, i, Emission(kv, items, Snapshot(), deps));
        ghost var before := Snapshot();
        var w := WriteEntry(ctx, ser, m, keys[i], kv, items, deps);
        if w.Err? {
          EmitEntriesPrefixErr(ser, ctx.cfg, t0, m, keys, i + 1);
          return Err(w.error);
        }
        UnionAssoc(deps0, deps, RecordedAt(ctx.cfg, before, m, keys[i]));
        kv, items := w.value.0, w.value.1;
        deps := deps + RecordedAt(ctx.cfg, before, m, keys[i]);
        i := i + 1;
      }
      assert keys[..i] == keys;
      r := Ok((kv, items));
    }

    /** One registry written onto the object `kv` under its section's member, when some entry was kept. */
    method WriteSection(ctx: ParserContext, ser: (Tree, nat) --> Result<Emitted>, s: Section, kv: map<string, Json>)
      returns (r: Result<map<string, Json>>)
      requires Valid() && IsSerialiser(ser)
      modifies this`store, ctx`dependencies
      ensures var m := SectionRegistry(old(Snapshot()), s);
              var e := EmitEntries(ser, ctx.cfg, old(Snapshot()), m, SortedKeys(m.Keys));
              (r.Ok? <==> e.Ok?)
              && (r.Ok? ==> r.value == (if e.value.items == [] then kv else kv[SectionKey(s) := JObj(e.value.kv)])
                            && Snapshot() == e.value.tree && Valid() && ctx.dependencies == old(ctx.dependencies) + e.value.deps)
    {
      var w := WriteRegistry(ctx, ser, SectionRegistry(Snapshot(), s));
      if w.Err? {
        return Err(w.error);
      }
      r := Ok(if w.value.1 == [] then kv else kv[SectionKey(s) := JObj(w.value.0)]);
    }

    /**
     * The first `i` sections are written: the walk over them succeeded with
     * the object `kv` and the tree `t1`, and `deps1` is `deps0` and the
     * walk's dependencies.
     */
    static ghost predicate SectionsSoFar(ser: (Tree, nat) --> Result<Emitted>, cfg: Config, t: Tree, sections: seq<Section>, i: nat,
                                         kv: map<string, Json>, t1: Tree, deps0: set<string>, deps1: set<string>)
    {
      IsSerialiser(ser) && ValidTree(t) && i <= |sections|
      && var a := EmitSections(ser, cfg, t, sections[..i]);
         a.Ok? && a.value.kv == kv && a.value.items == [] && a.value.tree == t1 && ValidTree(t1)
         && deps1 == deps0 + a.value.deps
    }

    /**
     * What writing `sections` leaves: it fails exactly when the walk over
     * them fails, and otherwise yields the walk's object, tree and
     * dependencies added to those there were before.
     */
    static ghost predicate SectionsWritten(ser: (Tree, nat) --> Result<Emitted>, cfg: Config, t: Tree, sections: seq<Section>,
                                    r: Result<map<string, Json>>, t1: Tree, deps0: set<string>, deps1: set<string>)
    {
      IsSerialiser(ser) && ValidTree(t)
      && var a := EmitSections(ser, cfg, t, sections);
         (r.Ok? <==> a.Ok?)
         && (r.Ok? ==> r.value == a.value.kv && t1 == a.value.tree && ValidTree(t1) && deps1 == deps0 + a.value.deps)
    }

    /** Nothing written yet. */
    static lemma SectionsSoFarStart(ser: (Tree, nat) --> Result<Emitted>, cfg: Config, t: Tree, sections: seq<Section>, deps0: set<string>)
      requires IsSerialiser(ser) && ValidTree(t)
      ensures SectionsSoFar(ser, cfg, t, sections, 0, map[], t, deps0, deps0)
    {
      assert sections[..0] == [];
    }

    /** Every section written. */
    static lemma SectionsSoFarDone(ser: (Tree, nat) --> Result<Emitted>, cfg: Config, t: Tree, sections: seq<Section>,
                                   kv: map<string, Json>, t1: Tree, deps0: set<string>, deps1: set<string>)
      requires SectionsSoFar(ser, cfg, t, sections, |sections|, kv, t1, deps0, deps1)
      ensures SectionsWritten(ser, cfg, t, sections, Ok(kv), t1, deps0, deps1)
    {
      assert sections[..|sections|] == sections;
    }

    /** A failing section fails the whole write. */
    static lemma SectionsFailed(ser: (Tree, nat) --> Result<Emitted>, cfg: Config, t: Tree, sections: seq<Section>, i: nat,
                                err: string, t1: Tree, deps0: set<string>, deps1: set<string>)
      requires IsSerialiser(ser) && ValidTree(t) && i < |sections|
      requires EmitSections(ser, cfg, t, sections[..i + 1]).Err?
      ensures SectionsWritten(ser, cfg, t, sections, Err(err), t1, deps0, deps1)
    {
      EmitSectionsPrefixErr(ser, cfg, t, sections, i + 1);
    }

    /** One more section of `toJSON`, after the first `i`. */
    method WriteNextSection(ctx: ParserContext, ser: (Tree, nat) --> Result<Emitted>, sections: seq<Section>, i: nat,
                            kv: map<string, Json>, ghost t0: Tree, ghost deps0: set<string>)
      returns (r: Result<map<string, Json>>)
      requires Valid() && i < |sections|
      requires SectionsSoFar(ser, ctx.cfg, t0, sections, i, kv, Snapshot(), deps0, ctx.dependencies)
      modifies this`store, ctx`dependencies
      ensures r.Err? ==> EmitSections(ser, ctx.cfg, t0, sections[..i + 1]).Err?
      ensures r.Ok? ==> SectionsSoFar(ser, ctx.cfg, t0, sections, i + 1, r.value, Snapshot(), deps0, ctx.dependencies) && Valid()
    {
      ghost var done := EmitSections(ser, ctx.cfg, t0, sections[..i]).value;
      ghost var m := SectionRegistry(done.tree, sections[i]);
      ghost var e := EmitEntries(ser, ctx.cfg, done.tree, m, SortedKeys(m.Keys));
      ghost var next := if e.Err? || e.value.items == [] then kv else kv[SectionKey(sections[i]) := JObj(e.value.kv)];
      EmitSectionsNext(ser, ctx.cfg, t0, sections, i, done, e, next);
      r := WriteSection(ctx, ser, sections[i], kv);
      if r.Ok? {
        UnionAssoc(deps0, done.deps, e.value.deps);
      }
    }

    /** The part of `toJSON` that writes the registries, each in key order, in the order of `sections`. */
    method WriteSections(ctx: ParserContext, ser: (Tree, nat) --> Result<Emitted>, sections: seq<Section>)
      returns (r: Result<map<string, Json>>)
      requires Valid() && IsSerialiser(ser)
      modifies this`store, ctx`dependencies
      ensures SectionsWritten(ser, ctx.cfg, old(Snapshot()), sections, r, Snapshot(), old(ctx.dependencies), ctx.dependencies)
    {
      ghost var t0 := Snapshot();
      ghost var deps0 := ctx.dependencies;
      var kv: map<string, Json> := map[];
      var i := 0;
      SectionsSoFarStart(ser, ctx.cfg, t0, sections, deps0);
      while i < |sections|
        invariant i <= |sections| && Valid()
        invariant SectionsSoFar(ser, ctx.cfg, t0, sections, i, kv, Snapshot(), deps0, ctx.dependencies)
      {
        var w := WriteNextSection(ctx, ser, sections, i, kv, t0, deps0);
        if w.Err? {
          SectionsFailed(ser, ctx.cfg, t0, sections, i, w.error, Snapshot(), deps0, ctx.dependencies);
          return Err(w.error);
        }
        kv := w.value;
        i := i + 1;
      }
      SectionsSoFarDone(ser, ctx.cfg, t0, sections, kv, Snapshot(), deps0, ctx.dependencies);
      r := Ok(kv);
    }

    /** The blocks of one name written onto the object `kv` as an array under the name, when some block was kept. */
    method WriteBlock(ctx: ParserContext, ser: (Tree, nat) --> Result<Emitted>, n: string, kv: map<string, Json>)
      returns (r: Result<map<string, Json>>)
      requires Valid() && IsSerialiser(ser)
      modifies this`store, ctx`dependencies
      ensures var m := BlocksOf(old(Snapshot()), n);
              var e := EmitEntries(ser, ctx.cfg, old(Snapshot()), m, SortedKeys(m.Keys));
              (r.Ok? <==> e.Ok?)
              && (r.Ok? ==> r.value == (if e.value.items == [] then kv else kv[n := JArr(e.value.items)])
                            && Snapshot() == e.value.tree && Valid() && ctx.dependencies == old(ctx.dependencies) + e.value.deps)
    {
      var w := WriteRegistry(ctx, ser, BlocksOf(Snapshot(), n));
      if w.Err? {
        return Err(w.error);
      }
      r := Ok(if w.value.1 == [] then kv else kv[n := JArr(w.value.1)]);
    }

    /** The blocks of the first `j` names are written, as `SectionsSoFar` says of sections. */
    static ghost predicate BlocksSoFar(ser: (Tree, nat) --> Result<Emitted>, cfg: Config, t: Tree, names: seq<string>, j: nat,
                                       kv: map<string, Json>, t1: Tree, deps0: set<string>, deps1: set<string>)
    {
      IsSerialiser(ser) && ValidTree(t) && j <= |names|
      && var a := EmitBlocks(ser, cfg, t, names[..j]);
         a.Ok? && a.value.kv == kv && a.value.items == [] && a.value.tree == t1 && ValidTree(t1)
         && deps1 == deps0 + a.value.deps
    }

    /** What writing the blocks leaves, as `SectionsWritten` says of sections. */
    static ghost predicate BlocksWritten(ser: (Tree, nat) --> Result<Emitted>, cfg: Config, t: Tree,
                                        r: Result<map<string, Json>>, t1: Tree, deps0: set<string>, deps1: set<string>)
    {
      IsSerialiser(ser) && ValidTree(t)
      && var b := WalkBlocks(ser, cfg, t);
         (r.Ok? <==> b.Ok?)
         && (r.Ok? ==> r.value == b.value.kv && t1 == b.value.tree && ValidTree(t1) && deps1 == deps0 + b.value.deps)
    }

    /** No name written yet. */
    static lemma BlocksSoFarStart(ser: (Tree, nat) --> Result<Emitted>, cfg: Config, t: Tree, names: seq<string>, deps0: set<string>)
      requires IsSerialiser(ser) && ValidTree(t)
      ensures BlocksSoFar(ser, cfg, t, names, 0, map[], t, deps0, deps0)
    {
      assert names[..0] == [];
    }

    /** Every name written. */
    static lemma BlocksSoFarDone(ser: (Tree, nat) --> Result<Emitted>, cfg: Config, t: Tree,
                                 kv: map<string, Json>, t1: Tree, deps0: set<string>, deps1: set<string>)
      requires BlocksSoFar(ser, cfg, t, SortedKeys(t.blocks.Keys), |SortedKeys(t.blocks.Keys)|, kv, t1, deps0, deps1)
      ensures BlocksWritten(ser, cfg, t, Ok(kv), t1, deps0, deps1)
    {
      var names := SortedKeys(t.blocks.Keys);
      assert names[..|names|] == names;
    }

    /** A failing name fails the whole write. */
    static lemma BlocksFailed(ser: (Tree, nat) --> Result<Emitted>, cfg: Config, t: Tree, j: nat,
                              err: string, t1: Tree, deps0: set<string>, deps1: set<string>)
      requires IsSerialiser(ser) && ValidTree(t) && j < |SortedKeys(t.blocks.Keys)|
      requires EmitBlocks(ser, cfg, t, SortedKeys(t.blocks.Keys)[..j + 1]).Err?
      ensures BlocksWritten(ser, cfg, t, Err(err), t1, deps0, deps1)
    {
      EmitBlocksPrefixErr(ser, cfg, t, SortedKeys(t.blocks.Keys), j + 1);
    }

    /** The blocks of one more name, after the first `j`. */
    method WriteNextBlock(ctx: ParserContext, ser: (Tree, nat) --> Result<Emitted>, names: seq<string>, j: nat,
                          kv: map<string, Json>, ghost t0: Tree, ghost deps0: set<string>)
      returns (r: Result<map<string, Json>>)
      requires Valid() && j < |names|
      requires BlocksSoFar(ser, ctx.cfg, t0, names, j, kv, Snapshot(), deps0, ctx.dependencies)
      modifies this`store, ctx`dependencies
      ensures r.Err? ==> EmitBlocks(ser, ctx.cfg, t0, names[..j + 1]).Err?
      ensures r.Ok? ==> BlocksSoFar(ser, ctx.cfg, t0, names, j + 1, r.value, Snapshot(), deps0, ctx.dependencies) && Valid()
    {
      ghost var done := EmitBlocks(ser, ctx.cfg, t0, names[..j]).value;
      ghost var m := BlocksOf(done.tree, names[j]);
      ghost var e := EmitEntries(ser, ctx.cfg, done.tree, m, SortedKeys(m.Keys));
      ghost var next := if e.Err? || e.value.items == [] then kv else kv[names[j] := JArr(e.value.items)];
      EmitBlocksNext(ser, ctx.cfg, t0, names, j, done, e, next);
      r := WriteBlock(ctx, ser, names[j], kv);
      if r.Ok? {
        UnionAssoc(deps0, done.deps, e.value.deps);
      }
    }

    /** The part of `toJSON` that writes the blocks, by name and then by signature. */
    method WriteBlocks(ctx: ParserContext, ser: (Tree, nat) --> Result<Emitted>) returns (r: Result<map<string, Json>>)
      requires Valid() && IsSerialiser(ser)
      modifies this`store, ctx`dependencies
      ensures BlocksWritten(ser, ctx.cfg, old(Snapshot()), r, Snapshot(), old(ctx.dependencies), ctx.dependencies)
    {
      ghost var t0 := Snapshot();
      ghost var deps0 := ctx.dependencies;
      var names := SortKeys(blocks.Keys);
      var kv: map<string, Json> := map[];
      var j := 0;
      BlocksSoFarStart(ser, ctx.cfg, t0, names, deps0);
      while j < |names|
        invariant j <= |names| && Valid()
        invariant BlocksSoFar(ser, ctx.cfg, t0, names, j, kv, Snapshot(), deps0, ctx.dependencies)
      {
        var w := WriteNextBlock(ctx, ser, names, j, kv, t0, deps0);
        if w.Err? {
          BlocksFailed(ser, ctx.cfg, t0, j, w.error, Snapshot(), deps0, ctx.dependencies);
          return Err(w.error);
        }
        kv := w.value;
        j := j + 1;
      }
      BlocksSoFarDone(ser, ctx.cfg, t0, kv, Snapshot(), deps0, ctx.dependencies);
      r := Ok(kv);
    }

    /**
     * What `toJSON` leaves: it fails exactly when `TreeOutput` does, and
     * otherwise yields its object, tree and dependencies.
     */
    static ghost predicate OutputWritten(cfg: Config, t: Tree, deps0: set<string>,
                                         r: Result<map<string, Json>>, t1: Tree, deps1: set<string>)
    {
      ValidTree(t)
      && var o := TreeOutput(cfg, t, deps0);
         (r.Ok? <==> o.Ok?)
         && (r.Ok? ==> r.value == o.value.json && t1 == o.value.tree && deps1 == o.value.deps)
    }

    /** A failing registry walk fails `toJSON`. */
    static lemma OutputSectionsFailed(cfg: Config, t: Tree, deps0: set<string>, a: Result<map<string, Json>>, t1: Tree, deps1: set<string>,
                                      err: string, t2: Tree, deps2: set<string>)
      requires ValidTree(t) && a.Err?
      requires SectionsWritten(Serialiser(), cfg, t, SectionOrder, a, t1, deps0, deps1)
      ensures OutputWritten(cfg, t, deps0, Err(err), t2, deps2)
    {
      TreeOutputIsTreeJSON(cfg, t, deps0);
      TreeJSONWalks(Serialiser(), cfg, t, deps0);
    }

    /** A failing blocks walk fails `toJSON`. */
    static lemma OutputBlocksFailed(cfg: Config, t: Tree, deps0: set<string>, a: Result<map<string, Json>>, t1: Tree, deps1: set<string>,
                                    b: Result<map<string, Json>>, t2: Tree, deps2: set<string>, err: string)
      requires ValidTree(t) && a.Ok? && b.Err?
      requires SectionsWritten(Serialiser(), cfg, t, SectionOrder, a, t1, deps0, deps1)
      requires BlocksWritten(Serialiser(), cfg, t1, b, t2, deps1, deps2)
      ensures OutputWritten(cfg, t, deps0, Err(err), t2, deps2)
    {
      TreeOutputIsTreeJSON(cfg, t, deps0);
      TreeJSONWalks(Serialiser(), cfg, t, deps0);
    }

    /** The registry walk writes no member named `blocks` or `metadata`. */
    static lemma SectionsLeaveRoom(cfg: Config, t: Tree, deps0: set<string>, a: Result<map<string, Json>>, t1: Tree, deps1: set<string>)
      requires ValidTree(t) && a.Ok?
      requires SectionsWritten(Serialiser(), cfg, t, SectionOrder, a, t1, deps0, deps1)
      ensures "blocks" !in a.value && "metadata" !in a.value
    {
      TreeJSONWalks(Serialiser(), cfg, t, deps0);
    }

    /** Both walks succeeding give `TreeOutput`'s object. */
    static lemma OutputAssembled(cfg: Config, t: Tree, deps0: set<string>, a: Result<map<string, Json>>, t1: Tree, deps1: set<string>,
                                 b: Result<map<string, Json>>, t2: Tree, deps2: set<string>)
      requires ValidTree(t) && a.Ok? && b.Ok?
      requires SectionsWritten(Serialiser(), cfg, t, SectionOrder, a, t1, deps0, deps1)
      requires "blocks" !in a.value && "metadata" !in a.value
      requires BlocksWritten(Serialiser(), cfg, t1, b, t2, deps1, deps2)
      ensures OutputWritten(cfg, t, deps0, Ok(Assemble(cfg, a.value, b.value, SortedKeys(deps2))), t2, deps2)
    {
      TreeOutputIsTreeJSON(cfg, t, deps0);
      TreeJSONWalks(Serialiser(), cfg, t, deps0);
      var ea := EmitSections(Serialiser(), cfg, t, SectionOrder).value;
      var eb := WalkBlocks(Serialiser(), cfg, t1).value;
      UnionAssoc(deps0, ea.deps, eb.deps);
    }

    /**
     * `toJSON`: the registries in the order the generator writes them, each
     * in key order, then the blocks by name and signature, then the
     * metadata with the dependencies the exclusion tests recorded.
     */
    method ToJSON(ctx: ParserContext) returns (r: Result<map<string, Json>>)
      requires Valid()
      modifies this`store, ctx`dependencies
      ensures OutputWritten(ctx.cfg, old(Snapshot()), old(ctx.dependencies), r, Snapshot(), ctx.dependencies)
    {
      ghost var t0 := Snapshot();
      ghost var deps0 := ctx.dependencies;
      SerialiserIsDefToJSON();
      var a := WriteSections(ctx, Serialiser(), SectionOrder);
      ghost var t1 := Snapshot();
      ghost var deps1 := ctx.dependencies;
      if a.Err? {
        OutputSectionsFailed(ctx.cfg, t0, deps0, a, t1, deps1, a.error, t1, deps1);
        return Err(a.error);
      }
      var b := WriteBlocks(ctx, Serialiser());
      if b.Err? {
        OutputBlocksFailed(ctx.cfg, t0, deps0, a, t1, deps1, b, Snapshot(), ctx.dependencies, b.error);
        return Err(b.error);
      }
      SectionsLeaveRoom(ctx.cfg, t0, deps0, a, t1, deps1);
      OutputAssembled(ctx.cfg, t0, deps0, a, t1, deps1, b, Snapshot(), ctx.dependencies);
      var deps := SortKeys(ctx.dependencies);
      r := Ok(Assemble(ctx.cfg, a.value, b.value, deps));
    }
  }

  /**
   * `ParserContext`: the settings, the tree it owns, the location of the
   * cursor being visited, the previous and current definitions, and the
   * files recorded as dependencies. The count of anonymous enums, a
   * file-static counter of enum.cpp, is kept here as explicit state.
   */
  class ParserContext {
    const cfg: Config
    const tree: ParserTree
    var filename: string
    var line: string
    var previous: Option<nat>
    var current: Option<nat>
    var dependencies: set<string>
    var anonEnumCount: nat

    /** The state a definition's parse leaves alone: the location, the dependencies and the enum counter. */
    function Place(): (string, string, set<string>, nat)
      reads this`filename, this`line, this`dependencies, this`anonEnumCount
    {
      (filename, line, dependencies, anonEnumCount)
    }

    constructor (cfg: Config)
      ensures this.cfg == cfg && fresh(tree) && tree.Valid()
      ensures tree.Snapshot() == Tree(map[], map[], map[], map[], map[], map[], map[], map[], map[], map[], [])
      ensures filename == [] && line == [] && previous == None && current == None && dependencies == {}
      ensures anonEnumCount == 0
    {
      this.cfg := cfg;
      tree := new ParserTree();
      filename, line := [], [];
      previous, current := None, None;
      dependencies := {};
      anonEnumCount := 0;
    }

    /** `updateLocation`: the file and line of the cursor being visited. */
    method UpdateLocation(location: map<string, string>)
      requires "filename" in location && "line" in location
      modifies this`filename, this`line
      ensures filename == location["filename"] && line == location["line"]
    {
      filename := location["filename"];
      line := location["line"];
    }

    /** `setCurrent`: the definition being built; the one before becomes the previous. */
    method SetCurrent(d: Option<nat>)
      modifies this`previous, this`current
      ensures previous == old(current) && current == d
    {
      previous := current;
      current := d;
    }

    /** `anonEnumCount++`: the number the next anonymous enum is named after. */
    method NextAnonEnum() returns (n: nat)
      modifies this`anonEnumCount
      ensures n == old(anonEnumCount) && anonEnumCount == n + 1
    {
      n := anonEnumCount;
      anonEnumCount := anonEnumCount + 1;
    }

    /** `getFrameworkName` for the current location. */
    function GetFrameworkName(): (r: string)
      reads this
      ensures r == FrameworkName(cfg, filename)
    {
      FrameworkName(cfg, filename)
    }

    /** `isFrameworkLocation`: inside the framework, or else recorded as a dependency. */
    method IsFrameworkLocation(location: string) returns (b: bool)
      modifies this`dependencies
      ensures b == InFramework(cfg, location)
      ensures dependencies == old(dependencies) + FrameworkCheck(cfg, location).recorded
    {
      if Strs.Contains(location, cfg.frameworkFilter) {
        return true;
      }
      dependencies := dependencies + {location};
      return false;
    }

    /** `excludeLocation`, recording dependencies as its framework test does. */
    method ExcludeLocation(location: string) returns (b: bool)
      modifies this`dependencies
      ensures b == ExcludeOutcome(cfg, location).excluded
      ensures dependencies == old(dependencies) + ExcludeOutcome(cfg, location).recorded
    {
      if SingleFramework(cfg) {
        var isCoreFoundation := Strs.Contains(cfg.frameworkFilter, "/CoreFoundation.framework");
        if isCoreFoundation {
          if IsSystemLocation(location) {
            return false;
          }
          var inside := IsFrameworkLocation(location);
          return !inside;
        }
        var isFoundation := Strs.Contains(cfg.frameworkFilter, "/Foundation.framework");
        if isFoundation && Strs.Contains(location, "NSObject.h") {
          return false;
        }
        var inside := IsFrameworkLocation(location);
        return !inside;
      }
      return cfg.excludeSys && (IsSystemLocation(location) || Strs.Contains(location, cfg.sdkPath));
    }
  }
}
