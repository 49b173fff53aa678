/**
 * `ParserTree::toJSON` of parser.cpp as a function of the tree: every
 * registry in the order the generator writes them, each one in key order,
 * definitions from excluded locations skipped, then the blocks and the
 * metadata. Serialising a definition may rewrite definitions behind the
 * tree's pointers, and the exclusion test records dependencies, so both
 * are threaded through.
 */
module Emit {
  import opened Wrappers
  import opened Strs
  import opened Json
  import opened Defs
  import opened ResolveJson
  import opened Kinds
  import opened Blocks
  import opened Locations
  import opened Order

  /** The name-keyed registries `toJSON` serialises one after the other. */
  datatype Section = Typedefs | Classes | Extensions | Protocols | Enums | Vars | Functions | Structs | Unions

  /** The order in which they appear in parser.cpp. */
  const SectionOrder: seq<Section> := [Typedefs, Classes, Extensions, Protocols, Enums, Vars, Functions, Structs, Unions]

  /** The member under which a registry's entries are written. */
  function SectionKey(s: Section): (r: string)
    ensures r != "blocks" && r != "metadata"
  {
    match s
    case Typedefs => "typedefs"
    case Classes => "classes"
    case Extensions => "extensions"
    case Protocols => "protocols"
    case Enums => "enums"
    case Vars => "vars"
    case Functions => "functions"
    case Structs => "structs"
    case Unions => "unions"
  }

  /** Each registry has a member of its own. */
  lemma SectionKeysDistinct(s: Section, u: Section)
    requires s != u
    ensures SectionKey(s) != SectionKey(u)
  {
  }

  /** Every section appears once in the walk. */
  lemma SectionOrderComplete(s: Section)
    ensures s in SectionOrder
  {
  }

  /** The registry a section reads. */
  function SectionRegistry(t: Tree, s: Section): (r: Registry)
    ensures ValidTree(t) ==> PointsInto(r, |t.store|)
  {
    match s
    case Typedefs => t.types
    case Classes => t.classes
    case Extensions => t.extensions
    case Protocols => t.protocols
    case Enums => t.enums
    case Vars => t.vars
    case Functions => t.functions
    case Structs => t.structs
    case Unions => t.unions
  }

  /**
   * The virtual `toJSON` of the definition `id` points to, dispatched on
   * its kind. A typedef whose encoding is synthesised is written back
   * with its resolved type; functions and parameter blocks resolve their
   * signature against the tree.
   */
  function DefToJSON(t: Tree, id: nat): (r: Result<Emitted>)
    requires ValidTree(t) && id < |t.store|
    ensures r.Ok? ==> SameRegistries(t, r.value.tree)
    ensures t.store[id].body.EnumBody? ==> r == Ok(Emitted(EnumJSON(t.store[id]), t))
    ensures t.store[id].body.StructBody? ==> r == Ok(Emitted(StructJSON(t.store[id]), t))
    ensures t.store[id].body.ClassBody? ==> r == Ok(Emitted(t.store[id].body.json, t))
  {
    var d := t.store[id];
    match d.body
    case TypedefBody(_) => TypedefEmitted(t, id)
    case EnumBody(_) => Ok(Emitted(EnumJSON(d), t))
    case StructBody(_, _) => Ok(Emitted(StructJSON(d), t))
    case FunctionBody(_, _, _) =>
      ResolverIsResolveEncoding();
      FunctionToJSON(Resolver(), t, d)
    case BlockBody(_, _, _) =>
      ResolverIsResolveEncoding();
      BlockParserToJSON(Resolver(), t, d)
    case ClassBody(json) => Ok(Emitted(json, t))
    case VarBody(json) => Ok(Emitted(json, t))
    case UnionBody(json) => Ok(Emitted(json, t))
  }

  /** A typedef's object, and the tree with the typedef as its serialiser rewrote it. */
  function TypedefEmitted(t: Tree, id: nat): (r: Result<Emitted>)
    requires ValidTree(t) && id < |t.store| && t.store[id].body.TypedefBody?
    ensures r.Ok? ==> SameRegistries(t, r.value.tree)
  {
    EncoderIsEncoder(t);
    match TypedefToJSON(Encoder(t), t.store[id])
    case Err(e) => Err(e)
    case Ok(x) =>
      assert x.1.body.TypedefBody? && x.1.filename == t.store[id].filename;
      PutKeepsRegistries(t, id, x.1);
      Ok(Emitted(x.0, t.(store := t.store[id := x.1])))
  }

  /** Replacing a definition by one of the same kind from the same file keeps the registries. */
  lemma PutKeepsRegistries(t: Tree, id: nat, d: Def)
    requires ValidTree(t) && id < |t.store| && d.filename == t.store[id].filename
    requires d.body.StructBody? == t.store[id].body.StructBody? && d.body.TypedefBody? == t.store[id].body.TypedefBody?
    ensures SameRegistries(t, t.(store := t.store[id := d]))
  {
  }

  /** A serialiser that keeps the promise of every `toJSON`: the tree keeps its registries. */
  ghost predicate IsSerialiser(ser: (Tree, nat) --> Result<Emitted>)
  {
    forall t: Tree, id: nat :: ValidTree(t) && id < |t.store| ==>
      ser.requires(t, id) && (ser(t, id).Ok? ==> SameRegistries(t, ser(t, id).value.tree))
  }

  /**
   * `DefToJSON` as a value, so that the registry walks below reason about
   * it through `IsSerialiser` alone.
   */
  function Serialiser(): (ser: (Tree, nat) --> Result<Emitted>)
  {
    (t: Tree, id: nat) requires ValidTree(t) && id < |t.store| => DefToJSON(t, id)
  }

  /** `Serialiser` is `DefToJSON` and keeps its promise. */
  lemma SerialiserIsDefToJSON()
    ensures IsSerialiser(Serialiser())
    ensures forall t: Tree, id: nat :: ValidTree(t) && id < |t.store| ==> Serialiser()(t, id) == DefToJSON(t, id)
  {
  }

  /** The entry `k` of `m` points to a definition whose location is not excluded. */
  predicate Kept(cfg: Config, t: Tree, m: Registry, k: string)
    requires k in m && PointsInto(m, |t.store|)
  {
    m[k].Some? && !ExcludeOutcome(cfg, t.store[m[k].value].filename).excluded
  }

  /**
   * What serialising some entries yields: the object keyed by entry, the
   * same values in visiting order, the tree as left, and the locations
   * recorded as dependencies.
   */
  datatype Emission = Emission(kv: map<string, Json>, items: seq<Json>, tree: Tree, deps: set<string>)

  /** The locations the exclusion test of entry `k` records. */
  function RecordedAt(cfg: Config, t: Tree, m: Registry, k: string): set<string>
    requires k in m && PointsInto(m, |t.store|)
  {
    if m[k].Some? then ExcludeOutcome(cfg, t.store[m[k].value].filename).recorded else {}
  }

  /** Trees with the same registries agree on which entries are kept and what their tests record. */
  lemma SameFilesSameOutcome(cfg: Config, t: Tree, u: Tree, m: Registry, k: string)
    requires SameRegistries(t, u) && ValidTree(t) && PointsInto(m, |t.store|) && k in m
    ensures Kept(cfg, t, m, k) == Kept(cfg, u, m, k)
    ensures RecordedAt(cfg, t, m, k) == RecordedAt(cfg, u, m, k)
  {
  }

  /**
   * One visit of the loop over a registry: a null entry is dereferenced
   * (an error), an excluded one is skipped, any other is serialised.
   */
  function EmitEntry(ser: (Tree, nat) --> Result<Emitted>, cfg: Config, done: Emission, m: Registry, k: string): (r: Result<Emission>)
    requires IsSerialiser(ser) && ValidTree(done.tree) && PointsInto(m, |done.tree.store|) && k in m
    ensures m[k].None? ==> r.Err?
    ensures r.Ok? ==> SameRegistries(done.tree, r.value.tree)
    ensures r.Ok? ==> forall j :: j in r.value.kv <==> j in done.kv || (j == k && Kept(cfg, done.tree, m, k))
    ensures r.Ok? ==> (r.value.items == [] <==> done.items == [] && !Kept(cfg, done.tree, m, k))
    ensures r.Ok? ==> r.value.deps == done.deps + RecordedAt(cfg, done.tree, m, k)
  {
    match m[k]
    case None => Err("null definition")
    case Some(id) =>
      var x := ExcludeOutcome(cfg, done.tree.store[id].filename);
      if x.excluded then Ok(Emission(done.kv, done.items, done.tree, done.deps + x.recorded))
      else
        match ser(done.tree, id)
        case Err(e) => Err(e)
        case Ok(y) => Ok(Emission(done.kv[k := JObj(y.kv)], done.items + [JObj(y.kv)], y.tree, done.deps + x.recorded))
  }

  /**
   * What the walk over `keys` promises: every entry was non-null, the
   * registries are kept, exactly the kept entries are written, the list of
   * values is empty exactly when none was kept, and the locations recorded
   * are those of the exclusion tests, all outside the framework.
   */
  ghost predicate Describes(cfg: Config, t: Tree, m: Registry, keys: seq<string>, e: Emission)
    requires ValidTree(t) && PointsInto(m, |t.store|) && forall k :: k in keys ==> k in m
  {
    (forall k :: k in keys ==> m[k].Some?)
    && SameRegistries(t, e.tree)
    && (forall k :: k in e.kv <==> k in keys && Kept(cfg, t, m, k))
    && (e.items == [] <==> forall k :: k in keys ==> !Kept(cfg, t, m, k))
    && (forall k :: k in keys ==> RecordedAt(cfg, t, m, k) <= e.deps)
    && (forall x :: x in e.deps ==> SingleFramework(cfg) && !InFramework(cfg, x))
  }

  /** The loop over one registry's entries, visiting `keys` in order. */
  function EmitEntries(ser: (Tree, nat) --> Result<Emitted>, cfg: Config, t: Tree, m: Registry, keys: seq<string>): (r: Result<Emission>)
    requires IsSerialiser(ser) && ValidTree(t) && PointsInto(m, |t.store|) && forall k :: k in keys ==> k in m
    decreases |keys|
    ensures r.Ok? ==> SameRegistries(t, r.value.tree)
  {
    if keys == [] then Ok(Emission(map[], [], t, {}))
    else
      var k := keys[|keys| - 1];
      assert forall j :: j in keys[..|keys| - 1] ==> j in keys;
      match EmitEntries(ser, cfg, t, m, keys[..|keys| - 1])
      case Err(e) => Err(e)
      case Ok(done) =>
        match EmitEntry(ser, cfg, done, m, k)
        case Err(e) => Err(e)
        case Ok(y) =>
          SameRegistriesTransitive(t, done.tree, y.tree);
          Ok(y)
  }

  /** What the walk over `keys` promises, by induction on the keys. */
  lemma {:induction false} EmitEntriesDescribes(ser: (Tree, nat) --> Result<Emitted>, cfg: Config, t: Tree, m: Registry, keys: seq<string>)
    requires IsSerialiser(ser) && ValidTree(t) && PointsInto(m, |t.store|) && forall k :: k in keys ==> k in m
    decreases |keys|
    ensures EmitEntries(ser, cfg, t, m, keys).Ok? ==> Describes(cfg, t, m, keys, EmitEntries(ser, cfg, t, m, keys).value)
  {
    if keys != [] {
      assert forall j :: j in keys[..|keys| - 1] ==> j in keys;
      EmitEntriesDescribes(ser, cfg, t, m, keys[..|keys| - 1]);
      var prefix := EmitEntries(ser, cfg, t, m, keys[..|keys| - 1]);
      if prefix.Ok? {
        var y := EmitEntry(ser, cfg, prefix.value, m, keys[|keys| - 1]);
        if y.Ok? {
          DescribesStep(ser, cfg, t, m, keys, prefix.value, y.value);
        }
      }
    }
  }

  lemma LastSplit(keys: seq<string>)
    requires keys != []
    ensures forall j :: j in keys <==> j in keys[..|keys| - 1] || j == keys[|keys| - 1]
  {
    assert keys == keys[..|keys| - 1] + [keys[|keys| - 1]];
  }

  /** One more visit extends what the walk promises by one key. */
  lemma DescribesStep(ser: (Tree, nat) --> Result<Emitted>, cfg: Config, t: Tree, m: Registry, keys: seq<string>, done: Emission, y: Emission)
    requires IsSerialiser(ser) && ValidTree(t) && PointsInto(m, |t.store|) && forall k :: k in keys ==> k in m
    requires keys != [] && forall j :: j in keys[..|keys| - 1] ==> j in keys
    requires Describes(cfg, t, m, keys[..|keys| - 1], done)
    requires EmitEntry(ser, cfg, done, m, keys[|keys| - 1]) == Ok(y)
    ensures Describes(cfg, t, m, keys, y)
  {
    var k := keys[|keys| - 1];
    LastSplit(keys);
    SameRegistriesTransitive(t, done.tree, y.tree);
    SameFilesSameOutcome(cfg, t, done.tree, m, k);
  }

  /** Once the walk over a prefix of the keys fails, the walk over all of them fails. */
  lemma {:induction false} EmitEntriesPrefixErr(ser: (Tree, nat) --> Result<Emitted>, cfg: Config, t: Tree, m: Registry, keys: seq<string>, n: nat)
    requires IsSerialiser(ser) && ValidTree(t) && PointsInto(m, |t.store|) && forall k :: k in keys ==> k in m
    requires n <= |keys|
    requires forall k :: k in keys[..n] ==> k in m
    requires EmitEntries(ser, cfg, t, m, keys[..n]).Err?
    ensures EmitEntries(ser, cfg, t, m, keys).Err?
    decreases |keys| - n
  {
    if n < |keys| {
      assert keys[..n + 1][..n] == keys[..n];
      assert forall k :: k in keys[..n + 1] ==> k in keys;
      EmitEntriesPrefixErr(ser, cfg, t, m, keys, n + 1);
    } else {
      assert keys[..n] == keys;
    }
  }

  /** The walk over one more key is one more visit after the walk over the prefix. */
  lemma EmitEntriesNext(ser: (Tree, nat) --> Result<Emitted>, cfg: Config, t: Tree, m: Registry, keys: seq<string>, i: nat, done: Emission)
    requires IsSerialiser(ser) && ValidTree(t) && PointsInto(m, |t.store|) && (forall k :: k in keys ==> k in m) && i < |keys|
    requires (forall k :: k in keys[..i] ==> k in m) && EmitEntries(ser, cfg, t, m, keys[..i]) == Ok(done)
    ensures forall k :: k in keys[..i + 1] ==> k in m
    ensures ValidTree(done.tree) && PointsInto(m, |done.tree.store|)
    ensures EmitEntries(ser, cfg, t, m, keys[..i + 1]) == EmitEntry(ser, cfg, done, m, keys[i])
  {
    assert keys[..i + 1][..i] == keys[..i];
    assert forall k :: k in keys[..i + 1] ==> k in keys;
  }

  /** Some entry of `m` is kept. */
  ghost predicate SomeKept(cfg: Config, t: Tree, m: Registry)
    requires PointsInto(m, |t.store|)
  {
    exists k :: k in m && Kept(cfg, t, m, k)
  }

  /** What serialising the whole registry `m` promises (`Describes` over all its keys). */
  ghost predicate RegistryDescribes(cfg: Config, t: Tree, m: Registry, e: Emission)
    requires ValidTree(t) && PointsInto(m, |t.store|)
  {
    (forall k :: k in m ==> m[k].Some?)
    && SameRegistries(t, e.tree)
    && (forall k :: k in e.kv <==> k in m && Kept(cfg, t, m, k))
    && (e.items == [] <==> !SomeKept(cfg, t, m))
    && (forall k :: k in m ==> RecordedAt(cfg, t, m, k) <= e.deps)
    && (forall x :: x in e.deps ==> SingleFramework(cfg) && !InFramework(cfg, x))
  }

  /** A registry serialised in key order, the order `std::map` iteration visits it. */
  ghost function EmitRegistry(ser: (Tree, nat) --> Result<Emitted>, cfg: Config, t: Tree, m: Registry): (r: Result<Emission>)
    requires IsSerialiser(ser) && ValidTree(t) && PointsInto(m, |t.store|)
    ensures r.Ok? ==> SameRegistries(t, r.value.tree)
  {
    EmitEntries(ser, cfg, t, m, SortedKeys(m.Keys))
  }

  /** What serialising a whole registry promises. */
  lemma EmitRegistryDescribes(ser: (Tree, nat) --> Result<Emitted>, cfg: Config, t: Tree, m: Registry)
    requires IsSerialiser(ser) && ValidTree(t) && PointsInto(m, |t.store|)
    ensures EmitRegistry(ser, cfg, t, m).Ok? ==> RegistryDescribes(cfg, t, m, EmitRegistry(ser, cfg, t, m).value)
  {
    var keys := SortedKeys(m.Keys);
    EmitEntriesDescribes(ser, cfg, t, m, keys);
    if EmitRegistry(ser, cfg, t, m).Ok? {
      DescribesRegistry(cfg, t, m, keys, EmitRegistry(ser, cfg, t, m).value);
    }
  }

  /** A walk over exactly the registry's keys describes the registry. */
  lemma DescribesRegistry(cfg: Config, t: Tree, m: Registry, keys: seq<string>, e: Emission)
    requires ValidTree(t) && PointsInto(m, |t.store|) && forall k :: k in keys <==> k in m
    requires Describes(cfg, t, m, keys, e)
    ensures RegistryDescribes(cfg, t, m, e)
  {
    assert (forall k :: k in keys ==> !Kept(cfg, t, m, k)) <==> !SomeKept(cfg, t, m);
  }

  /** What a registry's walk promises about one tree holds for any tree with the same registries. */
  lemma RegistryDescribesTransfer(cfg: Config, t: Tree, u: Tree, m: Registry, e: Emission)
    requires ValidTree(t) && SameRegistries(t, u) && PointsInto(m, |t.store|)
    requires RegistryDescribes(cfg, u, m, e)
    ensures RegistryDescribes(cfg, t, m, e)
  {
    SameRegistriesTransitive(t, u, e.tree);
    forall k | k in m
      ensures Kept(cfg, t, m, k) == Kept(cfg, u, m, k) && RecordedAt(cfg, t, m, k) == RecordedAt(cfg, u, m, k)
    {
      SameFilesSameOutcome(cfg, t, u, m, k);
    }
  }

  /**
   * What the walk over `sections` promises: the registries are kept, each
   * member written is a section's, a section's member is present exactly
   * when one of its entries is kept and holds exactly the kept entries,
   * every entry was non-null, and the recorded locations are those of all
   * exclusion tests, all outside the framework.
   */
  ghost predicate SectionsDescribe(cfg: Config, t: Tree, sections: seq<Section>, e: Emission)
    requires ValidTree(t)
  {
    SameRegistries(t, e.tree) && e.items == []
    && (forall key :: key in e.kv ==> exists s :: s in sections && key == SectionKey(s))
    && (forall s :: s in sections ==> SectionDescribed(cfg, t, s, e))
    && (forall x :: x in e.deps ==> SingleFramework(cfg) && !InFramework(cfg, x))
  }

  /** The part of `SectionsDescribe` about one section. */
  ghost predicate SectionDescribed(cfg: Config, t: Tree, s: Section, e: Emission)
    requires ValidTree(t)
  {
    var m := SectionRegistry(t, s);
    (forall k :: k in m ==> m[k].Some? && RecordedAt(cfg, t, m, k) <= e.deps)
    && (SectionKey(s) in e.kv <==> SomeKept(cfg, t, m))
    && (SectionKey(s) in e.kv ==>
          e.kv[SectionKey(s)].JObj? && forall k :: k in e.kv[SectionKey(s)].fields <==> k in m && Kept(cfg, t, m, k))
  }

  /** No section is visited twice. */
  predicate Distinct(sections: seq<Section>)
  {
    forall i, j :: 0 <= i < j < |sections| ==> sections[i] != sections[j]
  }

  /**
   * The registries `sections` in order: each one's object goes under the
   * section's member, and only when at least one entry was written.
   */
  ghost function EmitSections(ser: (Tree, nat) --> Result<Emitted>, cfg: Config, t: Tree, sections: seq<Section>): (r: Result<Emission>)
    requires IsSerialiser(ser) && ValidTree(t)
    decreases |sections|, t
    ensures r.Ok? ==> SameRegistries(t, r.value.tree)
  {
    if sections == [] then Ok(Emission(map[], [], t, {}))
    else
      var s := sections[|sections| - 1];
      match EmitSections(ser, cfg, t, sections[..|sections| - 1])
      case Err(e) => Err(e)
      case Ok(done) =>
        match EmitRegistry(ser, cfg, done.tree, SectionRegistry(done.tree, s))
        case Err(e) => Err(e)
        case Ok(e) =>
          SameRegistriesTransitive(t, done.tree, e.tree);
          var kv := if e.items == [] then done.kv else done.kv[SectionKey(s) := JObj(e.kv)];
          Ok(Emission(kv, [], e.tree, done.deps + e.deps))
  }

  /** What the walk over `sections` promises, by induction on the sections. */
  lemma {:induction false} EmitSectionsDescribes(ser: (Tree, nat) --> Result<Emitted>, cfg: Config, t: Tree, sections: seq<Section>)
    requires IsSerialiser(ser) && ValidTree(t) && Distinct(sections)
    decreases |sections|
    ensures EmitSections(ser, cfg, t, sections).Ok? ==> SectionsDescribe(cfg, t, sections, EmitSections(ser, cfg, t, sections).value)
  {
    if sections != [] {
      var s := sections[|sections| - 1];
      LastSection(sections);
      EmitSectionsDescribes(ser, cfg, t, sections[..|sections| - 1]);
      var prefix := EmitSections(ser, cfg, t, sections[..|sections| - 1]);
      if prefix.Ok? {
        var done := prefix.value;
        EmitRegistryDescribes(ser, cfg, done.tree, SectionRegistry(done.tree, s));
        var e := EmitRegistry(ser, cfg, done.tree, SectionRegistry(done.tree, s));
        if e.Ok? {
          var kv := if e.value.items == [] then done.kv else done.kv[SectionKey(s) := JObj(e.value.kv)];
          SectionsStep(cfg, t, sections, done, e.value, Emission(kv, [], e.value.tree, done.deps + e.value.deps));
        }
      }
    }
  }

  /** One more section extends what the walk promises. */
  lemma SectionsStep(cfg: Config, t: Tree, sections: seq<Section>, done: Emission, e: Emission, r: Emission)
    requires ValidTree(t) && sections != [] && Distinct(sections)
    requires SectionsDescribe(cfg, t, sections[..|sections| - 1], done)
    requires RegistryDescribes(cfg, done.tree, SectionRegistry(done.tree, sections[|sections| - 1]), e)
    requires var s := sections[|sections| - 1];
             r == Emission(if e.items == [] then done.kv else done.kv[SectionKey(s) := JObj(e.kv)], [], e.tree, done.deps + e.deps)
    ensures SectionsDescribe(cfg, t, sections, r)
  {
    var prefix := sections[..|sections| - 1];
    var s := sections[|sections| - 1];
    var m := SectionRegistry(t, s);
    SameSectionRegistry(t, done.tree, s);
    RegistryDescribesTransfer(cfg, t, done.tree, m, e);
    SameRegistriesTransitive(t, done.tree, e.tree);
    LastSection(sections);
    SectionFresh(cfg, t, prefix, done, s);
    SectionNew(cfg, t, s, done, e, r);
    if e.items != [] {
      UpdateAgreesOff(done.kv, SectionKey(s), JObj(e.kv));
    }
    SectionsOld(cfg, t, prefix, s, done, r);
  }

  /** Two objects that agree on every member but `key`. */
  ghost predicate AgreesOff(a: map<string, Json>, b: map<string, Json>, key: string)
  {
    (forall k :: k != key ==> (k in a <==> k in b)) && forall k :: k != key && k in b ==> a[k] == b[k]
  }

  lemma UpdateAgreesOff(m: map<string, Json>, key: string, v: Json)
    ensures AgreesOff(m[key := v], m, key)
  {
  }

  /** The sections visited earlier keep their members. */
  lemma SectionsOld(cfg: Config, t: Tree, prefix: seq<Section>, s: Section, done: Emission, r: Emission)
    requires ValidTree(t) && s !in prefix && done.deps <= r.deps
    requires forall u :: u in prefix ==> SectionDescribed(cfg, t, u, done)
    requires AgreesOff(r.kv, done.kv, SectionKey(s))
    ensures forall u :: u in prefix ==> SectionDescribed(cfg, t, u, r)
  {
    forall u | u in prefix
      ensures SectionDescribed(cfg, t, u, r)
    {
      SectionKeysDistinct(u, s);
      SectionOld(cfg, t, u, done, r);
    }
  }

  /** Trees with the same registries have the same sections. */
  lemma SameSectionRegistry(t: Tree, u: Tree, s: Section)
    requires SameRegistries(t, u)
    ensures SectionRegistry(u, s) == SectionRegistry(t, s)
  {
    assert u == t.(store := u.store);
  }

  /** The last section visited, and the ones before it. */
  lemma LastSection(sections: seq<Section>)
    requires sections != [] && Distinct(sections)
    ensures forall u :: u in sections <==> u in sections[..|sections| - 1] || u == sections[|sections| - 1]
    ensures sections[|sections| - 1] !in sections[..|sections| - 1]
    ensures Distinct(sections[..|sections| - 1])
  {
    assert sections == sections[..|sections| - 1] + [sections[|sections| - 1]];
  }

  /** A section not yet visited has no member. */
  lemma SectionFresh(cfg: Config, t: Tree, prefix: seq<Section>, done: Emission, s: Section)
    requires ValidTree(t) && SectionsDescribe(cfg, t, prefix, done) && s !in prefix
    ensures SectionKey(s) !in done.kv
  {
    if SectionKey(s) in done.kv {
      var u :| u in prefix && SectionKey(s) == SectionKey(u);
      SectionKeysDistinct(u, s);
    }
  }

  /** The section just visited is described by its registry's walk. */
  lemma SectionNew(cfg: Config, t: Tree, s: Section, done: Emission, e: Emission, r: Emission)
    requires ValidTree(t) && RegistryDescribes(cfg, t, SectionRegistry(t, s), e) && SectionKey(s) !in done.kv
    requires r.kv == (if e.items == [] then done.kv else done.kv[SectionKey(s) := JObj(e.kv)]) && e.deps <= r.deps
    ensures SectionDescribed(cfg, t, s, r)
  {
  }

  /** A section visited earlier keeps its member. */
  lemma SectionOld(cfg: Config, t: Tree, u: Section, done: Emission, r: Emission)
    requires ValidTree(t) && SectionDescribed(cfg, t, u, done) && done.deps <= r.deps
    requires SectionKey(u) in r.kv <==> SectionKey(u) in done.kv
    requires SectionKey(u) in done.kv ==> r.kv[SectionKey(u)] == done.kv[SectionKey(u)]
    ensures SectionDescribed(cfg, t, u, r)
  {
  }

  // ------------------------------------------------------------------ blocks

  /** Trees with the same registries have the same blocks. */
  lemma SameBlocks(t: Tree, u: Tree)
    requires SameRegistries(t, u)
    ensures u.blocks == t.blocks
  {
    assert u == t.(store := u.store);
  }

  /**
   * What the walk over the block names `names` promises: the registries
   * are kept, a name has a member exactly when one of its blocks is kept,
   * and that member is a non-empty array; every block entry was non-null;
   * the recorded locations are those of all exclusion tests, all outside
   * the framework.
   */
  ghost predicate BlocksDescribe(cfg: Config, t: Tree, names: seq<string>, e: Emission)
    requires ValidTree(t) && forall n :: n in names ==> n in t.blocks
  {
    SameRegistries(t, e.tree) && e.items == []
    && (forall n :: n in e.kv <==> n in names && SomeKept(cfg, t, t.blocks[n]))
    && (forall n :: n in e.kv ==> e.kv[n].JArr? && e.kv[n].items != [])
    && (forall n :: n in names ==> forall k :: k in t.blocks[n] ==> t.blocks[n][k].Some? && RecordedAt(cfg, t, t.blocks[n], k) <= e.deps)
    && (forall x :: x in e.deps ==> SingleFramework(cfg) && !InFramework(cfg, x))
  }

  /** The signatures registered under a block name, none when the name is new. */
  function BlockSet(blocks: map<string, Registry>, name: string): (r: Registry)
    ensures name in blocks ==> r == blocks[name]
    ensures name !in blocks ==> r == map[]
  {
    if name in blocks then blocks[name] else map[]
  }

  /** The blocks of a tree registered under a name. */
  function BlocksOf(t: Tree, name: string): (r: Registry)
    ensures ValidTree(t) ==> PointsInto(r, |t.store|)
    ensures name in t.blocks ==> r == t.blocks[name]
  {
    BlockSet(t.blocks, name)
  }

  /**
   * The blocks loop: for each name in `names`, its blocks in signature
   * order, appended to an array written under the name when at least one
   * of them was kept.
   */
  ghost function EmitBlocks(ser: (Tree, nat) --> Result<Emitted>, cfg: Config, t: Tree, names: seq<string>): (r: Result<Emission>)
    requires IsSerialiser(ser) && ValidTree(t)
    decreases |names|
    ensures r.Ok? ==> SameRegistries(t, r.value.tree)
  {
    if names == [] then Ok(Emission(map[], [], t, {}))
    else
      var name := names[|names| - 1];
      match EmitBlocks(ser, cfg, t, names[..|names| - 1])
      case Err(e) => Err(e)
      case Ok(done) =>
        match EmitRegistry(ser, cfg, done.tree, BlocksOf(done.tree, name))
        case Err(e) => Err(e)
        case Ok(e) =>
          SameRegistriesTransitive(t, done.tree, e.tree);
          var kv := if e.items == [] then done.kv else done.kv[name := JArr(e.items)];
          Ok(Emission(kv, [], e.tree, done.deps + e.deps))
  }

  /** What the blocks loop over `names` promises, by induction on the names. */
  lemma {:induction false} EmitBlocksDescribes(ser: (Tree, nat) --> Result<Emitted>, cfg: Config, t: Tree, names: seq<string>)
    requires IsSerialiser(ser) && ValidTree(t) && forall n :: n in names ==> n in t.blocks
    decreases |names|
    ensures EmitBlocks(ser, cfg, t, names).Ok? ==> BlocksDescribe(cfg, t, names, EmitBlocks(ser, cfg, t, names).value)
  {
    if names != [] {
      var name := names[|names| - 1];
      assert forall n :: n in names[..|names| - 1] ==> n in names;
      EmitBlocksDescribes(ser, cfg, t, names[..|names| - 1]);
      var prefix := EmitBlocks(ser, cfg, t, names[..|names| - 1]);
      if prefix.Ok? {
        var done := prefix.value;
        SameBlocks(t, done.tree);
        EmitRegistryDescribes(ser, cfg, done.tree, BlocksOf(done.tree, name));
        var e := EmitRegistry(ser, cfg, done.tree, BlocksOf(done.tree, name));
        if e.Ok? {
          var kv := if e.value.items == [] then done.kv else done.kv[name := JArr(e.value.items)];
          BlocksStep(cfg, t, names, done, e.value, Emission(kv, [], e.value.tree, done.deps + e.value.deps));
        }
      }
    }
  }

  /** One more name extends what the blocks loop promises. */
  lemma BlocksStep(cfg: Config, t: Tree, names: seq<string>, done: Emission, e: Emission, r: Emission)
    requires ValidTree(t) && names != [] && forall n :: n in names ==> n in t.blocks
    requires forall n :: n in names[..|names| - 1] ==> n in names
    requires BlocksDescribe(cfg, t, names[..|names| - 1], done)
    requires done.tree.blocks == t.blocks
    requires RegistryDescribes(cfg, done.tree, t.blocks[names[|names| - 1]], e)
    requires var name := names[|names| - 1];
             r == Emission(if e.items == [] then done.kv else done.kv[name := JArr(e.items)], [], e.tree, done.deps + e.deps)
    ensures BlocksDescribe(cfg, t, names, r)
  {
    var name := names[|names| - 1];
    RegistryDescribesTransfer(cfg, t, done.tree, t.blocks[name], e);
    SameRegistriesTransitive(t, done.tree, e.tree);
    LastSplit(names);
    BlocksKv(cfg, t, names[..|names| - 1], name, done, e, r);
  }

  /** The members of the blocks object after one more name. */
  lemma BlocksKv(cfg: Config, t: Tree, prefix: seq<string>, name: string, done: Emission, e: Emission, r: Emission)
    requires ValidTree(t) && name in t.blocks && forall n :: n in prefix ==> n in t.blocks
    requires forall n :: n in done.kv <==> n in prefix && SomeKept(cfg, t, t.blocks[n])
    requires forall n :: n in done.kv ==> done.kv[n].JArr? && done.kv[n].items != []
    requires e.items == [] <==> !SomeKept(cfg, t, t.blocks[name])
    requires r.kv == if e.items == [] then done.kv else done.kv[name := JArr(e.items)]
    ensures forall n :: n in r.kv <==> (n in prefix || n == name) && SomeKept(cfg, t, t.blocks[n])
    ensures forall n :: n in r.kv ==> r.kv[n].JArr? && r.kv[n].items != []
  {
    forall n ensures n in r.kv <==> (n in prefix || n == name) && SomeKept(cfg, t, t.blocks[n]) {
      if n != name {
        assert n in r.kv <==> n in done.kv;
      }
    }
  }

  // -------------------------------------------------------------- the tree

  /**
   * The `metadata` member: the API version, the platform for an iPhone
   * SDK, the SDK path and minimum version, the dependencies in order, and
   * whether system APIs were kept. The generation time is not modelled.
   */
  function Metadata(cfg: Config, deps: seq<string>): (r: map<string, Json>)
    ensures r.Keys == {"api-version", "sdk-path", "min-version", "dependencies", "system-generated"}
                      + (if Contains(cfg.sdkPath, "iPhone") then {"platform"} else {})
    ensures r["api-version"] == JStr("1")
    ensures "platform" in r <==> Contains(cfg.sdkPath, "iPhone")
    ensures "platform" in r ==> r["platform"] == JStr("ios")
    ensures r["sdk-path"] == JStr(cfg.sdkPath) && r["min-version"] == JStr(cfg.minVersion)
    ensures r["dependencies"] == JArr(seq(|deps|, i requires 0 <= i < |deps| => JStr(deps[i])))
    ensures r["system-generated"] == JStr(if cfg.excludeSys then "false" else "true")
  {
    var kv := map["api-version" := JStr("1")];
    var kv := if Contains(cfg.sdkPath, "iPhone") then kv["platform" := JStr("ios")] else kv;
    kv["sdk-path" := JStr(cfg.sdkPath)]["min-version" := JStr(cfg.minVersion)]
      ["dependencies" := JArr(seq(|deps|, i requires 0 <= i < |deps| => JStr(deps[i])))]
      ["system-generated" := JStr(if cfg.excludeSys then "false" else "true")]
  }

  /**
   * The object `toJSON` returns: the registries' members, `blocks` when
   * the blocks object is not empty, and `metadata`.
   */
  function Assemble(cfg: Config, sections: map<string, Json>, blocks: map<string, Json>, deps: seq<string>): (r: map<string, Json>)
    requires "blocks" !in sections && "metadata" !in sections
    ensures "metadata" in r && r["metadata"] == JObj(Metadata(cfg, deps))
    ensures "blocks" in r <==> blocks != map[]
    ensures "blocks" in r ==> r["blocks"] == JObj(blocks)
    ensures forall k :: k != "blocks" && k != "metadata" ==> (k in r <==> k in sections)
    ensures forall k :: k in sections ==> r[k] == sections[k]
  {
    var kv := if blocks == map[] then sections else sections["blocks" := JObj(blocks)];
    kv["metadata" := JObj(Metadata(cfg, deps))]
  }

  /** The generator's output, the tree as serialising left it, and the context's dependencies. */
  datatype Output = Output(json: map<string, Json>, tree: Tree, deps: set<string>)

  /** Some entry of some registry is null. */
  ghost predicate SomeNull(t: Tree)
  {
    (exists s, k :: k in SectionRegistry(t, s) && SectionRegistry(t, s)[k].None?)
    || exists n, k :: n in t.blocks && k in t.blocks[n] && t.blocks[n][k].None?
  }

  /**
   * `ParserTree::toJSON` with the context's dependencies `deps0` before
   * it runs. A registry's member is present exactly when one of its
   * entries is kept, and then holds exactly the kept entries; `blocks` is
   * present exactly when some block is kept; `metadata` is always there
   * and lists the dependencies in order; nothing else is written. The
   * dependencies only grow, by locations outside the framework, and the
   * registries are as they were. A null entry, left by a lookup of an
   * absent name, is dereferenced: an error.
   */
  ghost function TreeJSON(ser: (Tree, nat) --> Result<Emitted>, cfg: Config, t: Tree, deps0: set<string>): (r: Result<Output>)
    requires IsSerialiser(ser) && ValidTree(t)
    ensures SomeNull(t) ==> r.Err?
    ensures r.Ok? ==> OutputDescribes(cfg, t, deps0, r.value)
  {
    SectionOrderDistinct();
    EmitSectionsDescribes(ser, cfg, t, SectionOrder);
    match EmitSections(ser, cfg, t, SectionOrder)
    case Err(e) => Err(e)
    case Ok(a) =>
      SameBlocks(t, a.tree);
      var names := SortedKeys(a.tree.blocks.Keys);
      EmitBlocksDescribes(ser, cfg, a.tree, names);
      match EmitBlocks(ser, cfg, a.tree, names)
      case Err(e) => Err(e)
      case Ok(b) =>
        SectionsKeys(cfg, t, SectionOrder, a);
        var deps := deps0 + a.deps + b.deps;
        Assembled(cfg, t, deps0, a, b, names);
        Ok(Output(Assemble(cfg, a.kv, b.kv, SortedKeys(deps)), b.tree, deps))
  }

  lemma SectionOrderDistinct()
    ensures Distinct(SectionOrder)
  {
  }

  /** What `TreeJSON` promises about a successful run. */
  ghost predicate OutputDescribes(cfg: Config, t: Tree, deps0: set<string>, o: Output)
    requires ValidTree(t)
  {
    SameRegistries(t, o.tree)
    && OutputSections(cfg, t, o.json)
    && ("blocks" in o.json <==> exists n :: n in t.blocks && SomeKept(cfg, t, t.blocks[n]))
    && "metadata" in o.json && o.json["metadata"] == JObj(Metadata(cfg, SortedKeys(o.deps)))
    && (forall k :: k in o.json ==> k == "metadata" || k == "blocks" || exists s :: k == SectionKey(s))
    && deps0 <= o.deps && (forall x :: x in o.deps - deps0 ==> SingleFramework(cfg) && !InFramework(cfg, x))
  }

  /** The output assembled from the walks over the registries and over the blocks. */
  lemma Assembled(cfg: Config, t: Tree, deps0: set<string>, a: Emission, b: Emission, names: seq<string>)
    requires ValidTree(t) && SectionsDescribe(cfg, t, SectionOrder, a)
    requires "blocks" !in a.kv && "metadata" !in a.kv
    requires names == SortedKeys(a.tree.blocks.Keys) && a.tree.blocks == t.blocks
    requires BlocksDescribe(cfg, a.tree, names, b)
    ensures var deps := deps0 + a.deps + b.deps;
            OutputDescribes(cfg, t, deps0, Output(Assemble(cfg, a.kv, b.kv, SortedKeys(deps)), b.tree, deps))
    ensures !SomeNull(t)
  {
    var deps := deps0 + a.deps + b.deps;
    SameRegistriesTransitive(t, a.tree, b.tree);
    AssembledSections(cfg, t, a, b.kv, SortedKeys(deps));
    BlocksPresent(cfg, t, a.tree, names, b);
    NoNullEntry(cfg, t, a, b, names);
  }

  /** The registries' part of the output, as `TreeJSON` describes it. */
  ghost predicate OutputSections(cfg: Config, t: Tree, json: map<string, Json>)
    requires ValidTree(t)
  {
    (forall s :: SectionKey(s) in json <==> SomeKept(cfg, t, SectionRegistry(t, s)))
    && (forall s :: SectionKey(s) in json ==>
          json[SectionKey(s)].JObj?
          && forall k :: k in json[SectionKey(s)].fields <==> k in SectionRegistry(t, s) && Kept(cfg, t, SectionRegistry(t, s), k))
  }

  /** The registries' members are the sections' keys, never `blocks` nor `metadata`. */
  lemma SectionsKeys(cfg: Config, t: Tree, sections: seq<Section>, a: Emission)
    requires ValidTree(t) && SectionsDescribe(cfg, t, sections, a)
    ensures "blocks" !in a.kv && "metadata" !in a.kv
  {
  }

  /** Every section is walked, so the output describes every registry. */
  lemma AssembledSections(cfg: Config, t: Tree, a: Emission, blocks: map<string, Json>, deps: seq<string>)
    requires ValidTree(t) && SectionsDescribe(cfg, t, SectionOrder, a)
    requires "blocks" !in a.kv && "metadata" !in a.kv
    ensures OutputSections(cfg, t, Assemble(cfg, a.kv, blocks, deps))
  {
    var json := Assemble(cfg, a.kv, blocks, deps);
    forall s
      ensures (SectionKey(s) in json <==> SomeKept(cfg, t, SectionRegistry(t, s)))
      ensures SectionKey(s) in json ==>
                json[SectionKey(s)].JObj?
                && forall k :: k in json[SectionKey(s)].fields <==> k in SectionRegistry(t, s) && Kept(cfg, t, SectionRegistry(t, s), k)
    {
      SectionOrderComplete(s);
      SectionInOutput(cfg, t, s, a, blocks, deps);
    }
  }

  /** One registry's member in the output is its section's. */
  lemma SectionInOutput(cfg: Config, t: Tree, s: Section, a: Emission, blocks: map<string, Json>, deps: seq<string>)
    requires ValidTree(t) && SectionDescribed(cfg, t, s, a)
    requires "blocks" !in a.kv && "metadata" !in a.kv
    ensures var json := Assemble(cfg, a.kv, blocks, deps);
            (SectionKey(s) in json <==> SomeKept(cfg, t, SectionRegistry(t, s)))
            && (SectionKey(s) in json ==>
                  json[SectionKey(s)].JObj?
                  && forall k :: k in json[SectionKey(s)].fields <==> k in SectionRegistry(t, s) && Kept(cfg, t, SectionRegistry(t, s), k))
  {
  }

  /** A walk that succeeded met no null entry. */
  lemma NoNullEntry(cfg: Config, t: Tree, a: Emission, b: Emission, names: seq<string>)
    requires ValidTree(t) && SectionsDescribe(cfg, t, SectionOrder, a)
    requires names == SortedKeys(a.tree.blocks.Keys) && a.tree.blocks == t.blocks
    requires BlocksDescribe(cfg, a.tree, names, b)
    ensures !SomeNull(t)
  {
    forall s, k | k in SectionRegistry(t, s)
      ensures SectionRegistry(t, s)[k].Some?
    {
      SectionOrderComplete(s);
    }
    forall n, k | n in t.blocks && k in t.blocks[n]
      ensures t.blocks[n][k].Some?
    {
      assert n in names;
    }
  }

  /** The blocks object is empty exactly when no block is kept. */
  lemma BlocksPresent(cfg: Config, t: Tree, u: Tree, names: seq<string>, b: Emission)
    requires ValidTree(t) && SameRegistries(t, u) && names == SortedKeys(u.blocks.Keys)
    requires forall n :: n in names ==> n in u.blocks
    requires BlocksDescribe(cfg, u, names, b)
    ensures b.kv == map[] <==> !exists n :: n in t.blocks && SomeKept(cfg, t, t.blocks[n])
  {
    SameBlocks(t, u);
    forall n | n in t.blocks
      ensures SomeKept(cfg, t, t.blocks[n]) == SomeKept(cfg, u, t.blocks[n])
    {
      forall k | k in t.blocks[n] ensures Kept(cfg, t, t.blocks[n], k) == Kept(cfg, u, t.blocks[n], k) {
        SameFilesSameOutcome(cfg, t, u, t.blocks[n], k);
      }
    }
    if b.kv != map[] {
      var n :| n in b.kv;
    }
  }

  lemma UnionAssoc(a: set<string>, b: set<string>, c: set<string>)
    ensures a + b + c == a + (b + c)
  {
  }

  /** The walk over one more section writes that section's registry after the earlier ones. */
  lemma EmitSectionsNext(ser: (Tree, nat) --> Result<Emitted>, cfg: Config, t: Tree, sections: seq<Section>, i: nat,
                         done: Emission, e: Result<Emission>, kv: map<string, Json>)
    requires IsSerialiser(ser) && ValidTree(t) && i < |sections|
    requires EmitSections(ser, cfg, t, sections[..i]) == Ok(done)
    requires var m := SectionRegistry(done.tree, sections[i]); e == EmitEntries(ser, cfg, done.tree, m, SortedKeys(m.Keys))
    requires e.Ok? ==> kv == if e.value.items == [] then done.kv else done.kv[SectionKey(sections[i]) := JObj(e.value.kv)]
    ensures e.Err? ==> EmitSections(ser, cfg, t, sections[..i + 1]).Err?
    ensures e.Ok? ==> EmitSections(ser, cfg, t, sections[..i + 1]) == Ok(Emission(kv, [], e.value.tree, done.deps + e.value.deps))
  {
    assert sections[..i + 1][..i] == sections[..i];
  }

  /** The blocks loop over one more name writes that name's blocks after the earlier ones. */
  lemma EmitBlocksNext(ser: (Tree, nat) --> Result<Emitted>, cfg: Config, t: Tree, names: seq<string>, i: nat,
                       done: Emission, e: Result<Emission>, kv: map<string, Json>)
    requires IsSerialiser(ser) && ValidTree(t) && i < |names|
    requires EmitBlocks(ser, cfg, t, names[..i]) == Ok(done)
    requires var m := BlocksOf(done.tree, names[i]); e == EmitEntries(ser, cfg, done.tree, m, SortedKeys(m.Keys))
    requires e.Ok? ==> kv == if e.value.items == [] then done.kv else done.kv[names[i] := JArr(e.value.items)]
    ensures e.Err? ==> EmitBlocks(ser, cfg, t, names[..i + 1]).Err?
    ensures e.Ok? ==> EmitBlocks(ser, cfg, t, names[..i + 1]) == Ok(Emission(kv, [], e.value.tree, done.deps + e.value.deps))
  {
    assert names[..i + 1][..i] == names[..i];
  }

  /** Once the walk over a prefix of the sections fails, the whole walk fails. */
  lemma {:induction false} EmitSectionsPrefixErr(ser: (Tree, nat) --> Result<Emitted>, cfg: Config, t: Tree, sections: seq<Section>, n: nat)
    requires IsSerialiser(ser) && ValidTree(t) && n <= |sections|
    requires EmitSections(ser, cfg, t, sections[..n]).Err?
    ensures EmitSections(ser, cfg, t, sections).Err?
    decreases |sections| - n
  {
    if n < |sections| {
      assert sections[..n + 1][..n] == sections[..n];
      EmitSectionsPrefixErr(ser, cfg, t, sections, n + 1);
    } else {
      assert sections[..n] == sections;
    }
  }

  /** Once the blocks loop over a prefix of the names fails, the whole loop fails. */
  lemma {:induction false} EmitBlocksPrefixErr(ser: (Tree, nat) --> Result<Emitted>, cfg: Config, t: Tree, names: seq<string>, n: nat)
    requires IsSerialiser(ser) && ValidTree(t) && n <= |names|
    requires EmitBlocks(ser, cfg, t, names[..n]).Err?
    ensures EmitBlocks(ser, cfg, t, names).Err?
    decreases |names| - n
  {
    if n < |names| {
      assert names[..n + 1][..n] == names[..n];
      EmitBlocksPrefixErr(ser, cfg, t, names, n + 1);
    } else {
      assert names[..n] == names;
    }
  }

  // -------------------------------------------------- with the real toJSON

  /** The blocks loop over every name, in order. */
  ghost function WalkBlocks(ser: (Tree, nat) --> Result<Emitted>, cfg: Config, t: Tree): (r: Result<Emission>)
    requires IsSerialiser(ser) && ValidTree(t)
    ensures r.Ok? ==> SameRegistries(t, r.value.tree)
  {
    EmitBlocks(ser, cfg, t, SortedKeys(t.blocks.Keys))
  }

  /** `TreeJSON` is the walk over the registries, then the blocks loop on the tree it leaves. */
  lemma TreeJSONWalks(ser: (Tree, nat) --> Result<Emitted>, cfg: Config, t: Tree, deps0: set<string>)
    requires IsSerialiser(ser) && ValidTree(t)
    ensures EmitSections(ser, cfg, t, SectionOrder).Err? ==> TreeJSON(ser, cfg, t, deps0).Err?
    ensures EmitSections(ser, cfg, t, SectionOrder).Ok? ==>
              var a := EmitSections(ser, cfg, t, SectionOrder).value;
              ValidTree(a.tree) && "blocks" !in a.kv && "metadata" !in a.kv
              && (WalkBlocks(ser, cfg, a.tree).Err? ==> TreeJSON(ser, cfg, t, deps0).Err?)
              && (WalkBlocks(ser, cfg, a.tree).Ok? ==>
                    var b := WalkBlocks(ser, cfg, a.tree).value;
                    var deps := deps0 + a.deps + b.deps;
                    TreeJSON(ser, cfg, t, deps0) == Ok(Output(Assemble(cfg, a.kv, b.kv, SortedKeys(deps)), b.tree, deps)))
  {
    SectionOrderDistinct();
    EmitSectionsDescribes(ser, cfg, t, SectionOrder);
    if EmitSections(ser, cfg, t, SectionOrder).Ok? {
      SectionsKeys(cfg, t, SectionOrder, EmitSections(ser, cfg, t, SectionOrder).value);
    }
  }

  /** `TreeJSON` with every definition serialised by its own `toJSON`. */
  ghost function TreeOutput(cfg: Config, t: Tree, deps0: set<string>): (r: Result<Output>)
    requires ValidTree(t)
    ensures SomeNull(t) ==> r.Err?
    ensures r.Ok? ==> OutputDescribes(cfg, t, deps0, r.value)
  {
    SerialiserIsDefToJSON();
    TreeJSON(Serialiser(), cfg, t, deps0)
  }

  /** `TreeOutput` is `TreeJSON` with a serialiser that keeps its promise. */
  lemma TreeOutputIsTreeJSON(cfg: Config, t: Tree, deps0: set<string>)
    requires ValidTree(t)
    ensures IsSerialiser(Serialiser())
    ensures TreeOutput(cfg, t, deps0) == TreeJSON(Serialiser(), cfg, t, deps0)
  {
    SerialiserIsDefToJSON();
  }
}
