/**
 * Protocols in `generateFromJSON` (iphone/hooks/generate/index.js):
 * `processProtocolInheritance` copies into every protocol the properties and
 * methods of the protocols it inherits from, and the classes loop copies
 * into each class the members of the protocols it adopts, unless a
 * superclass already adopts them.
 */
module GenProtocols {
  import opened Wrappers
  import opened Json
  import opened JsValues
  import GenClass
  import opened GenIndex

  /** A protocol of the metabase: the protocols it inherits from, its properties and its methods. */
  datatype Protocol = Protocol(
    protocols: Option<seq<string>>,
    properties: Option<map<string, GenClass.PropertyMeta>>, methods: Option<map<string, GenClass.MethodMeta>>)

  function OrEmpty<V>(m: Option<map<string, V>>): map<string, V>
  {
    if m.Some? then m.value else map[]
  }

  function PropKeys(p: Protocol): set<string>
  {
    OrEmpty(p.properties).Keys
  }

  function MethodKeys(p: Protocol): set<string>
  {
    OrEmpty(p.methods).Keys
  }

  /** Every property and method of `parent` is one of `child`'s. */
  predicate Inherits(parent: Protocol, child: Protocol)
  {
    PropKeys(parent) <= PropKeys(child) && MethodKeys(parent) <= MethodKeys(child)
  }

  /** `b` holds every member of `a` with the same value. */
  predicate SubMap<V(==)>(a: Option<map<string, V>>, b: Option<map<string, V>>)
  {
    forall k :: k in OrEmpty(a) ==> k in OrEmpty(b) && OrEmpty(b)[k] == OrEmpty(a)[k]
  }

  /** `b` is `a` with members possibly added: nothing is lost or replaced, and the parents are the same. */
  predicate Grows(a: Protocol, b: Protocol)
  {
    a.protocols == b.protocols && SubMap(a.properties, b.properties) && SubMap(a.methods, b.methods)
  }

  lemma GrowsTrans(a: Protocol, b: Protocol, c: Protocol)
    requires Grows(a, b) && Grows(b, c)
    ensures Grows(a, c)
  {
  }

  /** `p` is one of the parents `x` lists, other than `x` itself. */
  predicate ParentOf(protocols: map<string, Protocol>, x: string, p: string)
  {
    x in protocols && protocols[x].protocols.Some? && p in protocols[x].protocols.value && p != x
  }

  /**
   * Every protocol in `merged` exists and already holds the members of each
   * of its parents, which are merged too.
   */
  ghost predicate Closed(protocols: map<string, Protocol>, merged: seq<string>)
  {
    forall x :: x in merged ==> x in protocols && forall p :: ParentOf(protocols, x, p) ==> p in merged && p in protocols && Inherits(protocols[p], protocols[x])
  }

  /** Every protocol holds the members of each protocol it inherits from. */
  ghost predicate InheritanceClosed(protocols: map<string, Protocol>)
  {
    forall x, p :: ParentOf(protocols, x, p) ==> p in protocols && Inherits(protocols[p], protocols[x])
  }

  /** Each protocol on the stack of calls is a parent of the one below it. */
  ghost predicate Chain(protocols: map<string, Protocol>, stack: seq<string>)
  {
    forall i :: 0 <= i < |stack| - 1 ==> ParentOf(protocols, stack[i], stack[i + 1])
  }

  /** `protocol` after the members of `parent` have been merged into it. */
  function MergeParent(protocol: Protocol, parent: Protocol): (r: Protocol)
    ensures Grows(protocol, r) && Inherits(parent, r)
  {
    protocol.(properties := Some(Merged(parent.properties, OrEmpty(protocol.properties))),
              methods := Some(Merged(parent.methods, OrEmpty(protocol.methods))))
  }

  /** Changing a protocol outside `merged`, without changing its parents, keeps `merged` closed. */
  lemma ClosedFrame(protocols: map<string, Protocol>, merged: seq<string>, name: string, v: Protocol)
    requires Closed(protocols, merged) && name !in merged && name in protocols
    requires v.protocols == protocols[name].protocols
    ensures Closed(protocols[name := v], merged)
  {
    var q := protocols[name := v];
    forall x, p | x in merged && ParentOf(q, x, p)
      ensures p in merged && p in q && Inherits(q[p], q[x])
    {
      assert ParentOf(protocols, x, p);
    }
  }

  /** A protocol that holds the members of all its parents, themselves merged, can be marked as merged. */
  lemma ClosedPush(protocols: map<string, Protocol>, merged: seq<string>, name: string)
    requires Closed(protocols, merged) && name in protocols
    requires forall p :: ParentOf(protocols, name, p) ==> p in merged && p in protocols && Inherits(protocols[p], protocols[name])
    ensures Closed(protocols, merged + [name])
  {
  }

  /** The stack survives changes that keep every protocol's parents. */
  lemma ChainGrows(p1: map<string, Protocol>, p2: map<string, Protocol>, stack: seq<string>)
    requires Chain(p1, stack) && p1.Keys == p2.Keys
    requires forall k :: k in p1 ==> p2[k].protocols == p1[k].protocols
    ensures Chain(p2, stack)
  {
    forall i | 0 <= i < |stack| - 1
      ensures ParentOf(p2, stack[i], stack[i + 1])
    {
      assert ParentOf(p1, stack[i], stack[i + 1]);
    }
  }

  /** A protocol on the stack has, above it, a parent that is on the stack too. */
  lemma StackParent(protocols: map<string, Protocol>, stack: seq<string>, name: string) returns (target: string)
    requires Chain(protocols, stack + [name]) && name in stack
    ensures target in stack && ParentOf(protocols, name, target)
  {
    var s := stack + [name];
    var k :| 0 <= k < |stack| && stack[k] == name;
    assert s[k] == name;
    target := s[k + 1];
  }

  /** A protocol without parents cannot be on the stack. */
  lemma NotOnStack(protocols: map<string, Protocol>, stack: seq<string>, name: string)
    requires Chain(protocols, stack + [name])
    requires name !in protocols || protocols[name].protocols.None?
    ensures name !in stack
  {
    if name in stack {
      var t := StackParent(protocols, stack, name);
    }
  }

  /**
   * Every member a protocol holds in `p1` and did not hold in `p0` is, with
   * the same value, a member one of its parents holds in `p1`.
   */
  ghost predicate Sourced(p0: map<string, Protocol>, p1: map<string, Protocol>)
  {
    && p0.Keys == p1.Keys
    && (forall x, key :: x in p1 && key in OrEmpty(p1[x].properties) && key !in OrEmpty(p0[x].properties) ==>
          exists p :: ParentOf(p1, x, p) && p in p1 && key in OrEmpty(p1[p].properties)
                      && OrEmpty(p1[p].properties)[key] == OrEmpty(p1[x].properties)[key])
    && (forall x, key :: x in p1 && key in OrEmpty(p1[x].methods) && key !in OrEmpty(p0[x].methods) ==>
          exists p :: ParentOf(p1, x, p) && p in p1 && key in OrEmpty(p1[p].methods)
                      && OrEmpty(p1[p].methods)[key] == OrEmpty(p1[x].methods)[key])
  }

  lemma SourcedRefl(p: map<string, Protocol>)
    ensures Sourced(p, p)
  {
  }

  /** Members gained in two steps, where the second only grows protocols, are still gained from parents. */
  lemma SourcedTrans(p0: map<string, Protocol>, p1: map<string, Protocol>, p2: map<string, Protocol>)
    requires Sourced(p0, p1) && Sourced(p1, p2)
    requires forall k :: k in p1 ==> Grows(p1[k], p2[k])
    ensures Sourced(p0, p2)
  {
    forall x, key | x in p2 && key in OrEmpty(p2[x].properties) && key !in OrEmpty(p0[x].properties)
      ensures exists p :: ParentOf(p2, x, p) && p in p2 && key in OrEmpty(p2[p].properties)
                          && OrEmpty(p2[p].properties)[key] == OrEmpty(p2[x].properties)[key]
    {
      if key in OrEmpty(p1[x].properties) {
        var p :| ParentOf(p1, x, p) && p in p1 && key in OrEmpty(p1[p].properties)
                 && OrEmpty(p1[p].properties)[key] == OrEmpty(p1[x].properties)[key];
        assert Grows(p1[p], p2[p]) && Grows(p1[x], p2[x]);
        assert ParentOf(p2, x, p);
      }
    }
    forall x, key | x in p2 && key in OrEmpty(p2[x].methods) && key !in OrEmpty(p0[x].methods)
      ensures exists p :: ParentOf(p2, x, p) && p in p2 && key in OrEmpty(p2[p].methods)
                          && OrEmpty(p2[p].methods)[key] == OrEmpty(p2[x].methods)[key]
    {
      if key in OrEmpty(p1[x].methods) {
        var p :| ParentOf(p1, x, p) && p in p1 && key in OrEmpty(p1[p].methods)
                 && OrEmpty(p1[p].methods)[key] == OrEmpty(p1[x].methods)[key];
        assert Grows(p1[p], p2[p]) && Grows(p1[x], p2[x]);
        assert ParentOf(p2, x, p);
      }
    }
  }

  /** Merging a parent into a protocol gains it only that parent's members. */
  lemma SourcedMergeParent(p1: map<string, Protocol>, name: string, parent: string)
    requires ParentOf(p1, name, parent) && parent in p1
    ensures Sourced(p1, p1[name := MergeParent(p1[name], p1[parent])])
  {
    var p2 := p1[name := MergeParent(p1[name], p1[parent])];
    forall x, key | x in p2 && key in OrEmpty(p2[x].properties) && key !in OrEmpty(p1[x].properties)
      ensures exists p :: ParentOf(p2, x, p) && p in p2 && key in OrEmpty(p2[p].properties)
                          && OrEmpty(p2[p].properties)[key] == OrEmpty(p2[x].properties)[key]
    {
      assert x == name && p2[parent] == p1[parent];
      assert ParentOf(p2, x, parent);
    }
    forall x, key | x in p2 && key in OrEmpty(p2[x].methods) && key !in OrEmpty(p1[x].methods)
      ensures exists p :: ParentOf(p2, x, p) && p in p2 && key in OrEmpty(p2[p].methods)
                          && OrEmpty(p2[p].methods)[key] == OrEmpty(p2[x].methods)[key]
    {
      assert x == name && p2[parent] == p1[parent];
      assert ParentOf(p2, x, parent);
    }
  }

  /**
   * What a call may do to the protocols and the merged list: no protocol
   * appears or disappears, none loses or changes a member or its parents,
   * every member gained comes from a parent, the list only grows, and a
   * protocol already merged is left alone.
   */
  ghost predicate Evolved(p0: map<string, Protocol>, m0: seq<string>, p1: map<string, Protocol>, m1: seq<string>)
  {
    p1.Keys == p0.Keys
    && (forall k :: k in p0 ==> Grows(p0[k], p1[k]))
    && Sourced(p0, p1)
    && |m0| <= |m1| && m1[..|m0|] == m0
    && (forall k :: k in m0 && k in p0 ==> p1[k] == p0[k])
  }

  lemma EvolvedRefl(p: map<string, Protocol>, m: seq<string>)
    ensures Evolved(p, m, p, m)
  {
    SourcedRefl(p);
  }

  lemma EvolvedTrans(p0: map<string, Protocol>, m0: seq<string>, p1: map<string, Protocol>, m1: seq<string>, p2: map<string, Protocol>, m2: seq<string>)
    requires Evolved(p0, m0, p1, m1) && Evolved(p1, m1, p2, m2)
    ensures Evolved(p0, m0, p2, m2)
  {
    forall k | k in p0
      ensures Grows(p0[k], p2[k])
    {
      GrowsTrans(p0[k], p1[k], p2[k]);
    }
    SourcedTrans(p0, p1, p2);
    assert m2[..|m1|][..|m0|] == m2[..|m0|];
    forall k | k in m0 && k in p0
      ensures p2[k] == p0[k]
    {
      assert k in m1 by {
        assert m1[..|m0|] == m0;
      }
    }
  }

  /** A protocol merged and the one it was merged into stay related as long as only that one grows. */
  lemma EvolvedKeeps(p1: map<string, Protocol>, m1: seq<string>, p2: map<string, Protocol>, m2: seq<string>, q: string, name: string)
    requires Evolved(p1, m1, p2, m2) && q in m1 && q in p1 && name in p1 && Inherits(p1[q], p1[name])
    ensures q in m2 && q in p2 && Inherits(p2[q], p2[name])
  {
    assert m2[..|m1|] == m1;
    assert Grows(p1[name], p2[name]);
  }

  /** Merging a parent into a protocol outside the merged list is a change a call may make. */
  lemma EvolvedUpdate(p0: map<string, Protocol>, m0: seq<string>, p1: map<string, Protocol>, m1: seq<string>, name: string, parent: string)
    requires Evolved(p0, m0, p1, m1) && name !in m1 && ParentOf(p1, name, parent) && parent in p1
    ensures Evolved(p0, m0, p1[name := MergeParent(p1[name], p1[parent])], m1)
  {
    SourcedMergeParent(p1, name, parent);
    EvolvedTrans(p0, m0, p1, m1, p1[name := MergeParent(p1[name], p1[parent])], m1);
  }

  /** Appending to the merged list is a change a call may make. */
  lemma EvolvedPush(p0: map<string, Protocol>, m0: seq<string>, p1: map<string, Protocol>, m1: seq<string>, name: string)
    requires Evolved(p0, m0, p1, m1)
    ensures Evolved(p0, m0, p1, m1 + [name])
  {
    assert (m1 + [name])[..|m0|] == m1[..|m0|];
  }

  /** The members merged into a protocol of its parents after it has been merged with its own. */
  class ProtocolMerger {
    var protocols: map<string, Protocol>
    var merged: seq<string>

    ghost predicate Valid()
      reads this
    {
      Closed(protocols, merged)
    }

    constructor (protocols: map<string, Protocol>)
      ensures this.protocols == protocols && merged == [] && Valid()
    {
      this.protocols := protocols;
      merged := [];
    }

    /**
     * `mergeWithParentProtocols`: a protocol not yet merged is first merged
     * recursively with each of its parents, whose members it then gains,
     * and is marked as merged last. A missing parent is an `undefined`
     * protocol (a TypeError); recursion deeper than `fuel` overflows the
     * stack, which is what inheritance in a cycle always does: a protocol
     * still on the stack of calls never completes.
     */
    method MergeWithParents(name: string, fuel: nat, ghost stack: seq<string>) returns (r: Result<()>)
      requires Valid() && Chain(protocols, stack + [name])
      requires forall s :: s in stack ==> s !in merged
      modifies this
      decreases fuel, 1
      ensures Valid() && Evolved(old(protocols), old(merged), protocols, merged)
      ensures r.Ok? ==> name in protocols && name in merged
      ensures r.Ok? ==> forall s :: s in stack ==> s !in merged
      ensures name in stack ==> r.Err?
    {
      if fuel == 0 {
        return Err(RangeError);
      }
      if name !in protocols {
        return Err(TypeError);
      }
      if name in merged {
        return Ok(());
      }
      var parents := protocols[name].protocols;
      if parents.None? {
        NotOnStack(protocols, stack, name);
        ClosedPush(protocols, merged, name);
        merged := merged + [name];
        return Ok(());
      }
      r := MergeParents(name, parents.value, fuel, stack);
      if r.Ok? {
        ClosedPush(protocols, merged, name);
        ghost var m := merged;
        merged := merged + [name];
        EvolvedPush(old(protocols), old(merged), protocols, m, name);
      }
    }

    /** The `forEach` over a protocol's parents: each other than itself is merged, then merged into it. */
    method MergeParents(name: string, ps: seq<string>, fuel: nat, ghost stack: seq<string>) returns (r: Result<()>)
      requires fuel > 0 && Valid() && Chain(protocols, stack + [name])
      requires name in protocols && protocols[name].protocols == Some(ps)
      requires name !in merged && forall s :: s in stack ==> s !in merged
      modifies this
      decreases fuel, 0
      ensures Valid() && Evolved(old(protocols), old(merged), protocols, merged)
      ensures r.Ok? ==> name !in merged && forall s :: s in stack ==> s !in merged
      ensures r.Ok? ==> forall p :: ParentOf(protocols, name, p) ==> p in merged && p in protocols && Inherits(protocols[p], protocols[name])
      ensures name in stack ==> r.Err?
    {
      ghost var target := name;
      if name in stack {
        target := StackParent(protocols, stack, name);
      }
      EvolvedRefl(protocols, merged);
      var i := 0;
      while i < |ps|
        invariant 0 <= i <= |ps|
        invariant Valid() && Chain(protocols, stack + [name])
        invariant name in protocols && protocols[name].protocols == Some(ps)
        invariant Evolved(old(protocols), old(merged), protocols, merged)
        invariant name !in merged && forall s :: s in stack ==> s !in merged
        invariant name in stack ==> target in stack && target in ps && target !in ps[..i]
        invariant forall m :: 0 <= m < i && ps[m] != name ==> ps[m] in merged && ps[m] in protocols && Inherits(protocols[ps[m]], protocols[name])
      {
        var p := ps[i];
        if p != name {
          ghost var before := protocols;
          ghost var mBefore := merged;
          assert ParentOf(protocols, name, p);
          r := MergeOneParent(name, p, fuel, stack);
          EvolvedTrans(old(protocols), old(merged), before, mBefore, protocols, merged);
          if r.Err? {
            return;
          }
          forall m | 0 <= m < i && ps[m] != name
            ensures ps[m] in merged && ps[m] in protocols && Inherits(protocols[ps[m]], protocols[name])
          {
            EvolvedKeeps(before, mBefore, protocols, merged, ps[m], name);
          }
        }
        assert ps[..i + 1] == ps[..i] + [p];
        i := i + 1;
      }
      assert ps[..i] == ps;
      r := Ok(());
    }

    /** One parent of the `forEach`: merged recursively, then its members merged into the protocol. */
    method MergeOneParent(name: string, p: string, fuel: nat, ghost stack: seq<string>) returns (r: Result<()>)
      requires fuel > 0 && Valid() && Chain(protocols, stack + [name]) && ParentOf(protocols, name, p)
      requires name !in merged && forall s :: s in stack ==> s !in merged
      modifies this
      decreases fuel - 1, 2
      ensures Valid() && Evolved(old(protocols), old(merged), protocols, merged)
      ensures Chain(protocols, stack + [name]) && protocols[name].protocols == old(protocols)[name].protocols
      ensures r.Ok? ==> name !in merged && forall s :: s in stack ==> s !in merged
      ensures r.Ok? ==> p in merged && p in protocols && Inherits(protocols[p], protocols[name])
      ensures p in stack + [name] ==> r.Err?
    {
      assert Chain(protocols, stack + [name] + [p]);
      r := MergeWithParents(p, fuel - 1, stack + [name]);
      if r.Err? {
        ChainGrows(old(protocols), protocols, stack + [name]);
        return;
      }
      ghost var mid := protocols;
      var parent := protocols[p];
      var self := protocols[name];
      var props := Merge(parent.properties, OrEmpty(self.properties));
      var meths := Merge(parent.methods, OrEmpty(self.methods));
      var next := self.(properties := Some(props), methods := Some(meths));
      assert next == MergeParent(self, parent);
      ClosedFrame(protocols, merged, name, next);
      protocols := protocols[name := next];
      EvolvedUpdate(old(protocols), old(merged), mid, merged, name, p);
      ChainGrows(old(protocols), protocols, stack + [name]);
    }

    /**
     * `processProtocolInheritance`: each protocol, in turn, is merged with
     * the protocols it inherits from. When it completes, every protocol
     * holds the members of every protocol it inherits from, and none has
     * lost or changed a member of its own.
     */
    method ProcessProtocolInheritance(fuel: nat) returns (r: Result<()>)
      modifies this
      ensures protocols.Keys == old(protocols).Keys
      ensures forall k :: k in old(protocols) ==> Grows(old(protocols)[k], protocols[k])
      ensures Sourced(old(protocols), protocols)
      ensures r.Ok? ==> InheritanceClosed(protocols)
    {
      merged := [];
      SourcedRefl(protocols);
      var rest := protocols.Keys;
      while rest != {}
        invariant Valid()
        invariant protocols.Keys == old(protocols).Keys && rest <= protocols.Keys
        invariant forall k :: k in old(protocols) ==> Grows(old(protocols)[k], protocols[k])
        invariant Sourced(old(protocols), protocols)
        invariant forall k :: k in protocols && k !in rest ==> k in merged
        decreases |rest|
      {
        var name :| name in rest;
        ghost var before := protocols;
        ghost var mBefore := merged;
        r := MergeWithParents(name, fuel, []);
        forall k | k in old(protocols)
          ensures Grows(old(protocols)[k], protocols[k])
        {
          GrowsTrans(old(protocols)[k], before[k], protocols[k]);
        }
        SourcedTrans(old(protocols), before, protocols);
        if r.Err? {
          return;
        }
        forall k | k in mBefore
          ensures k in merged
        {
          assert merged[..|mBefore|] == mBefore;
        }
        rest := rest - {name};
      }
      r := Ok(());
      forall x, p | ParentOf(protocols, x, p)
        ensures p in protocols && Inherits(protocols[p], protocols[x])
      {
        assert x in merged;
      }
    }
  }

  // ---------------------------------------------------------------- isProtocolImplementedBySuperClass

  /** A class of the metabase with the protocols it adopts. */
  datatype ClassRecord = ClassRecord(meta: GenClass.ClassMeta, protocols: Option<seq<string>>)

  /** The class's superclass name, when it is truthy. */
  function SuperKey(c: ClassRecord): (r: Option<string>)
    ensures r.Some? ==> r.value != []
  {
    if c.meta.superclass.Some? && c.meta.superclass.value != [] then c.meta.superclass else None
  }

  predicate Adopts(c: ClassRecord, proto: string)
  {
    c.protocols.Some? && proto in c.protocols.value
  }

  lemma Shrinks(keys: set<string>, visited: set<string>, k: string)
    requires k in keys && k !in visited
    ensures |keys - (visited + {k})| < |keys - visited|
  {
    assert keys - visited == (keys - (visited + {k})) + {k};
  }

  /** The classes of the superclass chain from `next` up, each once. */
  function Ancestors(classes: map<string, ClassRecord>, next: Option<string>, visited: set<string>): (r: seq<string>)
    decreases |classes.Keys - visited|
    ensures forall k :: k in r ==> k in classes
  {
    if next.None? || next.value !in classes || next.value in visited then []
    else
      Shrinks(classes.Keys, visited, next.value);
      [next.value] + Ancestors(classes, SuperKey(classes[next.value]), visited + {next.value})
  }

  /** One of `ks` adopts `proto`. */
  predicate AnyAdopts(classes: map<string, ClassRecord>, ks: seq<string>, proto: string)
  {
    exists k :: k in ks && k in classes && Adopts(classes[k], proto)
  }

  /** The value `parentClass` holds: nothing, a class name (a string), or a class of the metabase. */
  datatype Ancestor = NoAncestor | NameOnly(name: string) | Known(key: string)

  /**
   * `isProtocolImplementedBySuperClass`. As written (`asWritten`), the walk
   * starts at `cls.superclass`, which in the metabase is the superclass's
   * NAME: a string has neither `protocols` nor `superclass`, so the answer
   * is always false. Corrected, the walk starts at the superclass's entry
   * in `json.classes` and reports whether any class up the chain adopts the
   * protocol (a class met twice ends the walk).
   */
  method IsProtocolImplementedBySuperClass(classes: map<string, ClassRecord>, cls: ClassRecord, proto: string, asWritten: bool)
    returns (r: bool)
    ensures asWritten ==> !r
    ensures !asWritten ==> (r <==> AnyAdopts(classes, Ancestors(classes, SuperKey(cls), {}), proto))
  {
    var start := SuperKey(cls);
    var parent: Ancestor :=
      if start.None? then NoAncestor
      else if asWritten then NameOnly(start.value)
      else if start.value in classes then Known(start.value)
      else NoAncestor;
    var visited: set<string> := {};
    while parent != NoAncestor
      invariant parent.NameOnly? ==> asWritten && visited == {}
      invariant parent.Known? ==> !asWritten && parent.key in classes && parent.key !in visited
      invariant !asWritten ==>
        (AnyAdopts(classes, Ancestors(classes, start, {}), proto)
         <==> (parent.Known? && AnyAdopts(classes, Ancestors(classes, Some(parent.key), visited), proto)))
      decreases |classes.Keys - visited| + (if parent.NameOnly? then 1 else 0)
    {
      match parent
      case NameOnly(_) =>
        parent := NoAncestor;
      case Known(k) =>
        if Adopts(classes[k], proto) {
          return true;
        }
        var next := SuperKey(classes[k]);
        Shrinks(classes.Keys, visited, k);
        AncestorsStep(classes, k, visited, proto);
        visited := visited + {k};
        parent := if next.Some? && next.value in classes && next.value !in visited then Known(next.value) else NoAncestor;
    }
    r := false;
  }

  /** Past a class that does not adopt the protocol, the search goes on from its superclass. */
  lemma AncestorsStep(classes: map<string, ClassRecord>, k: string, visited: set<string>, proto: string)
    requires k in classes && k !in visited && !Adopts(classes[k], proto)
    ensures AnyAdopts(classes, Ancestors(classes, Some(k), visited), proto)
      <==> AnyAdopts(classes, Ancestors(classes, SuperKey(classes[k]), visited + {k}), proto)
  {
    var rest := Ancestors(classes, SuperKey(classes[k]), visited + {k});
    assert Ancestors(classes, Some(k), visited) == [k] + rest;
  }

  /** A superclass that adopts the protocol is found by the corrected walk and missed by the one as written. */
  lemma SuperclassAdoptionFound(classes: map<string, ClassRecord>, cls: ClassRecord, proto: string)
    requires SuperKey(cls).Some? && SuperKey(cls).value in classes && Adopts(classes[SuperKey(cls).value], proto)
    ensures AnyAdopts(classes, Ancestors(classes, SuperKey(cls), {}), proto)
  {
    var s := SuperKey(cls).value;
    assert Ancestors(classes, SuperKey(cls), {})[0] == s;
  }

  // ---------------------------------------------------------------- the classes loop

  /** `cls` after the members of `protocol` have been merged into it, its own members kept. */
  function AdoptOne(cls: GenClass.ClassMeta, protocol: Protocol): (r: GenClass.ClassMeta)
  {
    cls.(properties := Some(Merged(protocol.properties, OrEmpty(cls.properties))),
         methods := Some(Merged(protocol.methods, OrEmpty(cls.methods))))
  }

  /** The protocol `p` is merged into the class: no superclass adopts it and the metabase has it. */
  predicate Merges(classes: map<string, ClassRecord>, protocols: map<string, Protocol>, cls: ClassRecord, p: string)
  {
    !AnyAdopts(classes, Ancestors(classes, SuperKey(cls), {}), p) && p in protocols
  }

  /** The class after the first adopted protocols have been visited. */
  function Adopted(classes: map<string, ClassRecord>, protocols: map<string, Protocol>, cls: ClassRecord, ps: seq<string>): GenClass.ClassMeta
    decreases |ps|
  {
    if ps == [] then cls.meta.(framework := ClassFramework(cls.meta))
    else
      var m := Adopted(classes, protocols, cls, ps[..|ps| - 1]);
      var p := ps[|ps| - 1];
      if Merges(classes, protocols, cls, p) then AdoptOne(m, protocols[p]) else m
  }

  /**
   * The body of the classes loop before the class is generated: the
   * runtime's own `NSObject.h` places a class in Foundation, and each
   * adopted protocol that no superclass adopts gives the class its members.
   */
  method PrepareClass(classes: map<string, ClassRecord>, protocols: map<string, Protocol>, cls: ClassRecord)
    returns (r: GenClass.ClassMeta)
    ensures cls.protocols.None? ==> r == cls.meta.(framework := ClassFramework(cls.meta))
    ensures cls.protocols.Some? ==> r == Adopted(classes, protocols, cls, cls.protocols.value)
  {
    r := cls.meta.(framework := ClassFramework(cls.meta));
    if cls.protocols.Some? && |cls.protocols.value| > 0 {
      var ps := cls.protocols.value;
      var i := 0;
      while i < |ps|
        invariant 0 <= i <= |ps|
        invariant r == Adopted(classes, protocols, cls, ps[..i])
      {
        assert ps[..i + 1][..i] == ps[..i];
        var implemented := IsProtocolImplementedBySuperClass(classes, cls, ps[i], false);
        if !implemented && ps[i] in protocols {
          var protocol := protocols[ps[i]];
          var props := Merge(protocol.properties, OrEmpty(r.properties));
          var meths := Merge(protocol.methods, OrEmpty(r.methods));
          r := r.(properties := Some(props), methods := Some(meths));
        }
        i := i + 1;
      }
      assert ps[..i] == ps;
    }
  }

  /**
   * After the loop the class keeps every member of its own, and holds the
   * members of every adopted protocol that no superclass adopts.
   */
  lemma {:induction false} AdoptedMembers(classes: map<string, ClassRecord>, protocols: map<string, Protocol>, cls: ClassRecord, ps: seq<string>)
    decreases |ps|
    ensures SubMap(cls.meta.properties, Adopted(classes, protocols, cls, ps).properties)
    ensures SubMap(cls.meta.methods, Adopted(classes, protocols, cls, ps).methods)
    ensures forall p :: p in ps && Merges(classes, protocols, cls, p) ==>
      PropKeys(protocols[p]) <= OrEmpty(Adopted(classes, protocols, cls, ps).properties).Keys
      && MethodKeys(protocols[p]) <= OrEmpty(Adopted(classes, protocols, cls, ps).methods).Keys
  {
    if ps != [] {
      var init := ps[..|ps| - 1];
      AdoptedMembers(classes, protocols, cls, init);
      forall p | p in ps && Merges(classes, protocols, cls, p)
        ensures PropKeys(protocols[p]) <= OrEmpty(Adopted(classes, protocols, cls, ps).properties).Keys
        ensures MethodKeys(protocols[p]) <= OrEmpty(Adopted(classes, protocols, cls, ps).methods).Keys
      {
        if p != ps[|ps| - 1] {
          assert p in init;
        }
      }
    }
  }
}
