/**
 * The post-processing of iOS metabases in the Node.js package
 * (packages/hyperloop-ios-metabase/lib/metabase.js): merging one metabase
 * into another, reading the frameworks a metabase depends on from its
 * header dependencies, the worklist that builds one unified metabase for a
 * set of frameworks and everything they depend on, and the collection of a
 * framework's header files.
 *
 * Running the metabase binary and caching its output are not part of this
 * model: the metabase each framework yields (or the error it fails with)
 * is given as a map.  The file system is a tree of nodes.
 */
module IosMetabase {
  import opened Wrappers
  import opened Strs
  import opened Json
  import opened JsValues

  /** A metabase: the top-level JSON object the metabase binary writes. */
  type Metabase = map<string, Json>

  /** The kinds `merge` combines; `metadata` and any other key is left alone. */
  const TopLevelKeys: seq<string> :=
    ["blocks", "classes", "enums", "functions", "protocols", "structs", "typedefs", "unions", "vars"]

  function Get(m: Metabase, k: string): Option<Json>
  {
    if k in m then Some(m[k]) else None
  }

  lemma MapsEqualByGet(m1: Metabase, m2: Metabase)
    requires forall k :: Get(m1, k) == Get(m2, k)
    ensures m1 == m2
  {
    assert forall k :: k in m1 <==> Get(m1, k).Some?;
    assert forall k :: k in m2 <==> Get(m2, k).Some?;
    assert m1.Keys == m2.Keys;
    assert forall k :: k in m1 ==> m1[k] == Get(m1, k).value == m2[k];
  }

  lemma TopLevelKeysDistinct()
    ensures forall p, q :: 0 <= p < q < |TopLevelKeys| ==> TopLevelKeys[p] != TopLevelKeys[q]
  {
  }

  // ---------------------------------------------------------------- merge

  /**
   * The elements of an array or a string as JavaScript's property view
   * shows them: element `i` under the name "i".
   */
  function IndexEntries(xs: seq<Json>): (r: map<string, Json>)
    ensures forall i :: 0 <= i < |xs| ==> NatToString(i) in r && r[NatToString(i)] == xs[i]
    ensures forall key :: key in r ==> exists i :: 0 <= i < |xs| && key == NatToString(i)
    ensures xs == [] <==> r == map[]
  {
    NatToStringInjective();
    var r := map i | 0 <= i < |xs| :: NatToString(i) := xs[i];
    assert xs != [] ==> NatToString(0) in r;
    r
  }

  /** The characters of a string, each a one-character string. */
  function CharStrings(s: string): (r: seq<Json>)
    ensures |r| == |s| && forall i :: 0 <= i < |s| ==> r[i] == JStr([s[i]])
  {
    seq(|s|, i requires 0 <= i < |s| => JStr([s[i]]))
  }

  /**
   * `Object.keys(v)` paired with `v[key]` for each key: an object's own
   * entries, an array's or a string's elements under their index names,
   * and nothing for a number or a boolean.  `Object.keys(null)` throws.
   */
  function ObjectEntries(v: Json): (r: Result<map<string, Json>>)
    ensures r.Err? <==> v.JNull?
    ensures v.JObj? ==> r == Ok(v.fields)
    ensures v.JInt? || v.JBool? ==> r == Ok(map[])
    ensures v.JArr? ==> r == Ok(IndexEntries(v.items))
    ensures v.JStr? ==> r == Ok(IndexEntries(CharStrings(v.s)))
  {
    match v
    case JNull => Err("TypeError: Cannot convert undefined or null to object")
    case JBool(_) => Ok(map[])
    case JInt(_) => Ok(map[])
    case JStr(s) => Ok(IndexEntries(CharStrings(s)))
    case JArr(items) => Ok(IndexEntries(items))
    case JObj(fields) => Ok(fields)
  }

  /**
   * The entries of `a[key] || {}` as the `in` test sees them: an object's
   * own entries, an array's elements under their index names, and none
   * when the kind is absent or falsy.  `in` on a truthy number, boolean
   * or string throws.
   */
  function TargetEntries(av: Option<Json>): (r: Result<map<string, Json>>)
    ensures r.Err? <==> av.Some? && (av.value.JInt? || av.value.JBool? || av.value.JStr?) && IsTruthy(av.value)
    ensures av.None? || (av.Some? && !IsTruthy(av.value)) ==> r == Ok(map[])
    ensures av.Some? && av.value.JObj? ==> r == Ok(av.value.fields)
    ensures av.Some? && av.value.JArr? ==> r == Ok(IndexEntries(av.value.items))
  {
    match av
    case None => Ok(map[])
    case Some(JObj(aE)) => Ok(aE)
    case Some(JArr(items)) => Ok(IndexEntries(items))
    case Some(v) => if IsTruthy(v) then Err("TypeError: Cannot use 'in' operator") else Ok(map[])
  }

  /**
   * One of the nine kinds after `merge`: every entry of the source kind
   * whose name the target lacks is added and the target's entries stay; a
   * kind the source lacks, or holds no new entries for, is left as it was.
   * The source kind's entries are what `Object.keys` lists, so a null
   * source kind throws, and so does a truthy primitive target once there
   * is an entry to test.
   */
  function KindAfter(av: Option<Json>, bv: Option<Json>): (r: Result<Option<Json>>)
    ensures bv.None? ==> r == Ok(av)
    ensures bv.Some? ==>
      (r.Ok? <==> ObjectEntries(bv.value).Ok?
                  && (ObjectEntries(bv.value).value == map[] || TargetEntries(av).Ok?))
    ensures bv.Some? && r.Ok? && ObjectEntries(bv.value).value == map[] ==> r == Ok(av)
  {
    match bv
    case None => Ok(av)
    case Some(v) =>
      match ObjectEntries(v)
      case Err(e) => Err(e)
      case Ok(bE) =>
        if bE == map[] then Ok(av)
        else
          (match TargetEntries(av)
           case Err(e) => Err(e)
           case Ok(aE) => if bE.Keys <= aE.Keys then Ok(av) else Ok(Some(JObj(bE + aE))))
  }

  /**
   * A kind the source holds entries for ends up an object with the
   * target's entries and every source entry of a name the target lacks.
   */
  lemma KindAfterEntries(av: Option<Json>, v: Json)
    requires KindAfter(av, Some(v)).Ok? && ObjectEntries(v).value != map[]
    ensures KindAfter(av, Some(v)).value.Some?
    ensures TargetEntries(KindAfter(av, Some(v)).value) == Ok(ObjectEntries(v).value + TargetEntries(av).value)
    ensures !(av.Some? && av.value.JArr?) ==> KindAfter(av, Some(v)).value.value.JObj?
  {
    var bE, aE := ObjectEntries(v).value, TargetEntries(av).value;
    if bE.Keys <= aE.Keys {
      assert bE + aE == aE;
    }
  }

  /** Merging one kind a second time changes nothing. */
  lemma KindAfterIdempotent(av: Option<Json>, v: Json)
    requires KindAfter(av, Some(v)).Ok?
    ensures KindAfter(KindAfter(av, Some(v)).value, Some(v)) == Ok(KindAfter(av, Some(v)).value)
  {
    var bE := ObjectEntries(v).value;
    if bE != map[] && !(bE.Keys <= TargetEntries(av).value.Keys) {
      var aE := TargetEntries(av).value;
      assert TargetEntries(KindAfter(av, Some(v)).value) == Ok(bE + aE);
      assert bE.Keys <= (bE + aE).Keys;
    }
  }

  /** A source kind counts only through the entries `Object.keys` lists. */
  lemma KindAfterByEntries(av: Option<Json>, v: Json)
    requires ObjectEntries(v).Ok?
    ensures KindAfter(av, Some(v)) == KindAfter(av, Some(JObj(ObjectEntries(v).value)))
  {
  }

  /** Every kind of the source can be merged into the target. */
  predicate Mergeable(a: Metabase, b: Metabase)
  {
    forall k :: k in TopLevelKeys ==> KindAfter(Get(a, k), Get(b, k)).Ok?
  }

  /** The value under `k` once the kinds before index `n` have been merged. */
  function PartAfter(a: Metabase, b: Metabase, k: string, n: nat): Option<Json>
    requires n <= |TopLevelKeys|
  {
    if k in TopLevelKeys[..n] && KindAfter(Get(a, k), Get(b, k)).Ok? then KindAfter(Get(a, k), Get(b, k)).value
    else Get(a, k)
  }

  /** The keys a merge may hold: the target's, and the kinds the source holds. */
  function MergedKeys(a: Metabase, b: Metabase): set<string>
  {
    a.Keys + (set k | k in TopLevelKeys && k in b)
  }

  /** What `merge(a, b)` leaves in `a`, key by key. */
  function Merged(a: Metabase, b: Metabase): (r: Result<Metabase>)
    ensures r.Ok? <==> Mergeable(a, b)
  {
    if !Mergeable(a, b) then Err("TypeError")
    else
      Ok(map k | k in MergedKeys(a, b) && PartAfter(a, b, k, |TopLevelKeys|).Some?
           :: PartAfter(a, b, k, |TopLevelKeys|).value)
  }

  /** The merged value under each key. */
  lemma MergedAt(a: Metabase, b: Metabase, k: string)
    requires Merged(a, b).Ok?
    ensures Get(Merged(a, b).value, k) == PartAfter(a, b, k, |TopLevelKeys|)
  {
    assert TopLevelKeys[..|TopLevelKeys|] == TopLevelKeys;
    if PartAfter(a, b, k, |TopLevelKeys|).Some? && k !in a {
      assert k in TopLevelKeys && Get(b, k).Some?;
    }
  }

  /** `merge` never overwrites an entry of the target. */
  lemma MergeKeepsTarget(a: Metabase, b: Metabase, k: string, s: string)
    requires Merged(a, b).Ok?
    requires k in a && a[k].JObj? && s in a[k].fields
    ensures k in Merged(a, b).value && Merged(a, b).value[k].JObj?
    ensures s in Merged(a, b).value[k].fields && Merged(a, b).value[k].fields[s] == a[k].fields[s]
  {
    MergedAt(a, b, k);
    assert TopLevelKeys[..|TopLevelKeys|] == TopLevelKeys;
  }

  /**
   * A kind the source holds entries for ends up with every entry of both:
   * the target's own under a name it has, the source's otherwise.  It is
   * an object unless the target held an array that already had them all.
   */
  lemma MergeAddsSource(a: Metabase, b: Metabase, k: string)
    requires Merged(a, b).Ok?
    requires k in TopLevelKeys && k in b && ObjectEntries(b[k]).Ok? && ObjectEntries(b[k]).value != map[]
    ensures k in Merged(a, b).value
    ensures TargetEntries(Some(Merged(a, b).value[k])) == Ok(ObjectEntries(b[k]).value + TargetEntries(Get(a, k)).value)
    ensures !(k in a && a[k].JArr?) ==> Merged(a, b).value[k].JObj?
  {
    var kv := KindAfter(Get(a, k), Some(b[k]));
    assert Get(b, k) == Some(b[k]);
    assert kv.Ok? by { assert Mergeable(a, b); }
    assert TopLevelKeys[..|TopLevelKeys|] == TopLevelKeys;
    assert PartAfter(a, b, k, |TopLevelKeys|) == kv.value;
    MergedAt(a, b, k);
    KindAfterEntries(Get(a, k), b[k]);
    assert Get(Merged(a, b).value, k) == kv.value;
  }

  /** A key the target lacks is created only for a kind the source holds entries of. */
  lemma MergeCreatesOnlyFromSource(a: Metabase, b: Metabase, k: string)
    requires Merged(a, b).Ok?
    requires k in Merged(a, b).value && k !in a
    ensures k in TopLevelKeys && k in b && ObjectEntries(b[k]).Ok? && ObjectEntries(b[k]).value != map[]
  {
    MergedAt(a, b, k);
    assert TopLevelKeys[..|TopLevelKeys|] == TopLevelKeys;
  }

  /** Keys other than the nine kinds, `metadata` among them, are untouched. */
  lemma MergeUntouched(a: Metabase, b: Metabase, k: string)
    requires Merged(a, b).Ok?
    requires k !in TopLevelKeys
    ensures Get(Merged(a, b).value, k) == Get(a, k)
  {
    MergedAt(a, b, k);
  }

  /** Merging the same source again changes nothing. */
  lemma MergeIdempotent(a: Metabase, b: Metabase)
    requires Merged(a, b).Ok?
    ensures Merged(Merged(a, b).value, b) == Merged(a, b)
  {
    var r := Merged(a, b).value;
    assert TopLevelKeys[..|TopLevelKeys|] == TopLevelKeys;
    forall k | k in TopLevelKeys
      ensures KindAfter(Get(r, k), Get(b, k)) == Ok(Get(r, k))
    {
      MergedAt(a, b, k);
      if Get(b, k).Some? {
        KindAfterIdempotent(Get(a, k), Get(b, k).value);
      }
    }
    assert Mergeable(r, b);
    forall k
      ensures Get(Merged(r, b).value, k) == Get(r, k)
    {
      MergedAt(r, b, k);
    }
    MapsEqualByGet(Merged(r, b).value, r);
  }

  /** Merging a source with none of the kinds leaves the target as it is. */
  lemma MergeNothing(a: Metabase)
    ensures Merged(a, map[]) == Ok(a)
  {
    assert Mergeable(a, map[]);
    forall k
      ensures Get(Merged(a, map[]).value, k) == Get(a, k)
    {
      MergedAt(a, map[], k);
    }
    MapsEqualByGet(Merged(a, map[]).value, a);
  }

  /** The entries of a kind after the source entries named in `done` have been visited. */
  function KindPart(av: Option<Json>, bE: map<string, Json>, done: set<string>): Option<Json>
  {
    if TargetEntries(av).Err? || done <= TargetEntries(av).value.Keys then av
    else Some(JObj(Visited(bE, done) + TargetEntries(av).value))
  }

  /** The source entries named in `done`. */
  function Visited(bE: map<string, Json>, done: set<string>): map<string, Json>
  {
    map s | s in done && s in bE :: bE[s]
  }

  /** Visiting one more source entry, seen on plain maps. */
  lemma VisitedStep(bE: map<string, Json>, done: set<string>, s: string, aE: map<string, Json>)
    requires s in bE && s !in done
    ensures s !in aE ==> (Visited(bE, done) + aE)[s := bE[s]] == Visited(bE, done + {s}) + aE
    ensures s in aE ==> Visited(bE, done) + aE == Visited(bE, done + {s}) + aE
    ensures done <= aE.Keys ==> Visited(bE, done) + aE == aE
  {
  }

  /** A metabase object that `merge` updates in place. */
  class MetabaseObject {
    var entries: Metabase

    constructor (entries: Metabase)
      ensures this.entries == entries
    {
      this.entries := entries;
    }

    /**
     * The inner `forEach` of `merge` for one kind: each source entry whose
     * name the target lacks is added, creating the kind's object at the
     * first addition.
     */
    method MergeKind(k: string, bE: map<string, Json>) returns (ok: bool)
      modifies this
      ensures ok <==> KindAfter(old(Get(entries, k)), Some(JObj(bE))).Ok?
      ensures ok ==> Get(entries, k) == KindAfter(old(Get(entries, k)), Some(JObj(bE))).value
      ensures ok ==> SameExcept(entries, old(entries), k)
    {
      var av := Get(entries, k);
      if bE != map[] && TargetEntries(av).Err? {
        return false;
      }
      ghost var e0 := entries;
      ghost var done: set<string> := {};
      var rest := bE.Keys;
      while rest != {}
        invariant done + rest == bE.Keys
        invariant done !! rest
        invariant SameExcept(entries, e0, k)
        invariant Get(entries, k) == KindPart(av, bE, done)
        decreases |rest|
      {
        var s :| s in rest;
        var topA := TargetEntries(Get(entries, k)).value;
        KindPartStep(av, bE, done, s, topA);
        if s !in topA {
          entries := entries[k := JObj(topA[s := bE[s]])];
        }
        MoveKey(done, rest, bE.Keys, s);
        rest := rest - {s};
        done := done + {s};
      }
      ok := true;
      KindPartAll(av, bE, done);
    }

    /**
     * `merge(a, b)` with this object as `a`: the nine kinds are visited in
     * order and the object itself is returned.
     */
    method Merge(b: Metabase) returns (r: Result<MetabaseObject>)
      modifies this
      ensures r.Ok? <==> Merged(old(entries), b).Ok?
      ensures r.Ok? ==> r.value == this && entries == Merged(old(entries), b).value
    {
      ghost var a := entries;
      TopLevelKeysDistinct();
      var i := 0;
      while i < |TopLevelKeys|
        invariant 0 <= i <= |TopLevelKeys|
        invariant forall j :: 0 <= j < i ==> KindAfter(Get(a, TopLevelKeys[j]), Get(b, TopLevelKeys[j])).Ok?
        invariant forall key :: Get(entries, key) == PartAfter(a, b, key, i)
      {
        var key := TopLevelKeys[i];
        ghost var e := entries;
        assert key !in TopLevelKeys[..i];
        assert Get(entries, key) == Get(a, key);
        if key in b {
          var bE := ObjectEntries(b[key]);
          if bE.Err? {
            return Err(bE.error);
          }
          KindAfterByEntries(Get(entries, key), b[key]);
          var ok := MergeKind(key, bE.value);
          if !ok {
            return Err("TypeError: Cannot use 'in' operator");
          }
        }
        MergePartStep(a, b, i, e, entries);
        i := i + 1;
      }
      assert TopLevelKeys[..i] == TopLevelKeys;
      forall key
        ensures Get(entries, key) == Get(Merged(a, b).value, key)
      {
        MergedAt(a, b, key);
      }
      MapsEqualByGet(entries, Merged(a, b).value);
      return Ok(this);
    }
  }

  lemma MoveKey(done: set<string>, rest: set<string>, all: set<string>, s: string)
    requires done + rest == all && done !! rest && s in rest
    ensures (done + {s}) + (rest - {s}) == all && (done + {s}) !! (rest - {s})
  {
  }

  /** Two metabases that agree on every key but `k`. */
  ghost predicate SameExcept(m1: Metabase, m2: Metabase, k: string)
  {
    forall key :: key != k ==> Get(m1, key) == Get(m2, key)
  }

  lemma KindPartStep(av: Option<Json>, bE: map<string, Json>, done: set<string>, s: string, topA: map<string, Json>)
    requires bE == map[] || TargetEntries(av).Ok?
    requires s in bE && s !in done && done <= bE.Keys
    requires topA == TargetEntries(KindPart(av, bE, done)).value
    ensures s !in topA ==> Some(JObj(topA[s := bE[s]])) == KindPart(av, bE, done + {s})
    ensures s in topA ==> KindPart(av, bE, done) == KindPart(av, bE, done + {s})
  {
    var aE := TargetEntries(av).value;
    VisitedStep(bE, done, s, aE);
    if done <= aE.Keys {
      assert KindPart(av, bE, done) == av;
      assert topA == aE;
    } else {
      assert KindPart(av, bE, done) == Some(JObj(Visited(bE, done) + aE));
      assert topA == Visited(bE, done) + aE;
    }
  }

  /** Once every source entry has been visited the kind holds what `KindAfter` says. */
  lemma KindPartAll(av: Option<Json>, bE: map<string, Json>, done: set<string>)
    requires bE == map[] || TargetEntries(av).Ok?
    requires done == bE.Keys
    ensures KindAfter(av, Some(JObj(bE))).Ok?
    ensures KindPart(av, bE, done) == KindAfter(av, Some(JObj(bE))).value
  {
    if bE != map[] {
      assert Visited(bE, done) == bE;
    }
  }

  lemma MergePartStep(a: Metabase, b: Metabase, i: nat, e: Metabase, e': Metabase)
    requires i < |TopLevelKeys|
    requires forall p, q :: 0 <= p < q < |TopLevelKeys| ==> TopLevelKeys[p] != TopLevelKeys[q]
    requires forall key :: Get(e, key) == PartAfter(a, b, key, i)
    requires KindAfter(Get(a, TopLevelKeys[i]), Get(b, TopLevelKeys[i])).Ok?
    requires Get(e', TopLevelKeys[i]) == KindAfter(Get(a, TopLevelKeys[i]), Get(b, TopLevelKeys[i])).value
    requires SameExcept(e', e, TopLevelKeys[i])
    ensures forall key :: Get(e', key) == PartAfter(a, b, key, i + 1)
  {
    assert TopLevelKeys[..i + 1] == TopLevelKeys[..i] + [TopLevelKeys[i]];
  }

  // ---------------------------------------------------------------- dependencies

  /**
   * The framework a header path lies in: the path segment before the first
   * ".framework", after the last '/' that precedes it.
   */
  function FrameworkOf(header: string): (r: Option<string>)
    ensures r.Some? <==> Find(header, ".framework").Some?
    ensures r.Some? ==> '/' !in r.value
  {
    match Find(header, ".framework")
    case None => None
    case Some(index) =>
      var start := match LastIndexOfUpTo(header, '/', index) case None => 0 case Some(j) => j + 1;
      assert forall t :: start <= t < index ==> header[t] != '/';
      Some(header[start..index])
  }

  /** A framework's header path `dir/Name.framework/...` names `Name`. */
  lemma FrameworkOfPath(dir: string, name: string, rest: string)
    requires '.' !in dir && '.' !in name && '/' !in name
    ensures FrameworkOf(dir + "/" + name + ".framework" + rest) == Some(name)
  {
    var h := dir + "/" + name + ".framework" + rest;
    var index := |dir| + 1 + |name|;
    assert h[index..index + 10] == ".framework";
    forall j | 0 <= j < index
      ensures !MatchAt(h, ".framework", j)
    {
      assert h[j] != '.' by {
        if j < |dir| {
          assert h[j] == dir[j];
        } else if j > |dir| {
          assert h[j] == name[j - |dir| - 1];
        }
      }
      if j + 10 <= |h| {
        assert h[j..j + 10][0] == h[j];
      }
    }
    FindIs(h, ".framework", index);
    assert h[|dir|] == '/';
    var last := LastIndexOfUpTo(h, '/', index);
    assert last == Some(|dir|) by {
      forall t | |dir| < t <= index
        ensures h[t] != '/'
      {
        if t < index {
          assert h[t] == name[t - |dir| - 1];
        }
      }
    }
    assert h[|dir| + 1..index] == name;
  }

  /** The frameworks named by a list of header paths. */
  function FrameworkSet(headers: seq<string>): set<string>
  {
    set i | 0 <= i < |headers| && FrameworkOf(headers[i]).Some? :: FrameworkOf(headers[i]).value
  }

  predicate Distinct(s: seq<string>)
  {
    forall p, q :: 0 <= p < q < |s| ==> s[p] != s[q]
  }

  function Elems(s: seq<string>): set<string>
  {
    set x | x in s
  }

  /** The index of the first header that lies in framework `name`. */
  function FirstHeaderOf(headers: seq<string>, name: string): (r: Option<nat>)
    ensures r.Some? ==> r.value < |headers| && FrameworkOf(headers[r.value]) == Some(name)
    ensures r.Some? ==> forall t :: 0 <= t < r.value ==> FrameworkOf(headers[t]) != Some(name)
    ensures r.None? ==> forall t :: 0 <= t < |headers| ==> FrameworkOf(headers[t]) != Some(name)
  {
    if headers == [] then None
    else if FrameworkOf(headers[0]) == Some(name) then Some(0)
    else
      match FirstHeaderOf(headers[1..], name)
      case None => None
      case Some(h) => Some(h + 1)
  }

  /**
   * The frameworks listed so far are those of the first `i` headers, in the
   * order of their first headers.
   */
  ghost predicate InFirstOrder(headers: seq<string>, frameworks: seq<string>, i: nat)
    requires i <= |headers|
  {
    && (forall p :: 0 <= p < |frameworks| ==>
          FirstHeaderOf(headers, frameworks[p]).Some? && FirstHeaderOf(headers, frameworks[p]).value < i)
    && (forall p, q :: 0 <= p < q < |frameworks| ==>
          FirstHeaderOf(headers, frameworks[p]).value < FirstHeaderOf(headers, frameworks[q]).value)
  }

  /** A header naming a framework none of the earlier headers name is its first. */
  lemma FirstHeaderAt(headers: seq<string>, i: nat, f: string)
    requires i < |headers| && FrameworkOf(headers[i]) == Some(f)
    requires f !in FrameworkSet(headers[..i])
    ensures FirstHeaderOf(headers, f) == Some(i)
  {
    forall t | 0 <= t < i
      ensures FrameworkOf(headers[t]) != Some(f)
    {
      assert headers[..i][t] == headers[t];
    }
  }

  lemma InFirstOrderStep(headers: seq<string>, frameworks: seq<string>, i: nat, f: Option<string>)
    requires i < |headers| && f == FrameworkOf(headers[i])
    requires InFirstOrder(headers, frameworks, i) && Elems(frameworks) == FrameworkSet(headers[..i])
    ensures f.Some? && f.value !in frameworks ==> InFirstOrder(headers, frameworks + [f.value], i + 1)
    ensures !(f.Some? && f.value !in frameworks) ==> InFirstOrder(headers, frameworks, i + 1)
  {
    if f.Some? && f.value !in frameworks {
      FirstHeaderAt(headers, i, f.value);
      var fs := frameworks + [f.value];
      assert forall p :: 0 <= p < |frameworks| ==> fs[p] == frameworks[p];
    }
  }

  /**
   * `extractFrameworksFromDependencies`: the frameworks of the headers, each
   * once, in the order a `Set` keeps them: framework `p` comes before
   * framework `q` exactly when its first header comes before `q`'s.
   */
  method ExtractFrameworksFromDependencies(headers: seq<string>) returns (frameworks: seq<string>)
    ensures Elems(frameworks) == FrameworkSet(headers)
    ensures Distinct(frameworks)
    ensures forall p :: 0 <= p < |frameworks| ==> FirstHeaderOf(headers, frameworks[p]).Some?
    ensures forall p, q :: 0 <= p < q < |frameworks| ==>
              FirstHeaderOf(headers, frameworks[p]).value < FirstHeaderOf(headers, frameworks[q]).value
  {
    frameworks := [];
    for i := 0 to |headers|
      invariant Elems(frameworks) == FrameworkSet(headers[..i])
      invariant Distinct(frameworks)
      invariant InFirstOrder(headers, frameworks, i)
    {
      var f := FrameworkOf(headers[i]);
      InFirstOrderStep(headers, frameworks, i, f);
      if f.Some? && f.value !in frameworks {
        frameworks := frameworks + [f.value];
      }
      FrameworkSetStep(headers, i);
    }
    assert headers[..|headers|] == headers;
  }

  lemma FrameworkSetStep(headers: seq<string>, i: nat)
    requires i < |headers|
    ensures FrameworkSet(headers[..i + 1])
         == FrameworkSet(headers[..i]) + (if FrameworkOf(headers[i]).Some? then {FrameworkOf(headers[i]).value} else {})
  {
    var p, q := headers[..i + 1], headers[..i];
    forall x | x in FrameworkSet(p)
      ensures x in FrameworkSet(q) + (if FrameworkOf(headers[i]).Some? then {FrameworkOf(headers[i]).value} else {})
    {
      var j :| 0 <= j < |p| && FrameworkOf(p[j]).Some? && FrameworkOf(p[j]).value == x;
      if j < i {
        assert q[j] == p[j];
      }
    }
    forall x | x in FrameworkSet(q)
      ensures x in FrameworkSet(p)
    {
      var j :| 0 <= j < |q| && FrameworkOf(q[j]).Some? && FrameworkOf(q[j]).value == x;
      assert p[j] == q[j];
    }
    if FrameworkOf(headers[i]).Some? {
      assert p[i] == headers[i];
    }
  }

  /**
   * `json.metadata.dependencies`: the header paths a framework's metabase
   * depends on; a missing metadata object or list, or a non-string entry,
   * makes the extraction throw.
   */
  function DependenciesOf(json: Metabase): (r: Result<seq<string>>)
    ensures r.Ok? ==> "metadata" in json && json["metadata"].JObj?
  {
    if "metadata" in json && json["metadata"].JObj? && "dependencies" in json["metadata"].fields
       && json["metadata"].fields["dependencies"].JArr?
       && (forall item :: item in json["metadata"].fields["dependencies"].items ==> item.JStr?)
    then
      var items := json["metadata"].fields["dependencies"].items;
      Ok(seq(|items|, i requires 0 <= i < |items| => items[i].s))
    else Err("TypeError: dependencies")
  }

  // ---------------------------------------------------------------- unified metabase

  /** A framework whose metabase was generated and whose dependencies can be read. */
  predicate Generated(frameworkMap: map<string, Result<Metabase>>, name: string)
  {
    name in frameworkMap && frameworkMap[name].Ok? && DependenciesOf(frameworkMap[name].value).Ok?
  }

  /** The frameworks a generated framework depends on. */
  function DependentFrameworks(frameworkMap: map<string, Result<Metabase>>, name: string): set<string>
    requires Generated(frameworkMap, name)
  {
    FrameworkSet(DependenciesOf(frameworkMap[name].value).value)
  }

  /** Every framework in `done` was generated, and what it depends on is done or queued. */
  predicate Closed(frameworkMap: map<string, Result<Metabase>>, done: seq<string>, todo: seq<string>)
  {
    forall d :: d in done ==>
      Generated(frameworkMap, d) && DependentFrameworks(frameworkMap, d) <= Elems(done) + Elems(todo)
  }

  /** The metabases of `names` merged in order into an empty object. */
  function MergeAll(frameworkMap: map<string, Result<Metabase>>, names: seq<string>): Result<Metabase>
  {
    if names == [] then Ok(map[])
    else
      match MergeAll(frameworkMap, names[..|names| - 1])
      case Err(e) => Err(e)
      case Ok(acc) =>
        var d := names[|names| - 1];
        if d in frameworkMap && frameworkMap[d].Ok? then Merged(acc, frameworkMap[d].value)
        else Err("not generated")
  }

  lemma ElemsConcat(s: seq<string>, t: seq<string>)
    ensures Elems(s + t) == Elems(s) + Elems(t)
  {
    assert forall x :: x in s + t <==> x in s || x in t;
  }

  /**
   * The loop over a framework's dependencies: each one neither done nor
   * already queued is queued once.
   */
  method Enqueue(todo: seq<string>, done: seq<string>, dependencies: seq<string>) returns (r: seq<string>)
    ensures Elems(r) == Elems(todo) + (Elems(dependencies) - Elems(done))
    ensures |r| >= |todo| && r[..|todo|] == todo
    ensures Elems(dependencies) <= Elems(done) + Elems(todo) ==> r == todo
    ensures Distinct(todo) && Elems(todo) !! Elems(done) ==> Distinct(r) && Elems(r) !! Elems(done)
  {
    r := todo;
    for i := 0 to |dependencies|
      invariant Elems(r) == Elems(todo) + (Elems(dependencies[..i]) - Elems(done))
      invariant |r| >= |todo| && r[..|todo|] == todo
      invariant Elems(dependencies) <= Elems(done) + Elems(todo) ==> r == todo
      invariant Distinct(todo) && Elems(todo) !! Elems(done) ==> Distinct(r) && Elems(r) !! Elems(done)
    {
      var dep := dependencies[i];
      assert dependencies[..i + 1] == dependencies[..i] + [dep];
      ElemsConcat(dependencies[..i], [dep]);
      assert Elems([dep]) == {dep};
      assert dep in Elems(dependencies);
      if dep !in done && dep !in r {
        ElemsConcat(r, [dep]);
        r := r + [dep];
      }
    }
    assert dependencies[..|dependencies|] == dependencies;
  }

  lemma HeadTail(s: seq<string>)
    requires s != []
    ensures s == [s[0]] + s[1..]
  {
  }

  /** What the worklist loop keeps: the request is covered, and everything done is generated and closed. */
  predicate Worklist(frameworkMap: map<string, Result<Metabase>>, initial: seq<string>, done: seq<string>, todo: seq<string>)
  {
    Elems(initial) <= Elems(done) + Elems(todo)
    && Elems(done) <= frameworkMap.Keys
    && Closed(frameworkMap, done, todo)
    && (Distinct(initial) ==> Distinct(done) && Distinct(todo) && Elems(done) !! Elems(todo))
  }

  /**
   * `unifiedMetabase`: frameworks are taken from the front of the list;
   * each one's metabase is merged into the result and the frameworks it
   * depends on are queued unless done or queued already.  A framework the
   * map does not hold, or whose metabase fails, fails the whole run.
   */
  method UnifiedMetabase(frameworkMap: map<string, Result<Metabase>>, frameworksToGenerate: seq<string>)
    returns (r: Result<Metabase>, done: seq<string>)
    ensures r.Ok? ==> MergeAll(frameworkMap, done) == r
    ensures r.Ok? ==> Closed(frameworkMap, done, [])
    ensures r.Ok? ==> Elems(frameworksToGenerate) <= Elems(done)
    ensures r.Ok? && Distinct(frameworksToGenerate) ==> Distinct(done)
  {
    var metabase := new MetabaseObject(map[]);
    var todo := frameworksToGenerate;
    done := [];
    while todo != []
      invariant Worklist(frameworkMap, frameworksToGenerate, done, todo)
      invariant MergeAll(frameworkMap, done) == Ok(metabase.entries)
      decreases |frameworkMap.Keys - Elems(done)|, |todo|
    {
      var f := todo[0];
      ghost var before, queued := done, todo[1..];
      HeadTail(todo);
      todo := todo[1..];
      if f !in frameworkMap || frameworkMap[f].Err? {
        return Err("not generated: " + f), done;
      }
      var json := frameworkMap[f].value;
      done := done + [f];
      assert done[..|done| - 1] == before;
      var m := metabase.Merge(json);
      if m.Err? {
        return Err(m.error), done;
      }
      var deps := DependenciesOf(json);
      if deps.Err? {
        return Err(deps.error), done;
      }
      var frameworks := ExtractFrameworksFromDependencies(deps.value);
      todo := Enqueue(todo, done, frameworks);
      UnifiedStep(frameworkMap, frameworksToGenerate, before, f, queued, frameworks, todo);
    }
    assert Elems(todo) == {};
    return Ok(metabase.entries), done;
  }

  /** One round of the worklist keeps its invariant and makes progress. */
  lemma UnifiedStep(frameworkMap: map<string, Result<Metabase>>, initial: seq<string>, before: seq<string>, f: string,
                    queued: seq<string>, frameworks: seq<string>, todo: seq<string>)
    requires Worklist(frameworkMap, initial, before, [f] + queued)
    requires Generated(frameworkMap, f)
    requires Elems(frameworks) == DependentFrameworks(frameworkMap, f)
    requires Elems(todo) == Elems(queued) + (Elems(frameworks) - Elems(before + [f]))
    requires Elems(frameworks) <= Elems(before + [f]) + Elems(queued) ==> todo == queued
    requires Distinct(queued) && Elems(queued) !! Elems(before + [f]) ==>
               Distinct(todo) && Elems(todo) !! Elems(before + [f])
    ensures Worklist(frameworkMap, initial, before + [f], todo)
    ensures f in before ==> todo == queued && Elems(before + [f]) == Elems(before)
    ensures f !in before ==> |frameworkMap.Keys - Elems(before + [f])| < |frameworkMap.Keys - Elems(before)|
  {
    ElemsConcat(before, [f]);
    ElemsConcat([f], queued);
    ElemsSingle(f);
    StepClosed(frameworkMap, before, f, queued, frameworks, todo);
    if Distinct(initial) {
      StepDistinct(before, f, queued);
    }
    if f !in before {
      assert f !in Elems(before);
      FewerLeft(frameworkMap.Keys, Elems(before), f);
    }
  }

  lemma ElemsSingle(f: string)
    ensures Elems([f]) == {f}
  {
  }

  lemma FewerLeft(keys: set<string>, done: set<string>, f: string)
    requires f in keys && f !in done
    ensures |keys - (done + {f})| < |keys - done|
  {
    assert keys - done == (keys - (done + {f})) + {f};
  }

  lemma StepClosed(frameworkMap: map<string, Result<Metabase>>, before: seq<string>, f: string,
                   queued: seq<string>, frameworks: seq<string>, todo: seq<string>)
    requires Closed(frameworkMap, before, [f] + queued)
    requires Generated(frameworkMap, f)
    requires Elems(frameworks) == DependentFrameworks(frameworkMap, f)
    requires Elems(todo) == Elems(queued) + (Elems(frameworks) - Elems(before + [f]))
    requires Elems(before + [f]) == Elems(before) + {f}
    requires Elems([f] + queued) == {f} + Elems(queued)
    ensures Closed(frameworkMap, before + [f], todo)
  {
    forall d | d in before + [f]
      ensures Generated(frameworkMap, d) && DependentFrameworks(frameworkMap, d) <= Elems(before + [f]) + Elems(todo)
    {
      if d != f {
        assert d in before;
      }
    }
  }

  lemma StepDistinct(before: seq<string>, f: string, queued: seq<string>)
    requires Distinct(before) && Distinct([f] + queued) && Elems(before) !! Elems([f] + queued)
    requires Elems(before + [f]) == Elems(before) + {f}
    requires Elems([f] + queued) == {f} + Elems(queued)
    ensures Distinct(before + [f]) && Distinct(queued) && Elems(queued) !! Elems(before + [f])
  {
    var done := before + [f];
    forall p, q | 0 <= p < q < |done|
      ensures done[p] != done[q]
    {
      if q == |done| - 1 {
        assert done[p] in Elems(before);
      }
    }
    forall p, q | 0 <= p < q < |queued|
      ensures queued[p] != queued[q]
    {
      assert queued[p] == ([f] + queued)[p + 1] && queued[q] == ([f] + queued)[q + 1];
    }
    forall p | 0 <= p < |queued|
      ensures queued[p] != f
    {
      assert ([f] + queued)[0] == f && ([f] + queued)[p + 1] == queued[p];
    }
  }

  // ---------------------------------------------------------------- header files

  /** What `fs.statSync` tells apart: a file, a directory with its listing, or anything else. */
  datatype Node = File | Directory(entries: seq<DirEntry>) | Special
  datatype DirEntry = DirEntry(name: string, node: Node)

  /**
   * `recursiveReadDir`: the paths of everything below `dir` that is not a
   * directory, depth first in listing order.
   */
  function ReadDirFiles(dir: string, entries: seq<DirEntry>): (r: seq<string>)
    decreases entries
  {
    if entries == [] then []
    else
      var fp := dir + "/" + entries[0].name;
      (match entries[0].node
       case Directory(sub) => ReadDirFiles(fp, sub)
       case _ => [fp])
      + ReadDirFiles(dir, entries[1..])
  }

  /** Every path `recursiveReadDir` lists lies below the directory. */
  lemma {:induction false} ReadDirFilesBelow(dir: string, entries: seq<DirEntry>)
    decreases entries
    ensures forall x :: x in ReadDirFiles(dir, entries) ==> StartsWith(x, dir + "/")
  {
    if entries != [] {
      var fp := dir + "/" + entries[0].name;
      ReadDirFilesBelow(dir, entries[1..]);
      match entries[0].node
      case Directory(sub) =>
        ReadDirFilesBelow(fp, sub);
        forall x | x in ReadDirFiles(fp, sub)
          ensures StartsWith(x, dir + "/")
        {
          assert x[..|dir| + 1] == (fp + "/")[..|dir| + 1];
        }
      case _ =>
    }
  }

  /** The header names `/\.(h(pp)?|swift)$/` accepts. */
  predicate IsHeaderName(fn: string)
  {
    EndsWith(fn, ".h") || EndsWith(fn, ".hpp") || EndsWith(fn, ".swift")
  }

  /** `getAllHeaderFiles` for one directory: the listed paths that are header names, in order. */
  function HeaderFiles(files: seq<string>): (r: seq<string>)
    ensures forall x :: x in r <==> x in files && IsHeaderName(x)
  {
    if files == [] then []
    else (if IsHeaderName(files[0]) then [files[0]] else []) + HeaderFiles(files[1..])
  }

  /**
   * `collectFrameworkHeaders`: the umbrella header itself when the path is
   * a file, every header file below it when it is a directory, nothing
   * otherwise; `statSync` throws for a missing path.
   */
  function CollectFrameworkHeaders(path: string, node: Option<Node>): (r: Result<seq<string>>)
    ensures r.Err? <==> node.None?
    ensures node == Some(File) ==> r == Ok([path])
    ensures node == Some(Special) ==> r == Ok([])
    ensures node.Some? && node.value.Directory? ==>
              forall x :: x in r.value <==> x in ReadDirFiles(path, node.value.entries) && IsHeaderName(x)
  {
    match node
    case None => Err("ENOENT")
    case Some(File) => Ok([path])
    case Some(Directory(entries)) => Ok(HeaderFiles(ReadDirFiles(path, entries)))
    case Some(Special) => Ok([])
  }
}
