/**
 * Java types and the class table that reflection consults on Android
 * (android/src/hyperloop/HyperloopUtil.java).  The JVM's class objects are
 * modelled by their names and a table saying, for each name, its superclass,
 * its interfaces and its modifiers.
 */
module JavaTypes {
  import opened Wrappers

  /** The primitive types (`void` only occurs as a return type). */
  datatype Prim = Byte | Short | Int | Long | Float | Double | Boolean | Char | Void

  /** A parameter or component type: primitive, class or interface, or array. */
  datatype JType = Primitive(p: Prim) | Ref(name: string) | ArrayOf(elem: JType)

  /** What reflection reports about one class or interface. */
  datatype ClassInfo = ClassInfo(
    super: Option<string>,
    interfaces: seq<string>,
    isInterface: bool,
    isFinal: bool,
    isPublic: bool,
    isProtected: bool,
    /** the length of the longest chain of supertypes above this class */
    rank: nat)

  /** The classes the JVM can load, by fully qualified name. */
  type ClassTable = map<string, ClassInfo>

  function PrimName(p: Prim): string
  {
    match p
    case Byte => "byte"
    case Short => "short"
    case Int => "int"
    case Long => "long"
    case Float => "float"
    case Double => "double"
    case Boolean => "boolean"
    case Char => "char"
    case Void => "void"
  }

  /** The class name a reference type goes by in the class table. */
  function TypeName(t: JType): string
  {
    match t
    case Primitive(p) => PrimName(p)
    case Ref(n) => n
    case ArrayOf(e) => TypeName(e) + "[]"
  }

  /** The wrapper class of each primitive (`java.lang.Integer` for `int`, …). */
  function BoxClass(p: Prim): string
  {
    match p
    case Byte => "java.lang.Byte"
    case Short => "java.lang.Short"
    case Int => "java.lang.Integer"
    case Long => "java.lang.Long"
    case Float => "java.lang.Float"
    case Double => "java.lang.Double"
    case Boolean => "java.lang.Boolean"
    case Char => "java.lang.Character"
    case Void => "java.lang.Void"
  }

  function Rank(h: ClassTable, c: string): nat
  {
    if c in h then h[c].rank else 0
  }

  /** The direct supertypes of a class: its superclass first, then its interfaces. */
  function Parents(h: ClassTable, c: string): seq<string>
  {
    if c !in h then []
    else (if h[c].super.Some? then [h[c].super.value] else []) + h[c].interfaces
  }

  predicate ParentsBelow(h: ClassTable, c: string)
  {
    forall i :: 0 <= i < |Parents(h, c)| ==> Parents(h, c)[i] in h && Rank(h, Parents(h, c)[i]) < Rank(h, c)
  }

  /** Every supertype a class names is loadable and sits lower in the hierarchy. */
  ghost predicate WellFormed(h: ClassTable)
  {
    forall c {:trigger ParentsBelow(h, c)} :: c in h ==> ParentsBelow(h, c)
  }

  lemma ParentRank(h: ClassTable, c: string, i: int)
    requires WellFormed(h) && 0 <= i < |Parents(h, c)|
    ensures Parents(h, c)[i] in h && Rank(h, Parents(h, c)[i]) < Rank(h, c)
  {
    assert ParentsBelow(h, c);
  }

  /** `t` is reached from `c` by exactly `k` steps up the supertype relation. */
  ghost predicate Reaches(h: ClassTable, c: string, t: string, k: nat)
    decreases k, 0
  {
    if k == 0 then c == t else SomeParentReaches(h, c, 0, t, k - 1)
  }

  /** One of the parents of `c` from the `i`-th on reaches `t` in `k` steps. */
  ghost predicate SomeParentReaches(h: ClassTable, c: string, i: nat, t: string, k: nat)
    decreases k, if i <= |Parents(h, c)| then |Parents(h, c)| - i + 1 else 0
  {
    i < |Parents(h, c)| && (Reaches(h, Parents(h, c)[i], t, k) || SomeParentReaches(h, c, i + 1, t, k))
  }

  /** One step up from a parent. */
  lemma {:induction false} ReachesStep(h: ClassTable, c: string, i: nat, p: string, target: string, k: nat, m: nat)
    requires i < |Parents(h, c)| && Parents(h, c)[i] == p && Reaches(h, p, target, k) && m == k + 1
    ensures Reaches(h, c, target, m)
  {
    var j := i;
    while j > 0
      invariant 0 <= j <= i && SomeParentReaches(h, c, j, target, k)
    {
      j := j - 1;
    }
  }

  /** A path of `k` steps goes through one of the parents. */
  lemma {:induction false} ReachingParent(h: ClassTable, c: string, target: string, k: nat) returns (i: nat)
    requires k > 0 && Reaches(h, c, target, k)
    ensures i < |Parents(h, c)| && Reaches(h, Parents(h, c)[i], target, k - 1)
  {
    i := 0;
    while !Reaches(h, Parents(h, c)[i], target, k - 1)
      invariant SomeParentReaches(h, c, i, target, k - 1)
      decreases |Parents(h, c)| - i
    {
      i := i + 1;
    }
  }

  /**
   * `target` is `c` itself or one of its supertypes: the part of
   * `Class.isAssignableFrom` that walks the superclass and the interfaces,
   * as `hops` does.
   */
  predicate IsSupertype(h: ClassTable, target: string, c: string)
    requires WellFormed(h)
    decreases Rank(h, c)
  {
    c == target ||
    exists i :: 0 <= i < |Parents(h, c)| && ParentOk(h, c, i) && IsSupertype(h, target, Parents(h, c)[i])
  }

  /** Carries the rank of a parent into the quantifier above. */
  predicate ParentOk(h: ClassTable, c: string, i: int)
    requires WellFormed(h) && 0 <= i < |Parents(h, c)|
    ensures ParentOk(h, c, i) && Rank(h, Parents(h, c)[i]) < Rank(h, c)
  {
    ParentRank(h, c, i);
    true
  }

  lemma {:induction false} AssignableReaches(h: ClassTable, target: string, c: string)
    requires WellFormed(h) && IsSupertype(h, target, c)
    ensures exists k: nat :: Reaches(h, c, target, k)
    decreases Rank(h, c)
  {
    if c == target {
      assert Reaches(h, c, target, 0);
    } else {
      var i :| 0 <= i < |Parents(h, c)| && ParentOk(h, c, i) && IsSupertype(h, target, Parents(h, c)[i]);
      ParentRank(h, c, i);
      AssignableReaches(h, target, Parents(h, c)[i]);
      var k: nat :| Reaches(h, Parents(h, c)[i], target, k);
      ReachesStep(h, c, i, Parents(h, c)[i], target, k, k + 1);
    }
  }

  lemma {:induction false} ReachesAssignable(h: ClassTable, target: string, c: string, k: nat)
    requires WellFormed(h) && Reaches(h, c, target, k)
    ensures IsSupertype(h, target, c)
    decreases k
  {
    if k > 0 && c != target {
      var i := ReachingParent(h, c, target, k);
      ReachesAssignable(h, target, Parents(h, c)[i], k - 1);
      assert ParentOk(h, c, i);
    }
  }

  /** The walk only ever reaches the class itself or classes the table lists. */
  lemma {:induction false} SupertypeListed(h: ClassTable, target: string, c: string)
    requires WellFormed(h) && IsSupertype(h, target, c) && c != target
    ensures target in h
    decreases Rank(h, c)
  {
    var i :| 0 <= i < |Parents(h, c)| && ParentOk(h, c, i) && IsSupertype(h, target, Parents(h, c)[i]);
    ParentRank(h, c, i);
    if Parents(h, c)[i] != target {
      SupertypeListed(h, target, Parents(h, c)[i]);
    }
  }

  /** An array class goes by its component type's name followed by `[]`. */
  predicate IsArrayName(s: string)
  {
    |s| >= 2 && s[|s| - 2..] == "[]"
  }

  function Component(s: string): (r: string)
    requires IsArrayName(s)
    ensures |r| == |s| - 2 && r + "[]" == s
  {
    s[..|s| - 2]
  }

  predicate IsPrimitiveName(s: string)
  {
    s in ["byte", "short", "int", "long", "float", "double", "boolean", "char", "void"]
  }

  /**
   * `Class.isAssignableFrom`: the supertype walk, or array covariance: an
   * array of reference components is assignable to another array exactly
   * when its component is assignable to the other's component (section
   * 4.10.3 of the Java Language Specification).  An array class that the
   * table lists carries the supertypes the JVM gives it (`Object`,
   * `Cloneable`, `Serializable`), which the walk then finds.
   */
  predicate IsAssignableFrom(h: ClassTable, target: string, c: string)
    requires WellFormed(h)
    decreases |c|
  {
    IsSupertype(h, target, c) ||
    (IsArrayName(target) && IsArrayName(c) &&
     !IsPrimitiveName(Component(target)) && !IsPrimitiveName(Component(c)) &&
     IsAssignableFrom(h, Component(target), Component(c)))
  }

  /** Arrays of reference components are covariant in their component. */
  lemma ArrayCovariance(h: ClassTable, target: string, c: string)
    requires WellFormed(h) && !IsPrimitiveName(target) && !IsPrimitiveName(c)
    requires IsAssignableFrom(h, target, c)
    ensures IsAssignableFrom(h, target + "[]", c + "[]")
  {
    assert (target + "[]")[|target|..] == "[]" && (target + "[]")[..|target|] == target;
    assert (c + "[]")[|c|..] == "[]" && (c + "[]")[..|c|] == c;
  }

  /** The better of two hop counts, -1 standing for "no path". */
  function Better(acc: int, x: int): (r: int)
    ensures r == acc || (r == x && x > -1)
    ensures acc >= -1 ==> (r > -1 <==> acc > -1 || x > -1)
  {
    if x > -1 && (acc == -1 || x < acc) then x else acc
  }

  /**
   * The number of steps from `src` up to `target` plus `n`, or -1 when
   * `target` is not among the supertypes: the least over the superclass and
   * every interface, as the recursive search does.
   */
  function Hops(h: ClassTable, src: Option<string>, target: string, n: int): (r: int)
    requires WellFormed(h)
    decreases if src.Some? then Rank(h, src.value) + 1 else 0, 0
    ensures n >= 0 ==> r == -1 || r >= n
    ensures src.Some? && target == src.value ==> r == n
  {
    if src.None? then -1
    else if target == src.value then n
    else
      InterfaceHops(h, src.value, 0, target, n + 1, SuperHops(h, src.value, target, n + 1))
  }

  /** The hop count through the superclass of `c`, -1 when it has none. */
  function SuperHops(h: ClassTable, c: string, target: string, n: int): (r: int)
    requires WellFormed(h)
    decreases Rank(h, c), 1
    ensures n >= 0 ==> r == -1 || r >= n
  {
    if c in h && h[c].super.Some? then
      ParentRank(h, c, 0);
      Hops(h, h[c].super, target, n)
    else -1
  }

  /** Folds `Better` over the interfaces of `c` from the `i`-th on. */
  function InterfaceHops(h: ClassTable, c: string, i: nat, target: string, n: int, acc: int): (r: int)
    requires WellFormed(h)
    decreases Rank(h, c), if c in h && i <= |h[c].interfaces| then |h[c].interfaces| - i else 0
    ensures n >= 0 && (acc == -1 || acc >= n) ==> r == -1 || r >= n
  {
    if c !in h || i >= |h[c].interfaces| then acc
    else
      InterfaceRank(h, c, i);
      InterfaceHops(h, c, i + 1, target, n, Better(acc, Hops(h, Some(h[c].interfaces[i]), target, n)))
  }

  lemma {:induction false} InterfaceHopsChoice(h: ClassTable, c: string, i: nat, target: string, n: int, acc: int)
    requires WellFormed(h)
    ensures var r := InterfaceHops(h, c, i, target, n, acc);
      r == acc ||
      (c in h && r > -1 && exists j :: i <= j < |h[c].interfaces| && r == Hops(h, Some(h[c].interfaces[j]), target, n))
    decreases if c in h && i <= |h[c].interfaces| then |h[c].interfaces| - i else 0
  {
    if c in h && i < |h[c].interfaces| {
      InterfaceHopsChoice(h, c, i + 1, target, n, Better(acc, Hops(h, Some(h[c].interfaces[i]), target, n)));
    }
  }

  lemma {:induction false} InterfaceHopsBest(h: ClassTable, c: string, i: nat, target: string, n: int, acc: int)
    requires WellFormed(h) && acc >= -1
    ensures var r := InterfaceHops(h, c, i, target, n, acc);
      (acc > -1 ==> r > -1 && r <= acc) &&
      (c in h ==> forall j :: i <= j < |h[c].interfaces| && Hops(h, Some(h[c].interfaces[j]), target, n) > -1 ==>
         r > -1 && r <= Hops(h, Some(h[c].interfaces[j]), target, n))
    decreases if c in h && i <= |h[c].interfaces| then |h[c].interfaces| - i else 0
  {
    if c in h && i < |h[c].interfaces| {
      var x := Hops(h, Some(h[c].interfaces[i]), target, n);
      var b := Better(acc, x);
      assert x > -1 ==> b > -1 && b <= x;
      assert acc > -1 ==> b > -1 && b <= acc;
      InterfaceHopsBest(h, c, i + 1, target, n, b);
    }
  }

  /** Interfaces sit after the superclass among the parents. */
  lemma InterfaceParent(h: ClassTable, c: string, j: int)
    requires c in h && 0 <= j < |h[c].interfaces|
    ensures var o := |Parents(h, c)| - |h[c].interfaces|;
      0 <= o + j < |Parents(h, c)| && Parents(h, c)[o + j] == h[c].interfaces[j]
  {
  }

  lemma InterfaceRank(h: ClassTable, c: string, i: int)
    requires WellFormed(h) && c in h && 0 <= i < |h[c].interfaces|
    ensures h[c].interfaces[i] in h && Rank(h, h[c].interfaces[i]) < Rank(h, c)
  {
    InterfaceParent(h, c, i);
    ParentRank(h, c, |Parents(h, c)| - |h[c].interfaces| + i);
  }

  /** A hop count found is a real path up the hierarchy, of that length. */
  lemma {:induction false} HopsSound(h: ClassTable, c: string, target: string, n: int)
    requires WellFormed(h) && n >= 0
    ensures var r := Hops(h, Some(c), target, n);
      r != -1 ==> r >= n && Reaches(h, c, target, r - n)
    decreases Rank(h, c)
  {
    var r := Hops(h, Some(c), target, n);
    if target == c || r == -1 {
      return;
    }
    var i, p := HopsParent(h, c, target, n);
    ParentRank(h, c, i);
    HopsSound(h, p, target, n + 1);
    ReachesStep(h, c, i, p, target, Hops(h, Some(p), target, n + 1) - (n + 1), r - n);
  }

  /** A hop count found from `c` is one found from one of its parents, a step further on. */
  lemma HopsParent(h: ClassTable, c: string, target: string, n: int) returns (i: nat, p: string)
    requires WellFormed(h) && target != c && Hops(h, Some(c), target, n) != -1
    ensures i < |Parents(h, c)| && Parents(h, c)[i] == p
    ensures Hops(h, Some(c), target, n) == Hops(h, Some(p), target, n + 1)
  {
    var r := Hops(h, Some(c), target, n);
    var viaSuper := SuperHops(h, c, target, n + 1);
    assert r == InterfaceHops(h, c, 0, target, n + 1, viaSuper);
    InterfaceHopsChoice(h, c, 0, target, n + 1, viaSuper);
    if r == viaSuper {
      i, p := 0, h[c].super.value;
      assert Parents(h, c)[0] == p;
    } else {
      var j :| 0 <= j < |h[c].interfaces| && r == Hops(h, Some(h[c].interfaces[j]), target, n + 1);
      InterfaceParent(h, c, j);
      i, p := |Parents(h, c)| - |h[c].interfaces| + j, h[c].interfaces[j];
    }
  }

  /** Every path up the hierarchy is at least as long as the hop count. */
  lemma {:induction false} HopsComplete(h: ClassTable, c: string, target: string, n: int, k: nat)
    requires WellFormed(h) && n >= 0 && Reaches(h, c, target, k)
    ensures var r := Hops(h, Some(c), target, n);
      r > -1 && r <= n + k
    decreases k
  {
    if target == c {
      return;
    }
    var i := ReachingParent(h, c, target, k);
    HopsComplete(h, Parents(h, c)[i], target, n + 1, k - 1);
    HopsViaParent(h, c, target, n, i);
  }

  /** A hop count found from a parent bounds the one found from `c`, a step further on. */
  lemma HopsViaParent(h: ClassTable, c: string, target: string, n: int, i: nat)
    requires WellFormed(h) && n >= 0 && target != c && i < |Parents(h, c)|
    requires Hops(h, Some(Parents(h, c)[i]), target, n + 1) > -1
    ensures var r := Hops(h, Some(c), target, n);
      r > -1 && r <= Hops(h, Some(Parents(h, c)[i]), target, n + 1)
  {
    var p := Parents(h, c)[i];
    var viaSuper := SuperHops(h, c, target, n + 1);
    assert c in h;
    if h[c].super.Some? {
      HopsSound(h, h[c].super.value, target, n + 1);
    }
    InterfaceHopsBest(h, c, 0, target, n + 1, viaSuper);
    if h[c].super.Some? && i == 0 {
      assert p == h[c].super.value;
    } else {
      var o := |Parents(h, c)| - |h[c].interfaces|;
      InterfaceParent(h, c, i - o);
    }
  }

  /**
   * The recursive search finds the length of the SHORTEST path from `c` up to
   * `target`, and -1 exactly when `c` cannot be assigned to `target`.
   */
  lemma HopsShortest(h: ClassTable, c: string, target: string)
    requires WellFormed(h)
    ensures var r := Hops(h, Some(c), target, 0);
      (r == -1 <==> !IsSupertype(h, target, c)) &&
      (r != -1 ==> r >= 0 && Reaches(h, c, target, r) && forall k: nat :: Reaches(h, c, target, k) ==> r <= k)
  {
    var r := Hops(h, Some(c), target, 0);
    HopsSound(h, c, target, 0);
    if IsSupertype(h, target, c) {
      AssignableReaches(h, target, c);
      var k: nat :| Reaches(h, c, target, k);
      HopsComplete(h, c, target, 0, k);
    } else if r != -1 {
      ReachesAssignable(h, target, c, r);
    }
    forall k: nat | Reaches(h, c, target, k)
      ensures r != -1 && r <= k
    {
      HopsComplete(h, c, target, 0, k);
    }
  }

  /**
   * `hops`: the recursion over the superclass and the loop over the
   * interfaces, keeping the least count found.
   */
  method ComputeHops(h: ClassTable, src: Option<string>, target: string, n: int) returns (r: int)
    requires WellFormed(h)
    ensures r == Hops(h, src, target, n)
    decreases if src.Some? then Rank(h, src.value) + 1 else 0
  {
    if src.None? {
      return -1;
    }
    var c := src.value;
    if target == c {
      return n;
    }
    if c !in h {
      return -1;
    }
    if h[c].super.Some? {
      ParentRank(h, c, 0);
    }
    r := ComputeHops(h, h[c].super, target, n + 1);
    assert r == SuperHops(h, c, target, n + 1);
    ghost var total := Hops(h, src, target, n);
    var interfaces := h[c].interfaces;
    var i := 0;
    while i < |interfaces|
      invariant 0 <= i <= |interfaces|
      invariant InterfaceHops(h, c, i, target, n + 1, r) == total
    {
      InterfaceRank(h, c, i);
      var interfaceHops := ComputeHops(h, Some(interfaces[i]), target, n + 1);
      if interfaceHops > -1 && (r == -1 || interfaceHops < r) {
        r := interfaceHops;
      }
      i := i + 1;
    }
  }
}
