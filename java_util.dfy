/**
 * The reflection helpers of the Android runtime
 * (android/src/hyperloop/HyperloopUtil.java): how a JavaScript call is
 * matched to a Java method or constructor, how its arguments are narrowed
 * to the parameter types, and how values cross between native objects and
 * Hyperloop proxies.
 */
module HyperloopUtil {
  import opened Wrappers
  import opened JavaTypes

  /**
   * A Java value as it reaches the runtime.  Boxed numbers hold whole
   * numbers only (a `Boolean` holds 0 or 1, a `Character` its code); the
   * proxies are the Titanium and Hyperloop objects the runtime tells apart.
   */
  datatype JValue =
    | Null
    | Boxed(box: Prim, n: int)
    | Str(s: string)
    | Date(time: int)
    | HashMap(entries: map<int, JValue>)
    | Array(elem: JType, items: seq<JValue>)
    | Obj(cls: string, id: nat)
    | ClassObj(name: string)
      /** an `InstanceProxy` around a native object */
    | Instance(ty: JType, wrapped: JValue)
      /** a `ClassProxy` around a `java.lang.Class` */
    | ClassRef(name: string)
      /** a Titanium `ActivityProxy` around its activity */
    | Activity(activity: JValue)
      /** a Titanium view proxy (a `TiViewProxy` subclass) around its native view */
    | View(cls: string, nativeView: JValue)
      /** any other Titanium proxy */
    | Kroll(cls: string)

  predicate IsBaseProxy(v: JValue)
  {
    v.Instance? || v.ClassRef?
  }

  predicate IsKrollProxy(v: JValue)
  {
    IsBaseProxy(v) || v.Activity? || v.View? || v.Kroll?
  }

  /** `getClass().getName()` of a non-null value. */
  function ClassOf(v: JValue): string
    requires !v.Null?
  {
    match v
    case Boxed(p, _) => BoxClass(p)
    case Str(_) => "java.lang.String"
    case Date(_) => "java.util.Date"
    case HashMap(_) => "java.util.HashMap"
    case Array(e, _) => TypeName(ArrayOf(e))
    case Obj(c, _) => c
    case ClassObj(_) => "java.lang.Class"
    case Instance(_, _) => "hyperloop.InstanceProxy"
    case ClassRef(_) => "hyperloop.ClassProxy"
    case Activity(_) => "org.appcelerator.titanium.proxy.ActivityProxy"
    case View(c, _) => c
    case Kroll(c) => c
  }

  // ---------------------------------------------------------------------
  // Distance between a parameter type and an argument
  // ---------------------------------------------------------------------

  const NoMatch: int := -1
  const Exact: int := 0

  /** The numeric primitives in widening order. */
  function NumericRank(p: Prim): Option<nat>
  {
    match p
    case Byte => Some(0)
    case Short => Some(1)
    case Int => Some(2)
    case Long => Some(3)
    case Float => Some(4)
    case Double => Some(5)
    case _ => None
  }

  /** The primitive whose wrapper class a value has, if it is a boxed primitive. */
  function WrapperOf(v: JValue): Option<Prim>
  {
    if v.Boxed? then Some(v.box) else None
  }

  /**
   * The distance table for a primitive parameter and a boxed numeric
   * argument: one row per numeric parameter type and one column per numeric
   * wrapper class, both in widening order.
   */
  const DistanceTable: seq<seq<int>> := [
    [0, 1, 2, 3, 4, 5],   // byte
    [1, 0, 1, 2, 3, 4],   // short
    [2, 1, 0, 1, 2, 3],   // int
    [3, 2, 1, 0, 1, 2],   // long
    [4, 3, 2, 1, 0, 1],   // float
    [5, 4, 3, 2, 1, 0]]   // double

  /** The table for numbers; `boolean` takes only `Boolean`; anything else matches nothing. */
  function PrimitiveDistance(target: Prim, argument: Option<Prim>): int
  {
    var row := NumericRank(target);
    var col := if argument.Some? then NumericRank(argument.value) else None;
    if row.Some? && col.Some? && row.value < |DistanceTable| && col.value < |DistanceTable[row.value]| then
      DistanceTable[row.value][col.value]
    else if target == Boolean && argument == Some(Boolean) then Exact
    else NoMatch
  }

  /**
   * The table is the gap between the two types in the widening order: 0 for
   * the wrapper of the parameter type itself, one more per step away in
   * either direction.  `boolean` takes only `Boolean`, and `char` nothing.
   */
  lemma PrimitiveDistanceIsRankGap(target: Prim, argument: Option<Prim>)
    ensures var r := PrimitiveDistance(target, argument);
      var pr := NumericRank(target);
      var ar := if argument.Some? then NumericRank(argument.value) else None;
      (pr.Some? && ar.Some? ==> r == if pr.value <= ar.value then ar.value - pr.value else pr.value - ar.value) &&
      (target == Boolean ==> (r == Exact <==> argument == Some(Boolean)) && (r != Exact ==> r == NoMatch)) &&
      ((pr.None? || ar.None?) && target != Boolean ==> r == NoMatch) &&
      (r == Exact <==> argument == Some(target) && (pr.Some? || target == Boolean))
  {
  }

  /**
   * `distance`: the table above for a primitive parameter; for a reference
   * parameter -1 when the argument's class cannot be assigned to it, and
   * otherwise 100 times what `hops` counts.  An array assignable only by
   * covariance (a `String[]` for an `Object[]`) has no supertype path to the
   * parameter type, so `hops` gives -1 and the distance is -100.
   */
  function Distance(h: ClassTable, target: JType, argument: JValue): (r: int)
    requires WellFormed(h) && !argument.Null?
    ensures !target.Primitive? ==> (r == NoMatch <==> !IsAssignableFrom(h, TypeName(target), ClassOf(argument)))
    ensures !target.Primitive? && r != NoMatch ==>
      r % 100 == 0 && (r >= 0 <==> IsSupertype(h, TypeName(target), ClassOf(argument))) &&
      (r < 0 ==> r == 100 * NoMatch)
  {
    HopsShortest(h, ClassOf(argument), TypeName(target));
    if target.Primitive? then PrimitiveDistance(target.p, WrapperOf(argument))
    else if !IsAssignableFrom(h, TypeName(target), ClassOf(argument)) then NoMatch
    else 100 * Hops(h, Some(ClassOf(argument)), TypeName(target), 0)
  }

  /**
   * For a reference parameter the distance is -1 exactly when the argument
   * is not assignable; -100 exactly when it is assignable by array
   * covariance alone; and otherwise 100 times the length of the shortest
   * chain of supertypes from the argument's class to the parameter type.
   */
  lemma DistanceOfReference(h: ClassTable, target: JType, argument: JValue)
    requires WellFormed(h) && !target.Primitive? && !argument.Null?
    ensures var r := Distance(h, target, argument);
      var c := ClassOf(argument);
      (r == NoMatch <==> !IsAssignableFrom(h, TypeName(target), c)) &&
      (r == 100 * NoMatch <==> IsAssignableFrom(h, TypeName(target), c) && !IsSupertype(h, TypeName(target), c)) &&
      (r >= 0 <==> IsSupertype(h, TypeName(target), c)) &&
      (r >= 0 ==>
         r % 100 == 0 &&
         Reaches(h, c, TypeName(target), r / 100) &&
         forall k: nat :: Reaches(h, c, TypeName(target), k) ==> r <= 100 * k)
  {
    HopsShortest(h, ClassOf(argument), TypeName(target));
  }

  /**
   * A `String[]` argument for an `Object[]` parameter, in any class table
   * where `String` extends `Object` and no class `Object[]` is listed, is
   * assignable by covariance, but `hops` finds no path from `String[]` up
   * to `Object[]`, so the distance is -100, which `createMatch` then rejects
   * as negative.
   */
  lemma CovariantArrayDistance(h: ClassTable)
    requires WellFormed(h)
    requires "java.lang.String" in h && h["java.lang.String"].super == Some("java.lang.Object")
    requires "java.lang.Object[]" !in h
    ensures IsAssignableFrom(h, "java.lang.Object[]", "java.lang.String[]")
    ensures !IsSupertype(h, "java.lang.Object[]", "java.lang.String[]")
    ensures Distance(h, ArrayOf(Ref("java.lang.Object")), Array(Ref("java.lang.String"), [])) == 100 * NoMatch
  {
    var o, str := "java.lang.Object", "java.lang.String";
    assert IsSupertype(h, o, str) by {
      assert Parents(h, str)[0] == o;
      assert ParentOk(h, str, 0);
    }
    ArrayCovariance(h, o, str);
    assert o + "[]" == "java.lang.Object[]" && str + "[]" == "java.lang.String[]";
    assert |o + "[]"| == 18 && (o + "[]")[10] == 'O';
    assert |str + "[]"| == 18 && (str + "[]")[10] == 'S';
    if IsSupertype(h, o + "[]", str + "[]") {
      SupertypeListed(h, o + "[]", str + "[]");
    }
    DistanceOfReference(h, ArrayOf(Ref(o)), Array(Ref(str), []));
  }

  /** `matchArg`: a null argument fits any reference parameter but no primitive one. */
  function ArgDistance(h: ClassTable, param: JType, arg: JValue): (r: int)
    requires WellFormed(h)
    ensures r >= 100 * NoMatch
    ensures arg.Null? ==> (r == NoMatch <==> param.Primitive?) && (r != NoMatch ==> r == Exact)
  {
    if arg.Null? then (if param.Primitive? then NoMatch else Exact)
    else if param.Primitive? then Distance(h, param, arg)
    else
      HopsShortest(h, ClassOf(arg), TypeName(param));
      Distance(h, param, arg)
  }

  // ---------------------------------------------------------------------
  // Matching one method or constructor
  // ---------------------------------------------------------------------

  /** A public method or constructor as reflection lists it. */
  datatype Member = Member(name: string, params: seq<JType>, varArgs: bool)

  /** Reflection only marks a member variable-arity when its last parameter is an array. */
  predicate Callable(m: Member)
  {
    m.varArgs ==> |m.params| > 0 && m.params[|m.params| - 1].ArrayOf?
  }

  /** The arity test the resolvers apply before scoring a member. */
  predicate Applicable(m: Member, argCount: nat)
  {
    if m.varArgs then argCount >= |m.params| - 1 else |m.params| == argCount
  }

  /** The type the `i`-th argument is matched against: the component type for the variable tail. */
  function ArgType(m: Member, i: nat): JType
    requires Callable(m) && (m.varArgs || i < |m.params|)
  {
    if m.varArgs && i >= |m.params| - 1 then m.params[|m.params| - 1].elem else m.params[i]
  }

  /**
   * The matching below is written over the argument scorer it is given;
   * `MatchArg(h)` is `matchArg` over the class table `h`.
   */
  type Scorer = (JType, JValue) --> int

  ghost predicate Total(matchArg: Scorer)
  {
    forall t, v :: matchArg.requires(t, v)
  }

  function MatchArg(h: ClassTable): (r: Scorer)
    ensures WellFormed(h) ==> Total(r) && forall t, v :: r(t, v) == ArgDistance(h, t, v)
  {
    (t: JType, v: JValue) requires WellFormed(h) => ArgDistance(h, t, v)
  }

  lemma MatchArgIsArgDistance(h: ClassTable)
    requires WellFormed(h)
    ensures Total(MatchArg(h))
    ensures forall t, v :: MatchArg(h)(t, v) == ArgDistance(h, t, v)
  {
  }

  /** The summed distance of the first `k` arguments, `None` once one of them does not fit. */
  function ScoreUpTo(matchArg: Scorer, m: Member, args: seq<JValue>, k: nat): Option<int>
    requires Total(matchArg) && Callable(m) && Applicable(m, |args|) && k <= |args|
  {
    if k == 0 then Some(Exact)
    else
      var before := ScoreUpTo(matchArg, m, args, k - 1);
      var d := matchArg(ArgType(m, k - 1), args[k - 1]);
      if before.None? || d < 0 then None else Some(before.value + d)
  }

  /** `createMatch`: no match when some argument does not fit, else the summed distance. */
  function MatchScore(matchArg: Scorer, m: Member, args: seq<JValue>): Option<int>
    requires Total(matchArg) && Callable(m) && Applicable(m, |args|)
  {
    ScoreUpTo(matchArg, m, args, |args|)
  }

  lemma {:induction false} ScoreUpToMeaning(matchArg: Scorer, m: Member, args: seq<JValue>, k: nat)
    requires Total(matchArg) && Callable(m) && Applicable(m, |args|) && k <= |args|
    ensures var r := ScoreUpTo(matchArg, m, args, k);
      (r.None? <==> exists i :: 0 <= i < k && matchArg(ArgType(m, i), args[i]) < 0) &&
      (r.Some? ==> r.value >= 0 && (r.value == Exact <==> forall i :: 0 <= i < k ==> matchArg(ArgType(m, i), args[i]) == Exact))
  {
    if k > 0 {
      ScoreUpToMeaning(matchArg, m, args, k - 1);
    }
  }

  /**
   * A member matches exactly when every argument fits, its score is never
   * negative, and it is an exact match (score 0) exactly when every argument
   * has exactly the type it is matched against.
   */
  lemma MatchScoreMeaning(h: ClassTable, m: Member, args: seq<JValue>)
    requires WellFormed(h) && Callable(m) && Applicable(m, |args|)
    ensures Total(MatchArg(h))
    ensures var r := MatchScore(MatchArg(h), m, args);
      (r.None? <==> exists i :: 0 <= i < |args| && ArgDistance(h, ArgType(m, i), args[i]) < 0) &&
      (r.Some? ==>
         r.value >= 0 &&
         (r.value == Exact <==> forall i :: 0 <= i < |args| ==> ArgDistance(h, ArgType(m, i), args[i]) == Exact))
  {
    MatchArgIsArgDistance(h);
    ScoreUpToMeaning(MatchArg(h), m, args, |args|);
  }

  /** One more argument that fits. */
  lemma ScoreStep(matchArg: Scorer, m: Member, args: seq<JValue>, i: nat, s: int, d: int)
    requires Total(matchArg) && Callable(m) && Applicable(m, |args|) && i < |args|
    requires ScoreUpTo(matchArg, m, args, i) == Some(s) && d == matchArg(ArgType(m, i), args[i]) && d >= 0
    ensures ScoreUpTo(matchArg, m, args, i + 1) == Some(s + d)
  {
  }

  /** Once an argument does not fit, no later prefix matches either. */
  lemma {:induction false} NoMatchStays(matchArg: Scorer, m: Member, args: seq<JValue>, k: nat)
    requires Total(matchArg) && Callable(m) && Applicable(m, |args|) && k <= |args|
    requires ScoreUpTo(matchArg, m, args, k).None?
    ensures MatchScore(matchArg, m, args).None?
    decreases |args| - k
  {
    if k < |args| {
      NoMatchStays(matchArg, m, args, k + 1);
    }
  }

  /** `createMatch` as the source writes it: the fixed parameters, then the variable tail. */
  method CreateMatch(matchArg: Scorer, m: Member, args: seq<JValue>) returns (r: Option<int>)
    requires Total(matchArg) && Callable(m) && Applicable(m, |args|)
    ensures r == MatchScore(matchArg, m, args)
  {
    var distance := Exact;
    var end := if m.varArgs then |m.params| - 1 else |m.params|;
    var i := 0;
    while i < end
      invariant 0 <= i <= end
      invariant ScoreUpTo(matchArg, m, args, i) == Some(distance)
    {
      var argDistance := matchArg(m.params[i], args[i]);
      if argDistance >= 0 {
        ScoreStep(matchArg, m, args, i, distance, argDistance);
        distance := distance + argDistance;
      } else {
        NoMatchStays(matchArg, m, args, i + 1);
        return None;
      }
      i := i + 1;
    }
    if m.varArgs {
      var componentType := m.params[|m.params| - 1].elem;
      while i < |args|
        invariant end <= i <= |args|
        invariant ScoreUpTo(matchArg, m, args, i) == Some(distance)
      {
        var argDistance := matchArg(componentType, args[i]);
        if argDistance >= 0 {
          ScoreStep(matchArg, m, args, i, distance, argDistance);
          distance := distance + argDistance;
        } else {
          NoMatchStays(matchArg, m, args, i + 1);
          return None;
        }
        i := i + 1;
      }
    }
    return Some(distance);
  }

  // ---------------------------------------------------------------------
  // Choosing among the members of a class
  // ---------------------------------------------------------------------

  /** The score of the `i`-th member, `None` when it is filtered out or does not match. */
  function Score(matchArg: Scorer, ms: seq<Member>, i: nat, name: Option<string>, args: seq<JValue>): (r: Option<int>)
    requires Total(matchArg) && i < |ms| && Callable(ms[i])
    ensures r.Some? ==> r.value >= 0
    ensures r.Some? <==> (name.None? || ms[i].name == name.value) && Applicable(ms[i], |args|)
                         && forall k :: 0 <= k < |args| ==> matchArg(ArgType(ms[i], k), args[k]) >= 0
  {
    if (name.Some? && ms[i].name != name.value) || !Applicable(ms[i], |args|) then None
    else
      ScoreUpToMeaning(matchArg, ms[i], args, |args|);
      MatchScore(matchArg, ms[i], args)
  }

  predicate AllCallable(ms: seq<Member>)
  {
    forall i :: 0 <= i < |ms| ==> Callable(ms[i])
  }

  /**
   * Member `k` has the least score, and every member before it scores worse:
   * what a stable sort by distance puts first.
   */
  ghost predicate IsBest(matchArg: Scorer, ms: seq<Member>, name: Option<string>, args: seq<JValue>, k: nat)
    requires Total(matchArg) && AllCallable(ms)
  {
    k < |ms| && Score(matchArg, ms, k, name, args).Some? &&
    forall j :: 0 <= j < |ms| && Score(matchArg, ms, j, name, args).Some? ==>
      Score(matchArg, ms, k, name, args).value <= Score(matchArg, ms, j, name, args).value &&
      (j < k ==> Score(matchArg, ms, k, name, args).value < Score(matchArg, ms, j, name, args).value)
  }

  ghost predicate NoneMatches(matchArg: Scorer, ms: seq<Member>, name: Option<string>, args: seq<JValue>)
    requires Total(matchArg) && AllCallable(ms)
  {
    forall j :: 0 <= j < |ms| ==> Score(matchArg, ms, j, name, args).None?
  }

  /** Scores are never negative. */
  lemma ScoreNonNegative(matchArg: Scorer, ms: seq<Member>, j: nat, name: Option<string>, args: seq<JValue>)
    requires Total(matchArg) && j < |ms| && Callable(ms[j])
    ensures Score(matchArg, ms, j, name, args).Some? ==> Score(matchArg, ms, j, name, args).value >= Exact
  {
    if Applicable(ms[j], |args|) {
      ScoreUpToMeaning(matchArg, ms[j], args, |args|);
    }
  }

  /**
   * The candidate loop shared by `resolveMethod` and `resolveConstructor`:
   * an exact match returns at once, otherwise the matches are sorted by
   * distance and the first is taken.
   */
  method BestMatch(matchArg: Scorer, ms: seq<Member>, name: Option<string>, args: seq<JValue>) returns (r: Option<nat>)
    requires Total(matchArg) && AllCallable(ms)
    ensures r.None? <==> NoneMatches(matchArg, ms, name, args)
    ensures r.Some? ==> IsBest(matchArg, ms, name, args, r.value)
  {
    var best: Option<nat> := None;
    var bestDistance := 0;
    var i := 0;
    while i < |ms|
      invariant 0 <= i <= |ms|
      invariant best.None? <==> forall j :: 0 <= j < i ==> Score(matchArg, ms, j, name, args).None?
      invariant best.Some? ==> best.value < i && Score(matchArg, ms, best.value, name, args) == Some(bestDistance)
      invariant best.Some? ==> forall j :: 0 <= j < i && Score(matchArg, ms, j, name, args).Some? ==>
        bestDistance <= Score(matchArg, ms, j, name, args).value &&
        (j < best.value ==> bestDistance < Score(matchArg, ms, j, name, args).value)
      invariant forall j :: 0 <= j < i && Score(matchArg, ms, j, name, args).Some? ==>
        Score(matchArg, ms, j, name, args).value > Exact
    {
      var m := ms[i];
      var found: Option<int> := None;
      if (name.None? || m.name == name.value) && Applicable(m, |args|) {
        found := CreateMatch(matchArg, m, args);
      }
      assert found == Score(matchArg, ms, i, name, args);
      ScoreNonNegative(matchArg, ms, i, name, args);
      if found.Some? {
        if found.value == Exact {
          forall j | 0 <= j < |ms| && Score(matchArg, ms, j, name, args).Some?
            ensures Exact <= Score(matchArg, ms, j, name, args).value
          {
            ScoreNonNegative(matchArg, ms, j, name, args);
          }
          return Some(i);
        }
        if best.None? || found.value < bestDistance {
          best, bestDistance := Some(i), found.value;
        }
      }
      i := i + 1;
    }
    return best;
  }

  /** `getMethod(name)` / `getConstructor()`: the first member of that name with no parameters. */
  function FirstNoArg(ms: seq<Member>, name: Option<string>): (r: Option<nat>)
    ensures r.Some? ==> r.value < |ms| && ms[r.value].params == [] && (name.Some? ==> ms[r.value].name == name.value)
    ensures r.Some? ==> forall j :: 0 <= j < r.value ==> ms[j].params != [] || (name.Some? && ms[j].name != name.value)
    ensures r.None? ==> forall j :: 0 <= j < |ms| ==> ms[j].params != [] || (name.Some? && ms[j].name != name.value)
  {
    if ms == [] then None
    else if ms[0].params == [] && (name.None? || ms[0].name == name.value) then Some(0)
    else
      var rest := FirstNoArg(ms[1..], name);
      if rest.Some? then Some(rest.value + 1) else None
  }

  /**
   * What both resolvers return: with no arguments, the no-argument member
   * if there is one; otherwise the only member when there is just one
   * (whatever its name or arity); otherwise the best match, if any.
   */
  ghost predicate Resolved(h: ClassTable, ms: seq<Member>, name: Option<string>, args: seq<JValue>, r: Option<nat>)
    requires WellFormed(h) && AllCallable(ms)
  {
    MatchArgIsArgDistance(h);
    if |args| == 0 && FirstNoArg(ms, name).Some? then r == FirstNoArg(ms, name)
    else if |ms| == 1 then r == Some(0)
    else (r.None? <==> NoneMatches(MatchArg(h), ms, name, args)) && (r.Some? ==> IsBest(MatchArg(h), ms, name, args, r.value))
  }

  /** `resolveMethod`: `methods` are the public methods of the class, in reflection order. */
  method ResolveMethod(h: ClassTable, methods: seq<Member>, name: string, args: seq<JValue>) returns (r: Option<nat>)
    requires WellFormed(h) && AllCallable(methods)
    ensures Resolved(h, methods, Some(name), args, r)
  {
    if |args| == 0 {
      var noArg := FirstNoArg(methods, Some(name));
      if noArg.Some? {
        return noArg;
      }
    }
    if |methods| == 1 {
      return Some(0);
    }
    MatchArgIsArgDistance(h);
    r := BestMatch(MatchArg(h), methods, Some(name), args);
  }

  /** `resolveConstructor`: as `resolveMethod`, over the public constructors, with no name filter. */
  method ResolveConstructor(h: ClassTable, constructors: seq<Member>, args: seq<JValue>) returns (r: Option<nat>)
    requires WellFormed(h) && AllCallable(constructors)
    ensures Resolved(h, constructors, None, args, r)
  {
    if |args| == 0 {
      var noArg := FirstNoArg(constructors, None);
      if noArg.Some? {
        return noArg;
      }
    }
    if |constructors| == 1 {
      return Some(0);
    }
    MatchArgIsArgDistance(h);
    r := BestMatch(MatchArg(h), constructors, None, args);
  }

  // ---------------------------------------------------------------------
  // Narrowing JavaScript numbers to the parameter types
  // ---------------------------------------------------------------------

  /** 2 to the width of an integral primitive; 0 for the others. */
  function Modulus(p: Prim): int
  {
    match p
    case Byte => 0x100
    case Short => 0x1_0000
    case Int => 0x1_0000_0000
    case Long => 0x1_0000_0000_0000_0000
    case _ => 0
  }

  predicate IsIntegral(p: Prim)
  {
    p == Byte || p == Short || p == Int || p == Long
  }

  predicate InRange(x: int, p: Prim)
  {
    -Modulus(p) / 2 <= x < Modulus(p) / 2
  }

  /** The low bits of `x` modulo the even `m`, read as two's complement. */
  function LowBits(x: int, m: int): int
    requires m > 0
  {
    var y := x % m;
    if y >= m / 2 then y - m else y
  }

  /** Java's integral cast: keep the low bits, read them as two's complement. */
  function Narrow(x: int, p: Prim): (r: int)
    requires IsIntegral(p)
    ensures InRange(r, p)
    ensures InRange(x, p) ==> r == x
  {
    LowBits(x, Modulus(p))
  }

  /** Narrowing keeps the value modulo the width. */
  lemma NarrowCongruent(x: int, p: Prim)
    requires IsIntegral(p)
    ensures Narrow(x, p) % Modulus(p) == x % Modulus(p)
  {
    var m := Modulus(p);
    var y := x % m;
    assert Narrow(x, p) == LowBits(x, m);
    if y >= m / 2 {
      ShiftDown(y, m);
    } else {
      ShiftDown(y + m, m);
    }
  }

  lemma ShiftDown(y: int, m: int)
    requires 0 <= y - m < m || 0 <= y < m
    ensures 0 <= y < m ==> (y - m) % m == y
    ensures 0 <= y - m < m ==> (y - m) % m == y - m
  {
  }

  /** Two numbers equal modulo 2^32 are equal modulo 2^8 and 2^16. */
  lemma ModuloNarrower(a: int, b: int, p: Prim)
    requires p == Byte || p == Short
    requires a % 0x1_0000_0000 == b % 0x1_0000_0000
    ensures a % Modulus(p) == b % Modulus(p)
  {
    var k := a / 0x1_0000_0000 - b / 0x1_0000_0000;
    assert a - b == 0x1_0000_0000 * k;
    if p == Byte {
      assert a == b + 0x100 * (0x100_0000 * k);
    } else {
      assert a == b + 0x1_0000 * (0x1_0000 * k);
    }
  }

  /** Java's cast of a floating-point value to `int` or `long`: clamp to the range. */
  function Saturate(x: int, p: Prim): (r: int)
    requires IsIntegral(p)
    ensures InRange(r, p)
    ensures InRange(x, p) ==> r == x
    ensures x < -Modulus(p) / 2 ==> r == -Modulus(p) / 2
    ensures x >= Modulus(p) / 2 ==> r == Modulus(p) / 2 - 1
  {
    if x < -Modulus(p) / 2 then -Modulus(p) / 2
    else if x >= Modulus(p) / 2 then Modulus(p) / 2 - 1
    else x
  }

  predicate IsFloating(p: Prim)
  {
    p == Float || p == Double
  }

  /** `instanceof Number`: a boxed `Byte`, `Short`, `Integer`, `Long`, `Float` or `Double`. */
  predicate IsNumber(v: JValue)
  {
    v.Boxed? && NumericRank(v.box).Some?
  }

  /** `Number.intValue()` (and, through it, `byteValue()` and `shortValue()`). */
  function IntValue(v: JValue): int
    requires IsNumber(v)
  {
    if IsFloating(v.box) then Saturate(v.n, Int) else Narrow(v.n, Int)
  }

  /** `Number.longValue()`. */
  function LongValue(v: JValue): int
    requires IsNumber(v)
  {
    if IsFloating(v.box) then Saturate(v.n, Long) else Narrow(v.n, Long)
  }

  /**
   * `convertTo`: a number passed for a numeric primitive parameter is
   * re-boxed as that primitive; anything else, `null` included, is passed
   * on unchanged.
   */
  function ConvertTo(v: JValue, target: JType): JValue
  {
    if target.Primitive? && IsNumber(v) then
      match target.p
      case Byte => Boxed(Byte, Narrow(IntValue(v), Byte))
      case Int => Boxed(Int, IntValue(v))
      case Double => Boxed(Double, v.n)
      case Float => Boxed(Float, v.n)
      case Short => Boxed(Short, Narrow(IntValue(v), Short))
      case Long => Boxed(Long, LongValue(v))
      case _ => v
    else v
  }

  /**
   * A number converted to a numeric primitive becomes a box of exactly that
   * primitive, in the primitive's range; a number that already fits keeps
   * its value; an integral number keeps its low bits; nothing else changes.
   */
  lemma ConvertToMeaning(v: JValue, target: JType)
    ensures var r := ConvertTo(v, target);
      (target.Primitive? && NumericRank(target.p).Some? && IsNumber(v) ==>
         r.Boxed? && r.box == target.p &&
         (IsIntegral(target.p) ==>
            InRange(r.n, target.p) &&
            (InRange(v.n, target.p) ==> r.n == v.n) &&
            (!IsFloating(v.box) ==> r.n % Modulus(target.p) == v.n % Modulus(target.p))) &&
         (IsFloating(target.p) ==> r.n == v.n)) &&
      (!(target.Primitive? && NumericRank(target.p).Some? && IsNumber(v)) ==> r == v)
  {
    if target.Primitive? && IsNumber(v) && IsIntegral(target.p) && !IsFloating(v.box) {
      var q := target.p;
      if q == Int || q == Long {
        NarrowCongruent(v.n, q);
      } else {
        var i := Narrow(v.n, Int);
        NarrowCongruent(v.n, Int);
        NarrowCongruent(i, q);
        ModuloNarrower(i, v.n, q);
      }
    }
  }

  /**
   * `convert`: the fixed parameters are narrowed one by one; for a varargs
   * member the remaining arguments are narrowed to the component type and
   * gathered into one array, passed as the last parameter.
   */
  method Convert(args: seq<JValue>, params: seq<JType>, varArgs: bool) returns (r: seq<JValue>)
    requires varArgs ==> |params| > 0 && params[|params| - 1].ArrayOf?
    requires |args| >= (if varArgs then |params| - 1 else |params|)
    ensures |params| == 0 ==> r == []
    ensures |r| == |params|
    ensures var end := if varArgs then |params| - 1 else |params|;
      (forall i :: 0 <= i < end ==> r[i] == ConvertTo(args[i], params[i])) &&
      (varArgs ==>
         var component := params[end].elem;
         r[end].Array? && r[end].elem == component && |r[end].items| == |args| - end &&
         forall x :: 0 <= x < |args| - end ==> r[end].items[x] == ConvertTo(args[end + x], component))
  {
    if |params| == 0 {
      return [];
    }
    var end := if varArgs then |params| - 1 else |params|;
    var result := new JValue[|params|](_ => Null);
    for i := 0 to end
      invariant forall j :: 0 <= j < i ==> result[j] == ConvertTo(args[j], params[j])
    {
      result[i] := ConvertTo(args[i], params[i]);
    }
    if varArgs {
      var component := params[end].elem;
      var varargs := new JValue[|args| - end](_ => Null);
      for x := end to |args|
        invariant forall j :: 0 <= j < end ==> result[j] == ConvertTo(args[j], params[j])
        invariant forall y :: end <= y < x ==> varargs[y - end] == ConvertTo(args[y], component)
      {
        varargs[x - end] := ConvertTo(args[x], component);
      }
      result[end] := Array(component, varargs[..]);
    }
    r := result[..];
  }

  // ---------------------------------------------------------------------
  // Crossing between native objects and proxies
  // ---------------------------------------------------------------------

  /**
   * `isKnownType`: values the JavaScript engine converts on its own, which
   * are passed without a proxy.
   */
  predicate IsKnownType(v: JValue)
  {
    v.Null? || IsKrollProxy(v) || v.HashMap? || v.Str? || v.Date? ||
    (v.Boxed? && v.box in {Int, Double, Float, Byte, Short, Long, Boolean})
  }

  /** `wrap`: a known value as it is, anything else inside an `InstanceProxy` of the declared type. */
  function Wrap(t: JType, v: JValue): (r: JValue)
    ensures IsKnownType(r)
    ensures IsKnownType(v) ==> r == v
    ensures !IsKnownType(v) ==> r.Instance? && r.ty == t && r.wrapped == v
  {
    if IsKnownType(v) then v else Instance(t, v)
  }

  /** How many proxies are nested around a value. */
  function ProxyDepth(v: JValue): nat
  {
    match v
    case Instance(_, w) => 1 + ProxyDepth(w)
    case Activity(a) => 1 + ProxyDepth(a)
    case View(_, nv) => 1 + ProxyDepth(nv)
    case _ => 0
  }

  /**
   * `unwrap`: a Hyperloop proxy gives up the object it wraps (a class proxy
   * its class), an activity proxy its activity, a view proxy its native
   * view; everything else, `null` included, is itself.
   */
  function Unwrap(v: JValue): (r: JValue)
    ensures v.Instance? || v.Activity? || v.View? ==> ProxyDepth(r) < ProxyDepth(v)
    ensures v.ClassRef? ==> r == ClassObj(v.name)
    ensures !(v.Instance? || v.ClassRef? || v.Activity? || v.View?) ==> r == v
  {
    match v
    case Instance(_, w) => w
    case ClassRef(c) => ClassObj(c)
    case Activity(a) => a
    case View(_, nv) => nv
    case _ => v
  }

  /**
   * Wrapping and then unwrapping gives the native value back, except for
   * the Titanium and Hyperloop proxies, which are known types and are
   * unwrapped to what they hold.
   */
  lemma UnwrapWrap(t: JType, v: JValue)
    ensures Unwrap(Wrap(t, v)) == v <==> !(v.Instance? || v.ClassRef? || v.Activity? || v.View?)
  {
    if v.Instance? || v.Activity? || v.View? {
      assert ProxyDepth(Unwrap(v)) < ProxyDepth(v);
    }
  }

  /**
   * `wrapArguments`: no arguments give an empty array; otherwise each
   * argument is wrapped with the parameter type at its position, which
   * fails when there are more arguments than parameters.
   */
  method WrapArguments(params: seq<JType>, args: seq<JValue>) returns (r: Result<seq<JValue>>)
    ensures |args| == 0 ==> r == Ok([])
    ensures 0 < |args| <= |params| ==>
      r.Ok? && |r.value| == |args| && forall i :: 0 <= i < |args| ==> r.value[i] == Wrap(params[i], args[i])
    ensures r.Err? <==> 0 < |args| && |args| > |params|
  {
    if |args| == 0 {
      return Ok([]);
    }
    var wrapped := new JValue[|args|](_ => Null);
    for i := 0 to |args|
      invariant i <= |params|
      invariant forall j :: 0 <= j < i ==> wrapped[j] == Wrap(params[j], args[j])
    {
      if i >= |params| {
        return Err("array index out of bounds");
      }
      wrapped[i] := Wrap(params[i], args[i]);
    }
    return Ok(wrapped[..]);
  }

  /** `unwrapArguments`: every argument unwrapped, in order. */
  method UnwrapArguments(args: seq<JValue>) returns (r: seq<JValue>)
    ensures |r| == |args|
    ensures forall i :: 0 <= i < |args| ==> r[i] == Unwrap(args[i])
  {
    var unwrapped := new JValue[|args|](_ => Null);
    for i := 0 to |args|
      invariant forall j :: 0 <= j < i ==> unwrapped[j] == Unwrap(args[j])
    {
      unwrapped[i] := Unwrap(args[i]);
    }
    r := unwrapped[..];
  }
}
