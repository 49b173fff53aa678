/**
 * `new` on a class proxy of the Android runtime
 * (android/src/hyperloop/ClassProxy.java): how the JavaScript arguments are
 * normalised, when a single Titanium proxy is simply re-wrapped, and which
 * constructor is called with which converted arguments.
 */
module JavaClassProxy {
  import opened Wrappers
  import opened JavaTypes
  import opened HyperloopUtil

  lemma HasElement(keys: set<int>)
    requires keys != {}
    ensures exists k :: k in keys
  {
    if forall k :: k !in keys {
      assert false;
    }
  }

  /** The largest key of a non-empty set of keys. */
  ghost function MaxKey(keys: set<int>): (r: int)
    requires keys != {}
    ensures r in keys && forall k :: k in keys ==> k <= r
    decreases |keys|
  {
    HasElement(keys);
    var k :| k in keys;
    var rest := keys - {k};
    assert forall j :: j in keys ==> j == k || j in rest;
    if rest == {} then
      k
    else
      var m := MaxKey(rest);
      assert m in keys;
      if k > m then k else m
  }

  /** A JavaScript `arguments` object has no negative index. */
  predicate NoNegativeKey(arguments: map<int, JValue>)
  {
    forall k :: k in arguments ==> k >= 0
  }

  /**
   * The array a JavaScript `arguments` object stands for: as long as its
   * highest index requires, `null` at every index it lacks.
   */
  ghost function ArgumentsArray(arguments: map<int, JValue>): (r: seq<JValue>)
    requires NoNegativeKey(arguments)
    ensures |arguments| == 0 <==> r == []
    ensures forall k :: k in arguments ==> k < |r| && r[k] == arguments[k]
    ensures forall i :: 0 <= i < |r| && i !in arguments ==> r[i] == Null
    ensures |arguments| > 0 ==> |r| - 1 in arguments
  {
    if |arguments| == 0 then []
    else
      assert arguments.Keys != {} by {
        assert |arguments.Keys| == |arguments|;
      }
      var highest := MaxKey(arguments.Keys);
      seq(highest + 1, i requires 0 <= i <= highest => if i in arguments then arguments[i] else Null)
  }

  /** The first loop of `convertArgumentsMapToArray`: the highest index, and at least 0. */
  method HighestIndex(arguments: map<int, JValue>) returns (highest: int)
    ensures highest >= 0
    ensures forall k :: k in arguments ==> k <= highest
    ensures highest == 0 || highest in arguments
  {
    highest := 0;
    var keys := arguments.Keys;
    ghost var seen: set<int> := {};
    while keys != {}
      invariant seen + keys == arguments.Keys
      invariant highest >= 0
      invariant forall k :: k in seen ==> k <= highest
      invariant highest == 0 || highest in seen
      decreases |keys|
    {
      HasElement(keys);
      var current :| current in keys;
      highest := if current > highest then current else highest;
      keys := keys - {current};
      seen := seen + {current};
    }
  }

  /**
   * `convertArgumentsMapToArray`: finds the highest index, then stores
   * every entry at its index; a negative index makes the store fail.
   */
  method ConvertArgumentsMapToArray(arguments: map<int, JValue>) returns (r: Option<seq<JValue>>)
    ensures r.None? <==> !NoNegativeKey(arguments)
    ensures r.Some? ==> r.value == ArgumentsArray(arguments)
  {
    if |arguments| == 0 {
      return Some([]);
    }
    var highest := HighestIndex(arguments);
    var slots := new JValue[highest + 1](_ => Null);
    var stored := StoreEntries(arguments, slots);
    if !stored {
      return None;
    }
    ArrayOfArguments(arguments, highest, slots[..]);
    return Some(slots[..]);
  }

  /**
   * The second loop of `convertArgumentsMapToArray`: every entry stored at
   * its index in the array of `Null`s; false on a negative index.
   */
  method StoreEntries(arguments: map<int, JValue>, slots: array<JValue>) returns (ok: bool)
    requires forall k :: k in arguments ==> k < slots.Length
    requires forall i :: 0 <= i < slots.Length ==> slots[i] == Null
    modifies slots
    ensures ok <==> NoNegativeKey(arguments)
    ensures ok ==> forall i :: 0 <= i < slots.Length ==> slots[i] == if i in arguments then arguments[i] else Null
  {
    var entries := arguments.Keys;
    ghost var stored: set<int> := {};
    while entries != {}
      invariant stored + entries == arguments.Keys
      invariant forall k :: k in stored ==> 0 <= k < slots.Length && slots[k] == arguments[k]
      invariant forall i :: 0 <= i < slots.Length && i !in stored ==> slots[i] == Null
      decreases |entries|
    {
      HasElement(entries);
      var k :| k in entries;
      if k < 0 {
        return false;
      }
      slots[k] := arguments[k];
      entries := entries - {k};
      stored := stored + {k};
    }
    return true;
  }

  /** The array built from the highest index is the one `ArgumentsArray` describes. */
  lemma ArrayOfArguments(arguments: map<int, JValue>, highest: int, a: seq<JValue>)
    requires |arguments| > 0 && NoNegativeKey(arguments)
    requires forall k :: k in arguments ==> k <= highest
    requires highest == 0 || highest in arguments
    requires |a| == highest + 1
    requires forall i :: 0 <= i < |a| ==> a[i] == if i in arguments then arguments[i] else Null
    ensures a == ArgumentsArray(arguments)
  {
    assert arguments.Keys != {} by {
      assert |arguments.Keys| == |arguments|;
    }
    HasElement(arguments.Keys);
    var k :| k in arguments.Keys;
    assert 0 <= k <= highest;
    assert highest == MaxKey(arguments.Keys);
  }

  /** The arguments `newInstance` works on: none, the given ones, or those of an `arguments` object. */
  ghost function NormalizedArgs(initArgs: Option<seq<JValue>>): (r: Option<seq<JValue>>)
    ensures r.None? <==>
      initArgs.Some? && |initArgs.value| == 1 && initArgs.value[0].HashMap? && !NoNegativeKey(initArgs.value[0].entries)
  {
    if initArgs.None? then Some([])
    else if |initArgs.value| == 1 && initArgs.value[0].HashMap? then
      var m := initArgs.value[0].entries;
      if NoNegativeKey(m) then Some(ArgumentsArray(m)) else None
    else Some(initArgs.value)
  }

  /** What `newInstance` does once the arguments are known. */
  datatype Creation =
      /** a single Titanium proxy whose native object fits, wrapped as a Hyperloop instance */
    | Rewrapped(proxy: JValue)
      /** no constructor matches: `null` */
    | NoConstructor
      /** call constructor `index` with these converted arguments */
    | Construct(index: nat, args: seq<JValue>)

  /** A single Titanium (not Hyperloop) proxy whose native object is an instance of `cls`. */
  predicate RewrapsProxy(h: ClassTable, cls: string, args: seq<JValue>)
    requires WellFormed(h)
  {
    |args| == 1 && !Unwrap(args[0]).Null? &&
    IsAssignableFrom(h, cls, ClassOf(Unwrap(args[0]))) &&
    IsKrollProxy(args[0]) && !IsBaseProxy(args[0])
  }

  /** The number of arguments `convert` reads before the variable tail. */
  function FixedArity(m: Member): nat
  {
    if m.varArgs && |m.params| > 0 then |m.params| - 1 else |m.params|
  }

  /** Every argument unwrapped, as `unwrapArguments` leaves them. */
  ghost function UnwrapAll(args: seq<JValue>): (r: seq<JValue>)
    ensures |r| == |args| && forall i :: 0 <= i < |args| ==> r[i] == Unwrap(args[i])
  {
    seq(|args|, i requires 0 <= i < |args| => Unwrap(args[i]))
  }

  /**
   * What `newInstance` may answer for the normalised arguments `args`: the
   * re-wrapped proxy; `null` exactly when no constructor is resolved; a
   * failure only when the constructor resolved takes more fixed arguments
   * than there are; otherwise the constructor resolved, with each fixed
   * argument converted to its parameter type.
   */
  ghost predicate CreationFor(h: ClassTable, cls: string, constructors: seq<Member>, args: seq<JValue>, r: Result<Creation>)
    requires WellFormed(h) && AllCallable(constructors)
  {
    var unwrapped := UnwrapAll(args);
    if RewrapsProxy(h, cls, args) then
      r == Ok(Rewrapped(Instance(Ref(ClassOf(unwrapped[0])), unwrapped[0])))
    else
      (r == Ok(NoConstructor) <==> Resolved(h, constructors, None, unwrapped, None)) &&
      (r.Err? ==>
         exists i :: 0 <= i < |constructors| && Resolved(h, constructors, None, unwrapped, Some(i)) &&
           |unwrapped| < FixedArity(constructors[i])) &&
      (r.Ok? && r.value.Construct? ==>
         r.value.index < |constructors| &&
         Resolved(h, constructors, None, unwrapped, Some(r.value.index)) &&
         ConstructedWith(constructors[r.value.index], unwrapped, r.value.args))
  }

  /** `callArgs` are `args` converted for the constructor `c`. */
  ghost predicate ConstructedWith(c: Member, args: seq<JValue>, callArgs: seq<JValue>)
  {
    |args| >= FixedArity(c) && |callArgs| == |c.params| &&
    forall j :: 0 <= j < FixedArity(c) ==> callArgs[j] == ConvertTo(args[j], c.params[j])
  }

  /** The arguments `newInstance` receives, normalised as `NormalizedArgs` says. */
  method NormalizeInitArgs(initArgs: Option<seq<JValue>>) returns (r: Option<seq<JValue>>)
    ensures r == NormalizedArgs(initArgs)
  {
    if initArgs.None? {
      return Some([]);
    }
    var args := initArgs.value;
    if |args| == 1 && args[0].HashMap? {
      r := ConvertArgumentsMapToArray(args[0].entries);
      return;
    }
    return Some(args);
  }

  /** `newInstance` once its arguments are normalised. */
  method CreateFrom(h: ClassTable, cls: string, constructors: seq<Member>, args: seq<JValue>)
    returns (r: Result<Creation>)
    requires WellFormed(h) && AllCallable(constructors)
    ensures CreationFor(h, cls, constructors, args, r)
  {
    var convertedArgs := UnwrapArguments(args);
    assert convertedArgs == UnwrapAll(args);
    if RewrapsProxy(h, cls, args) {
      return Ok(Rewrapped(Instance(Ref(ClassOf(convertedArgs[0])), convertedArgs[0])));
    }
    var cons := ResolveConstructor(h, constructors, convertedArgs);
    if cons.None? {
      return Ok(NoConstructor);
    }
    var c := constructors[cons.value];
    if |convertedArgs| < FixedArity(c) {
      return Err("array index out of bounds");
    }
    var callArgs := Convert(convertedArgs, c.params, c.varArgs);
    return Ok(Construct(cons.value, callArgs));
  }

  /**
   * `newInstance` on the class `cls` with public constructors
   * `constructors`: the arguments are normalised and unwrapped; a single
   * Titanium proxy whose native object is already an instance of the class
   * is re-wrapped; otherwise the constructor is resolved and handed the
   * converted arguments.
   */
  method NewInstance(h: ClassTable, cls: string, constructors: seq<Member>, initArgs: Option<seq<JValue>>)
    returns (r: Result<Creation>)
    requires WellFormed(h) && AllCallable(constructors)
    ensures NormalizedArgs(initArgs).None? ==> r.Err?
    ensures NormalizedArgs(initArgs).Some? ==> CreationFor(h, cls, constructors, NormalizedArgs(initArgs).value, r)
  {
    var args := NormalizeInitArgs(initArgs);
    if args.None? {
      return Err("array index out of bounds");
    }
    r := CreateFrom(h, cls, constructors, args.value);
  }
}
