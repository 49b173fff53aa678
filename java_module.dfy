/**
 * The `Hyperloop` module object of the Android runtime
 * (android/src/hyperloop/HyperloopModule.java): the platform-GUID gate and
 * the entry points JavaScript calls to look up, cast, implement and extend
 * Java classes.
 */
module JavaModule {
  import opened Wrappers
  import opened JavaTypes
  import opened HyperloopUtil

  /** The lower-case hexadecimal digits. */
  const Alpha: seq<char> := "0123456789abcdef"

  /**
   * A GUID generated by the Appcelerator platform: 36 characters, a `9` at
   * index 19, then three copies of one lower-case hexadecimal digit.
   */
  predicate PlatformGUID(guid: string)
  {
    |guid| == 36 && guid[19] == '9' && guid[20] in Alpha && guid[20..23] == [guid[20], guid[20], guid[20]]
  }

  /** `isPlatformGUID`, with its search of the digit table. */
  method IsPlatformGUID(guid: string) returns (b: bool)
    ensures b == PlatformGUID(guid)
  {
    if |guid| == 36 {
      if guid[19] == '9' {
        var alpha := guid[20];
        var found := false;
        var c := 0;
        while c < |Alpha|
          invariant 0 <= c <= |Alpha|
          invariant found <==> alpha in Alpha[..c]
        {
          if alpha == Alpha[c] {
            found := true;
            break;
          }
          c := c + 1;
        }
        assert found <==> alpha in Alpha by {
          if !found {
            assert Alpha[..|Alpha|] == Alpha;
          }
        }
        if found {
          var str := guid[20..23];
          if str == [alpha] + [alpha] + [alpha] {
            return true;
          }
        }
      }
    }
    return false;
  }

  /**
   * The same check by character ranges: position 19 is `9` and positions
   * 20 to 22 repeat one digit or one of `a` to `f`.
   */
  lemma PlatformGUIDByRanges(guid: string)
    ensures PlatformGUID(guid) <==>
      |guid| == 36 && guid[19] == '9' && guid[20] == guid[21] == guid[22] &&
      ('0' <= guid[20] <= '9' || 'a' <= guid[20] <= 'f')
  {
    if |guid| == 36 {
      var a := guid[20];
      assert a in Alpha <==> ('0' <= a <= '9' || 'a' <= a <= 'f') by {
        if '0' <= a <= '9' || 'a' <= a <= 'f' {
          var k: int := if a <= '9' then a as int - '0' as int else a as int - 'a' as int + 10;
          assert Alpha[k] == a;
        }
      }
      assert guid[20..23] == [guid[20], guid[21], guid[22]];
    }
  }

  /** The example from the source's comment passes; the same GUID with upper-case digits does not. */
  lemma PlatformGUIDExamples(good: string, upper: string)
    requires good == "9cba353d-81aa-4593-9111-2e83c0136c14"
    requires upper == "9CBA353D-81AA-4593-9AAA-2E83C0136C14"
    ensures PlatformGUID(good)
    ensures !PlatformGUID(upper)
  {
    PlatformGUIDByRanges(good);
    PlatformGUIDByRanges(upper);
  }

  /** The state of the gate after `onAppCreate` as written: only ever set to true. */
  function AfterAppCreateAsWritten(before: bool, guid: string): (r: bool)
    ensures r <==> before || PlatformGUID(guid)
    ensures before ==> r
  {
    if !PlatformGUID(guid) then before else true
  }

  /** The state of the gate after `onAppCreate` as its comment intends: open exactly for a platform GUID. */
  function AfterAppCreate(before: bool, guid: string): (r: bool)
    ensures r <==> PlatformGUID(guid)
  {
    PlatformGUID(guid)
  }

  /**
   * The gate starts open and `onAppCreate` as written never closes it, so
   * an application without a platform GUID (the empty GUID, say) keeps
   * Hyperloop enabled.
   */
  lemma AppCreateNeverDisables(guid: string)
    requires guid == ""
    ensures !PlatformGUID(guid)
    ensures AfterAppCreateAsWritten(true, guid)
    ensures !AfterAppCreate(true, guid)
  {
  }

  /** A Java class generated at run time. */
  datatype Generated =
    | InterfaceSubclass(iface: string)
    | DynamicSubclass(base: string)

  /**
   * The module object.  `isPlatformGUID` is the source's static flag; the
   * class table stands in for the classes the class loader can find.
   */
  class HyperloopModule {
    var isPlatformGUID: bool

    /** The flag starts out true, before any check is made. */
    constructor ()
      ensures isPlatformGUID
    {
      isPlatformGUID := true;
    }

    /** `onAppCreate` as written: a platform GUID sets the flag, anything else leaves it. */
    method OnAppCreateAsWritten(guid: string)
      modifies this
      ensures isPlatformGUID == AfterAppCreateAsWritten(old(isPlatformGUID), guid)
    {
      var ok := IsPlatformGUID(guid);
      if !ok {
        return;
      }
      isPlatformGUID := true;
    }

    /** `onAppCreate` as intended: Hyperloop is enabled exactly for a platform GUID. */
    method OnAppCreate(guid: string)
      modifies this
      ensures isPlatformGUID == AfterAppCreate(old(isPlatformGUID), guid)
    {
      var ok := IsPlatformGUID(guid);
      if !ok {
        isPlatformGUID := false;
        return;
      }
      isPlatformGUID := true;
    }

    /** `getJavaClass`: the class of that name, while Hyperloop is enabled. */
    function GetJavaClass(h: ClassTable, className: Option<string>): (r: Option<string>)
      reads this
      ensures r.Some? <==> isPlatformGUID && className.Some? && className.value in h
      ensures r.Some? ==> r == className
    {
      if !isPlatformGUID then None
      else if className.None? then None
      else if className.value !in h then None
      else Some(className.value)
    }

    /**
     * `cast`: an instance proxy re-typed as the named class when its object
     * is an instance of it, and returned unchanged when it is not; `None`
     * when the value is not an instance proxy or the class is unknown.
     */
    function Cast(h: ClassTable, className: string, obj: JValue): (r: Option<JValue>)
      requires WellFormed(h)
      reads this
      ensures r.Some? <==> isPlatformGUID && obj.Instance? && className in h
      ensures r.Some? ==> r.value.Instance? && r.value.wrapped == obj.wrapped
      ensures r.Some? && r.value != obj ==> r.value.ty == Ref(className)
      ensures r.Some? && !obj.wrapped.Null? && IsAssignableFrom(h, className, ClassOf(obj.wrapped)) ==>
        r.value.ty == Ref(className)
    {
      if !isPlatformGUID then None
      else if !obj.Instance? then None
      else
        var javaClass := GetJavaClass(h, Some(className));
        if javaClass.None? then None
        else if obj.wrapped.Null? || IsAssignableFrom(h, className, ClassOf(obj.wrapped)) then
          Some(Instance(Ref(className), obj.wrapped))
        else Some(obj)
    }

    /** `getClass`: a class proxy for a known, non-empty class name. */
    function GetClass(h: ClassTable, className: string): (r: Option<JValue>)
      reads this
      ensures r.Some? <==> isPlatformGUID && className != "" && className in h
      ensures r.Some? ==> Unwrap(r.value) == ClassObj(className)
    {
      if !isPlatformGUID then None
      else if className == "" then None
      else
        var c := GetJavaClass(h, Some(className));
        if c.None? then None else Some(ClassRef(c.value))
    }

    /** `implement`: a generated class implementing a known interface. */
    function Implement(h: ClassTable, className: Option<string>): (r: Option<Generated>)
      reads this
      ensures r.Some? <==> isPlatformGUID && className.Some? && className.value in h && h[className.value].isInterface
      ensures r.Some? ==> r.value == InterfaceSubclass(className.value)
    {
      if !isPlatformGUID then None
      else if className.None? then None
      else
        var c := GetJavaClass(h, className);
        if c.None? then None
        else if !h[c.value].isInterface then None
        else Some(InterfaceSubclass(c.value))
    }

    /**
     * `extend`: a generated subclass of a known class that is neither final
     * nor private or package-private; `built` says whether generating the
     * class succeeded.
     */
    function Extend(h: ClassTable, className: Option<string>, built: bool): (r: Option<Generated>)
      reads this
      ensures r.Some? <==>
        isPlatformGUID && className.Some? && className.value in h &&
        !h[className.value].isFinal && (h[className.value].isPublic || h[className.value].isProtected) && built
      ensures r.Some? ==> r.value == DynamicSubclass(className.value)
    {
      if !isPlatformGUID then None
      else if className.None? then None
      else
        var c := GetJavaClass(h, className);
        if c.None? then None
        else if h[c.value].isFinal then None
        else if !h[c.value].isPublic && !h[c.value].isProtected then None
        else if !built then None
        else Some(DynamicSubclass(className.value))
    }
  }
}
