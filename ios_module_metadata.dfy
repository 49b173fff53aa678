/**
 * What the iOS metabase package records about one module, a static library
 * or a framework (packages/hyperloop-ios-metabase/lib/module_metadata.js):
 * its JSON form, whether it is available in an iOS version, the conversion
 * of Apple version numbers to semantic versions, and the per-module cache
 * of its metabase.
 *
 * Only the part of the `semver` package that this file uses is modelled:
 * strict parsing of `MAJOR.MINOR.PATCH` and the ordering of versions.
 */
module IosModuleMetadata {
  import opened Wrappers
  import opened Strs
  import opened JsStrings
  import opened Json

  // ---------------------------------------------------------------- semver

  /** A semantic version without pre-release or build parts. */
  datatype Version = Version(major: nat, minor: nat, patch: nat)

  /** Longest string `semver` will parse. */
  const MaxLength: nat := 256
  /** `Number.MAX_SAFE_INTEGER`, the largest version component `semver` accepts. */
  const MaxSafeInteger: nat := 9007199254740991

  /** A numeric identifier `0|[1-9]\d*` no larger than the largest safe integer. */
  function ParseNumeric(s: string): (r: Option<nat>)
    ensures r.Some? ==> r.value <= MaxSafeInteger
    ensures r.Some? ==> s != [] && AllDigits(s) && (|s| > 1 ==> s[0] != '0')
  {
    if s == [] || !AllDigits(s) || (|s| > 1 && s[0] == '0') then None
    else if DigitsValue(s) > MaxSafeInteger then None
    else Some(DigitsValue(s))
  }

  /** `semver.valid` / `new SemVer(v)` in strict mode: `v?MAJOR.MINOR.PATCH` after trimming. */
  function ParseSemver(v: string): (r: Option<Version>)
    ensures r.Some? ==> |v| <= MaxLength
    ensures r.Some? ==> r.value.major <= MaxSafeInteger && r.value.minor <= MaxSafeInteger && r.value.patch <= MaxSafeInteger
  {
    if |v| > MaxLength then None
    else
      var t := Trim(v);
      var body := if t != [] && t[0] == 'v' then t[1..] else t;
      var parts := SplitChar(body, '.');
      if |parts| != 3 then None
      else
        match (ParseNumeric(parts[0]), ParseNumeric(parts[1]), ParseNumeric(parts[2]))
        case (Some(major), Some(minor), Some(patch)) => Some(Version(major, minor, patch))
        case _ => None
  }

  /** The canonical form `semver` prints. */
  function RenderSemver(v: Version): string
  {
    NatToString(v.major) + "." + NatToString(v.minor) + "." + NatToString(v.patch)
  }

  /** `semver.lte`: the versions compared component by component. */
  predicate VersionLe(a: Version, b: Version)
  {
    a.major < b.major
    || (a.major == b.major && (a.minor < b.minor || (a.minor == b.minor && a.patch <= b.patch)))
  }

  lemma VersionLeTransitive(a: Version, b: Version, c: Version)
    requires VersionLe(a, b) && VersionLe(b, c)
    ensures VersionLe(a, c)
  {
  }

  lemma VersionLeTotal(a: Version, b: Version)
    ensures VersionLe(a, b) || VersionLe(b, a)
    ensures VersionLe(a, b) && VersionLe(b, a) ==> a == b
  {
  }

  lemma ParseNumericOfNat(n: nat)
    requires n <= MaxSafeInteger
    ensures ParseNumeric(NatToString(n)) == Some(n)
  {
    NatToStringValue(n);
    NatToStringNoLeadingZero(n);
  }

  lemma NoSeparatorInNumber(n: nat)
    ensures '.' !in NatToString(n)
    ensures forall k :: 0 <= k < |NatToString(n)| ==> !IsJsSpace(NatToString(n)[k])
  {
    var s := NatToString(n);
    assert forall k :: 0 <= k < |s| ==> IsDigit(s[k]);
  }

  /** A rendered version has no white space to trim. */
  lemma RenderTrimmed(v: Version)
    ensures Trim(RenderSemver(v)) == RenderSemver(v)
  {
    var a, b, c := NatToString(v.major), NatToString(v.minor), NatToString(v.patch);
    var s := RenderSemver(v);
    NoSeparatorInNumber(v.major);
    NoSeparatorInNumber(v.minor);
    NoSeparatorInNumber(v.patch);
    forall k | 0 <= k < |s|
      ensures !IsJsSpace(s[k])
    {
      if k < |a| {
        assert s[k] == a[k];
      } else if |a| < k < |a| + 1 + |b| {
        assert s[k] == b[k - |a| - 1];
      } else if k > |a| + 1 + |b| {
        assert s[k] == c[k - |a| - |b| - 2];
      }
    }
    TrimNoSpace(s);
  }

  /** A rendered version splits into its three numbers. */
  lemma RenderSplit(v: Version)
    ensures SplitChar(RenderSemver(v), '.') == [NatToString(v.major), NatToString(v.minor), NatToString(v.patch)]
    ensures RenderSemver(v)[0] != 'v'
  {
    var a, b, c := NatToString(v.major), NatToString(v.minor), NatToString(v.patch);
    NoSeparatorInNumber(v.major);
    NoSeparatorInNumber(v.minor);
    NoSeparatorInNumber(v.patch);
    assert RenderSemver(v) == a + ['.'] + (b + ['.'] + c);
    assert IsDigit(a[0]);
    SplitCharCons(a, '.', b + ['.'] + c);
    SplitCharCons(b, '.', c);
    SplitCharNone(c, '.');
  }

  /** `semver` reads back the version it prints. */
  lemma ParseRender(v: Version)
    requires v.major <= MaxSafeInteger && v.minor <= MaxSafeInteger && v.patch <= MaxSafeInteger
    requires |RenderSemver(v)| <= MaxLength
    ensures ParseSemver(RenderSemver(v)) == Some(v)
  {
    RenderTrimmed(v);
    RenderSplit(v);
    ParseNumericOfNat(v.major);
    ParseNumericOfNat(v.minor);
    ParseNumericOfNat(v.patch);
  }

  // ---------------------------------------------------------------- Apple versions

  /**
   * `appleVersionToSemver`: "9" becomes "9.0.0" and "9.0" becomes
   * "9.0.0"; a version with three or more parts is kept as it is.
   */
  function AppleVersionToSemver(ver: string): (r: string)
    ensures StartsWith(r, ver)
    ensures |SplitChar(r, '.')| >= 3
    ensures |SplitChar(ver, '.')| >= 3 ==> r == ver
  {
    var n := |SplitChar(ver, '.')|;
    if n == 1 then
      SplitCharCount(ver, '.', "0");
      SplitCharCount(ver + ".0", '.', "0");
      assert ver + ".0" == ver + ['.'] + "0";
      assert ver + ".0.0" == (ver + ".0") + ['.'] + "0";
      assert (ver + ".0.0")[..|ver|] == ver;
      ver + ".0.0"
    else if n == 2 then
      SplitCharCount(ver, '.', "0");
      assert ver + ".0" == ver + ['.'] + "0";
      assert (ver + ".0")[..|ver|] == ver;
      ver + ".0"
    else
      ver
  }

  /** An Apple version `MAJOR.MINOR` is read as the semantic version `MAJOR.MINOR.0`. */
  lemma AppleVersionOfTwo(major: nat, minor: nat)
    requires major <= MaxSafeInteger && minor <= MaxSafeInteger
    requires |NatToString(major) + "." + NatToString(minor)| + 2 <= MaxLength
    ensures ParseSemver(AppleVersionToSemver(NatToString(major) + "." + NatToString(minor)))
         == Some(Version(major, minor, 0))
  {
    var ver := NatToString(major) + "." + NatToString(minor);
    NoSeparatorInNumber(major);
    NoSeparatorInNumber(minor);
    SplitCharCons(NatToString(major), '.', NatToString(minor));
    SplitCharNone(NatToString(minor), '.');
    assert ver == NatToString(major) + ['.'] + NatToString(minor);
    assert AppleVersionToSemver(ver) == RenderSemver(Version(major, minor, 0));
    ParseRender(Version(major, minor, 0));
  }

  /** An Apple version `MAJOR` is read as the semantic version `MAJOR.0.0`. */
  lemma AppleVersionOfOne(major: nat)
    requires major <= MaxSafeInteger
    requires |NatToString(major)| + 4 <= MaxLength
    ensures ParseSemver(AppleVersionToSemver(NatToString(major))) == Some(Version(major, 0, 0))
  {
    var ver := NatToString(major);
    NoSeparatorInNumber(major);
    SplitCharNone(ver, '.');
    assert NatToString(0) == "0";
    assert AppleVersionToSemver(ver) == ver + ".0.0";
    assert ver + ".0.0" == RenderSemver(Version(major, 0, 0));
    ParseRender(Version(major, 0, 0));
  }

  // ---------------------------------------------------------------- availability

  /** The version `introducedIn` names, when it is a valid semantic version. */
  function IntroducedVersion(introducedIn: Json): Option<Version>
  {
    if introducedIn.JStr? then ParseSemver(introducedIn.s) else None
  }

  /**
   * `isAvailable`: a module without a valid `introducedIn` is always
   * available; otherwise it is available from that version on.  An iOS
   * version `semver` cannot read makes the comparison throw.
   */
  function IsAvailable(introducedIn: Json, iOSVersion: string): (r: Result<bool>)
    ensures IntroducedVersion(introducedIn).None? ==> r == Ok(true)
    ensures IntroducedVersion(introducedIn).Some? ==>
              (r.Err? <==> ParseSemver(AppleVersionToSemver(iOSVersion)).None?)
    ensures IntroducedVersion(introducedIn).Some? && ParseSemver(AppleVersionToSemver(iOSVersion)).Some? ==>
              (r == Ok(true) <==>
                 VersionLe(IntroducedVersion(introducedIn).value, ParseSemver(AppleVersionToSemver(iOSVersion)).value))
  {
    match IntroducedVersion(introducedIn)
    case None => Ok(true)
    case Some(intro) =>
      match ParseSemver(AppleVersionToSemver(iOSVersion))
      case None => Err("TypeError: Invalid Version")
      case Some(target) => Ok(VersionLe(intro, target))
  }

  /** A module available in one iOS version stays available in every later one. */
  lemma AvailableLater(introducedIn: Json, earlier: string, later: string)
    requires IsAvailable(introducedIn, earlier) == Ok(true)
    requires ParseSemver(AppleVersionToSemver(earlier)).Some? && ParseSemver(AppleVersionToSemver(later)).Some?
    requires VersionLe(ParseSemver(AppleVersionToSemver(earlier)).value, ParseSemver(AppleVersionToSemver(later)).value)
    ensures IsAvailable(introducedIn, later) == Ok(true)
  {
    if IntroducedVersion(introducedIn).Some? {
      VersionLeTransitive(IntroducedVersion(introducedIn).value,
                          ParseSemver(AppleVersionToSemver(earlier)).value,
                          ParseSemver(AppleVersionToSemver(later)).value);
    }
  }

  /** A module introduced in `MAJOR.MINOR.0` is available in iOS `MAJOR.MINOR`. */
  lemma AvailableInItsOwnVersion(major: nat, minor: nat)
    requires major <= MaxSafeInteger && minor <= MaxSafeInteger
    requires |NatToString(major) + "." + NatToString(minor)| + 2 <= MaxLength
    ensures IsAvailable(JStr(RenderSemver(Version(major, minor, 0))), NatToString(major) + "." + NatToString(minor))
         == Ok(true)
  {
    ParseRender(Version(major, minor, 0));
    AppleVersionOfTwo(major, minor);
  }

  // ---------------------------------------------------------------- module metadata

  const ModuleTypeStatic: string := "static"
  const ModuleTypeDynamic: string := "dynamic"

  /** A property read from a plain object; an absent one reads as null. */
  function FieldOf(json: Json, key: string): (r: Json)
    ensures json.JObj? && key in json.fields ==> r == json.fields[key]
    ensures !(json.JObj? && key in json.fields) ==> r == JNull
  {
    if json.JObj? && key in json.fields then json.fields[key] else JNull
  }

  /** The plain object `toJson` returns. */
  function ModuleJson(name: Json, path: string, moduleType: Json, introducedIn: Json, umbrellaHeader: Json,
                      usesSwift: Json): (r: Json)
    ensures r.JObj? && r.fields.Keys == {"name", "path", "type", "introducedIn", "umbrellaHeader", "usesSwift"}
  {
    JObj(map["name" := name, "path" := JStr(path), "type" := moduleType, "introducedIn" := introducedIn,
             "umbrellaHeader" := umbrellaHeader, "usesSwift" := usesSwift])
  }

  /** Each property `toJson` writes reads back as what was written. */
  lemma ModuleJsonFields(name: Json, path: string, moduleType: Json, introducedIn: Json, umbrellaHeader: Json,
                         usesSwift: Json)
    ensures var j := ModuleJson(name, path, moduleType, introducedIn, umbrellaHeader, usesSwift);
            FieldOf(j, "name") == name && FieldOf(j, "path") == JStr(path) && FieldOf(j, "type") == moduleType
            && FieldOf(j, "introducedIn") == introducedIn && FieldOf(j, "umbrellaHeader") == umbrellaHeader
            && FieldOf(j, "usesSwift") == usesSwift
  {
  }

  /** A module, as `ModuleMetadata` holds it. */
  class ModuleMetadata {
    var name: Json
    var path: string
    var moduleType: Json
    var isFramework: bool
    var introducedIn: Json
    var umbrellaHeader: Json
    var usesSwift: Json
    /** The metabase `generateMetabase` cached, if any. */
    var metabase: Option<map<string, Json>>

    /** A new module: a framework exactly when its path ends in ".framework"; nothing else known yet. */
    constructor (name: Json, path: string, moduleType: Json)
      ensures this.name == name && this.path == path && this.moduleType == moduleType
      ensures isFramework <==> EndsWith(path, ".framework")
      ensures introducedIn == JNull && umbrellaHeader == JNull && usesSwift == JBool(false)
      ensures metabase.None?
    {
      this.name := name;
      this.path := path;
      this.moduleType := moduleType;
      this.isFramework := EndsWith(path, ".framework");
      this.introducedIn := JNull;
      this.umbrellaHeader := JNull;
      this.usesSwift := JBool(false);
      this.metabase := None;
    }

    /** `toJson`: the six serialisable properties. */
    function ToJson(): (r: Json)
      reads this
      ensures r == ModuleJson(name, path, moduleType, introducedIn, umbrellaHeader, usesSwift)
    {
      ModuleJson(name, path, moduleType, introducedIn, umbrellaHeader, usesSwift)
    }

    /** `isAvailable` on this module's `introducedIn`. */
    function Available(iOSVersion: string): (r: Result<bool>)
      reads this
      ensures r == IsAvailable(introducedIn, iOSVersion)
    {
      IsAvailable(introducedIn, iOSVersion)
    }

    /**
     * `fromJson`: a module built from a plain object; the constructor's
     * `path.endsWith` throws unless the path is a string.
     */
    static method FromJson(json: Json) returns (r: Result<ModuleMetadata>)
      ensures r.Err? <==> !FieldOf(json, "path").JStr?
      ensures r.Ok? ==> fresh(r.value)
      ensures r.Ok? ==> r.value.name == FieldOf(json, "name") && r.value.path == FieldOf(json, "path").s
                        && r.value.moduleType == FieldOf(json, "type")
                        && r.value.isFramework == EndsWith(FieldOf(json, "path").s, ".framework")
                        && r.value.introducedIn == FieldOf(json, "introducedIn")
                        && r.value.umbrellaHeader == FieldOf(json, "umbrellaHeader")
                        && r.value.usesSwift == FieldOf(json, "usesSwift")
                        && r.value.metabase.None?
    {
      var path := FieldOf(json, "path");
      if !path.JStr? {
        return Err("TypeError: path.endsWith is not a function");
      }
      var metadata := new ModuleMetadata(FieldOf(json, "name"), path.s, FieldOf(json, "type"));
      metadata.introducedIn := FieldOf(json, "introducedIn");
      metadata.umbrellaHeader := FieldOf(json, "umbrellaHeader");
      metadata.usesSwift := FieldOf(json, "usesSwift");
      return Ok(metadata);
    }

    /** A module written by `toJson` and read by `fromJson` has the same properties. */
    method RoundTrip() returns (copy: Result<ModuleMetadata>)
      ensures copy.Ok? && fresh(copy.value)
      ensures copy.value.name == name && copy.value.path == path && copy.value.moduleType == moduleType
      ensures copy.value.isFramework == EndsWith(path, ".framework")
      ensures copy.value.introducedIn == introducedIn && copy.value.umbrellaHeader == umbrellaHeader
      ensures copy.value.usesSwift == usesSwift
    {
      ModuleJsonFields(name, path, moduleType, introducedIn, umbrellaHeader, usesSwift);
      copy := FromJson(ToJson());
    }

    /**
     * `generateMetabase`: the cached metabase when there is one; otherwise
     * the generated one (its failure passed on), which is then cached.
     */
    method GenerateMetabase(generated: Result<map<string, Json>>) returns (r: Result<map<string, Json>>)
      modifies this
      ensures old(metabase).Some? ==> r == Ok(old(metabase).value) && metabase == old(metabase)
      ensures old(metabase).None? ==> r == generated
      ensures old(metabase).None? ==> metabase == if generated.Ok? then Some(generated.value) else None
      ensures r.Ok? ==> metabase == Some(r.value)
    {
      if metabase.Some? {
        return Ok(metabase.value);
      }
      if generated.Err? {
        return Err(generated.error);
      }
      metabase := Some(generated.value);
      return Ok(generated.value);
    }
  }
}
