/**
 * The location filter of the metabase generator (`ParserContext` in
 * parser.cpp): which framework a header belongs to, whether a definition
 * from a given file is left out of the output, and which files are
 * recorded as dependencies on the way.
 */
module Locations {
  import opened Strs
  import opened Defs

  /** The settings a `ParserContext` is created with. */
  datatype Config = Config(sdkPath: string, minVersion: string, excludeSys: bool, frameworkFilter: string, frameworkName: string)

  /** `filterToSingleFramework`: a framework filter was given (parser.h is not part of this model). */
  predicate SingleFramework(cfg: Config)
  {
    cfg.frameworkFilter != []
  }

  /** `isFrameworkLocation` without its side effect: the location contains the framework filter. */
  predicate InFramework(cfg: Config, location: string)
  {
    Contains(location, cfg.frameworkFilter)
  }

  /** The answer of `excludeLocation` and the locations it records as dependencies. */
  datatype Exclusion = Exclusion(excluded: bool, recorded: set<string>)

  /** `isFrameworkLocation`: inside the framework, or else recorded as a dependency. */
  function FrameworkCheck(cfg: Config, location: string): (r: Exclusion)
    ensures r.excluded <==> !InFramework(cfg, location)
    ensures r.recorded == (if InFramework(cfg, location) then {} else {location})
  {
    if InFramework(cfg, location) then Exclusion(false, {}) else Exclusion(true, {location})
  }

  /**
   * `excludeLocation`. With a framework filter: a CoreFoundation filter
   * keeps system headers and the framework's own; a Foundation filter
   * always keeps NSObject.h; otherwise only the framework's own headers
   * are kept. Without a filter, system headers and those under the SDK
   * are dropped exactly when system APIs are excluded. Only the framework
   * test records dependencies.
   */
  function ExcludeOutcome(cfg: Config, location: string): (r: Exclusion)
    ensures r.recorded <= {location}
    ensures location in r.recorded ==> SingleFramework(cfg) && !InFramework(cfg, location) && r.excluded
    ensures SingleFramework(cfg) && InFramework(cfg, location) ==> !r.excluded
    ensures SingleFramework(cfg) && Contains(cfg.frameworkFilter, "/CoreFoundation.framework") ==>
              (r.excluded <==> !IsSystemLocation(location) && !InFramework(cfg, location))
              && (r.recorded == {location} <==> !IsSystemLocation(location) && !InFramework(cfg, location))
    ensures SingleFramework(cfg) && !Contains(cfg.frameworkFilter, "/CoreFoundation.framework")
            && Contains(cfg.frameworkFilter, "/Foundation.framework") && Contains(location, "NSObject.h") ==>
              r == Exclusion(false, {})
    ensures SingleFramework(cfg) && !Contains(cfg.frameworkFilter, "/CoreFoundation.framework")
            && !(Contains(cfg.frameworkFilter, "/Foundation.framework") && Contains(location, "NSObject.h")) ==>
              r == FrameworkCheck(cfg, location)
    ensures !SingleFramework(cfg) ==>
              r.recorded == {} && (r.excluded <==> cfg.excludeSys && (IsSystemLocation(location) || Contains(location, cfg.sdkPath)))
  {
    if SingleFramework(cfg) then
      if Contains(cfg.frameworkFilter, "/CoreFoundation.framework") then
        if IsSystemLocation(location) then Exclusion(false, {}) else FrameworkCheck(cfg, location)
      else if Contains(cfg.frameworkFilter, "/Foundation.framework") && Contains(location, "NSObject.h") then
        Exclusion(false, {})
      else FrameworkCheck(cfg, location)
    else Exclusion(cfg.excludeSys && (IsSystemLocation(location) || Contains(location, cfg.sdkPath)), {})
  }

  /** Without a filter and without excluding system APIs, nothing is left out. */
  lemma NothingExcludedByDefault(cfg: Config, location: string)
    requires !SingleFramework(cfg) && !cfg.excludeSys
    ensures ExcludeOutcome(cfg, location) == Exclusion(false, {})
  {
  }

  /**
   * `getFrameworkName` of the current location: the explicit framework
   * name when one was given, otherwise the framework the file belongs to.
   */
  function FrameworkName(cfg: Config, filename: string): (r: string)
    ensures cfg.frameworkName != [] ==> r == cfg.frameworkName
    ensures cfg.frameworkName == [] && Find(filename, ".framework").None? ==> r == filename
    ensures cfg.frameworkName == [] && Find(filename, ".framework").Some? ==> '/' !in r
  {
    if cfg.frameworkName != [] then cfg.frameworkName else FrameworkOf(filename)
  }
}
