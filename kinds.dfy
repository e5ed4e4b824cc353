/**
 * Identities and roles shared by the registry and the script-dependency
 * builder: package ids, the two compilation kinds and the requirement a
 * dependency edge places on them.
 */
module Kinds {

  /**
   * A package identity.  Packages are numbered; the order of the numbers
   * stands for the order of `PackageId`, which `build_map` sorts by.
   */
  type PackageId = nat

  /** A compilation target of a package (library, binary, build script, ...). */
  type TargetId = nat

  /** A compilation profile (dev, release, test, ...). */
  type ProfileId = nat

  /** Whether something is compiled for the host or for the target platform. */
  datatype Kind = Host | Target

  /** Which kinds a build script's output, or a dependency edge, is needed for. */
  datatype Platform = Target | Plugin | PluginAndTarget

  /** `Platform::includes`: `Target` covers the target kind, `Plugin` the host kind, `PluginAndTarget` both. */
  predicate Includes(req: Platform, kind: Kind) {
    match req
    case Target => kind == Kind.Target
    case Plugin => kind == Host
    case PluginAndTarget => true
  }

  /** The other kind. */
  function Flip(kind: Kind): (r: Kind)
    ensures r != kind
  {
    if kind == Kind.Target then Host else Kind.Target
  }
}
