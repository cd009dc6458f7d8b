/**
 * Packages and their assets as the baseline validator sees them.
 *
 * Reading a package from its files and NuGet's framework and runtime
 * compatibility tables are not part of this model: a package arrives with its
 * three asset groups already built, and its three "find best asset" queries
 * are given as functions.
 */
module Packages {
  import opened Wrappers

  /**
   * One content item of a package: its path, the string form of its target
   * framework (the "tfm" property) and, for runtime-specific assets, its
   * runtime identifier (the "rid" property).
   */
  datatype Asset = Asset(path: string, tfm: string, rid: Option<string>)

  datatype Package = Package(
    packagePath: string,
    version: string,
    hasRefAssemblies: bool,
    compileAssets: seq<Asset>,
    runtimeAssets: seq<Asset>,
    runtimeSpecificAssets: seq<Asset>,
    // FindBestCompileAssetForFramework(tfm)
    findBestCompileAsset: string -> Option<Asset>,
    // FindBestRuntimeAssetForFramework(tfm)
    findBestRuntimeAsset: string -> Option<Asset>,
    // FindBestRuntimeAssetForFrameworkAndRuntime(tfm, rid)
    findBestRuntimeSpecificAsset: (string, string) -> Option<Asset>)

  /** Every runtime-specific asset carries a runtime identifier. */
  predicate HasRids(assets: seq<Asset>)
  {
    forall i :: 0 <= i < |assets| ==> assets[i].rid.Some?
  }

  /**
   * What building a package guarantees about its runtime-specific assets;
   * reading the "rid" property of an asset without one would throw.
   */
  predicate RidsPresent(p: Package)
  {
    HasRids(p.runtimeSpecificAssets)
  }
}
