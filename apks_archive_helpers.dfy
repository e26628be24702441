/**
 Builders of build-result values used by the classifier's fixtures. Only the
 shape their names and arguments imply is modelled: a split description carries
 split metadata and the master flag it is given; a standalone or an instant apk
 set holds one description of its own family.
 */
module ApksArchiveHelpers {
  import opened Targeting
  import opened Commands

  /** The module name a standalone apk set is filed under. */
  const StandaloneModuleName: string := "base"

  /** A path joined from a directory and a file name. */
  function PathOf(dir: string, file: string): (p: Path)
    ensures |p| == |dir| + 1 + |file|
    ensures p[..|dir|] == dir && p[|dir|] == '/' && p[|dir| + 1..] == file
  {
    dir + "/" + file
  }

  /** A split APK description with the given master flag. */
  function CreateApkDescription(targeting: ApkTargeting, path: Path, isMasterSplit: bool): (d: ApkDescription)
    ensures d.metadata == SplitApkMetadata && d.isMasterSplit == isMasterSplit
    ensures d.targeting == targeting && d.path == path
  {
    ApkDescription(targeting, path, isMasterSplit, SplitApkMetadata)
  }

  /** The master split APK description of a module. */
  function CreateMasterApkDescription(targeting: ApkTargeting, path: Path): (d: ApkDescription)
    ensures d.metadata == SplitApkMetadata && d.isMasterSplit
    ensures d.targeting == targeting && d.path == path
  {
    CreateApkDescription(targeting, path, true)
  }

  /** One module's split APKs. */
  function CreateSplitApkSet(moduleName: string, descriptions: seq<ApkDescription>): (s: ApkSet)
    ensures s.moduleName == moduleName && s.apkDescriptions == descriptions
  {
    ApkSet(moduleName, descriptions)
  }

  /** A standalone APK: one apk set holding one standalone description. */
  function CreateStandaloneApkSet(targeting: ApkTargeting, path: Path): (s: ApkSet)
    ensures IsApkSetOf(s, StandaloneApkMetadata) && |s.apkDescriptions| == 1
    ensures s.apkDescriptions[0].targeting == targeting && s.apkDescriptions[0].path == path
  {
    ApkSet(StandaloneModuleName, [ApkDescription(targeting, path, true, StandaloneApkMetadata)])
  }

  /** One module's instant APK: an apk set holding one instant description. */
  function CreateInstantApkSet(moduleName: string, targeting: ApkTargeting, path: Path): (s: ApkSet)
    ensures IsApkSetOf(s, InstantApkMetadata) && |s.apkDescriptions| == 1
    ensures s.moduleName == moduleName
    ensures s.apkDescriptions[0].targeting == targeting && s.apkDescriptions[0].path == path
  {
    ApkSet(moduleName, [ApkDescription(targeting, path, true, InstantApkMetadata)])
  }

  /** A variant with the given targeting and apk sets, in that order. */
  function CreateVariant(targeting: VariantTargeting, apkSets: seq<ApkSet>): (v: Variant)
    ensures v.targeting == targeting && v.apkSets == apkSets
  {
    Variant(targeting, apkSets)
  }
}
