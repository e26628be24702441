/**
 The classifier's fixtures (one variant of each family, and a build result that
 holds all three) and the facts the classifier must establish about them.
 */
module ResultUtilsTest {
  import opened Targeting
  import opened Commands
  import opened ApksArchiveHelpers
  import opened ResultUtils
  import opened Sequences

  /** Three instant modules (base, feature, other), with no APK targeting. */
  function CreateInstantVariant(): (v: Variant)
    ensures v.targeting == VariantSdkTargeting(SdkVersionFrom(21), {DefaultSdkVersion()})
    ensures |v.apkSets| == 3
    ensures v.apkSets[0].moduleName == "base" && v.apkSets[1].moduleName == "feature"
      && v.apkSets[2].moduleName == "other"
    ensures forall k :: 0 <= k < 3 ==>
      (IsApkSetOf(v.apkSets[k], InstantApkMetadata) && |v.apkSets[k].apkDescriptions| == 1
       && v.apkSets[k].apkDescriptions[0].targeting == DefaultApkTargeting())
    ensures v.apkSets[0].apkDescriptions[0].path == PathOf("instant", "apkL-base.apk")
    ensures v.apkSets[1].apkDescriptions[0].path == PathOf("instant", "apkL-feature.apk")
    ensures v.apkSets[2].apkDescriptions[0].path == PathOf("instant", "apkL-other.apk")
  {
    CreateVariant(
      VariantSdkTargeting(SdkVersionFrom(21), {DefaultSdkVersion()}),
      [ CreateInstantApkSet("base", DefaultApkTargeting(), PathOf("instant", "apkL-base.apk")),
        CreateInstantApkSet("feature", DefaultApkTargeting(), PathOf("instant", "apkL-feature.apk")),
        CreateInstantApkSet("other", DefaultApkTargeting(), PathOf("instant", "apkL-other.apk")) ])
  }

  /** One split module: a master APK and a non-master x86 split. */
  function CreateSplitVariant(): (v: Variant)
    ensures v.targeting == VariantSdkTargeting(SdkVersionFrom(21), {})
    ensures |v.apkSets| == 1 && v.apkSets[0].moduleName == "base"
    ensures |v.apkSets[0].apkDescriptions| == 2
    ensures IsApkSetOf(v.apkSets[0], SplitApkMetadata)
    ensures var d := v.apkSets[0].apkDescriptions[0];
      d.isMasterSplit && d.targeting == DefaultApkTargeting() && d.path == PathOf("splits", "apkL.apk")
    ensures var d := v.apkSets[0].apkDescriptions[1];
      !d.isMasterSplit && d.targeting == ApkAbiTargeting(X86, {}) && d.path == PathOf("splits", "apkL-x86.apk")
  {
    CreateVariant(
      VariantSdkTargeting(SdkVersionFrom(21), {}),
      [ CreateSplitApkSet(
          "base",
          [ CreateMasterApkDescription(DefaultApkTargeting(), PathOf("splits", "apkL.apk")),
            CreateApkDescription(ApkAbiTargeting(X86, {}), PathOf("splits", "apkL-x86.apk"), false) ]) ])
  }

  /** One standalone APK, with the same variant targeting as the instant fixture. */
  function CreateStandaloneVariant(): (v: Variant)
    ensures v.targeting == VariantSdkTargeting(SdkVersionFrom(21), {DefaultSdkVersion()})
    ensures |v.apkSets| == 1 && IsApkSetOf(v.apkSets[0], StandaloneApkMetadata)
    ensures |v.apkSets[0].apkDescriptions| == 1
    ensures v.apkSets[0].apkDescriptions[0].targeting == DefaultApkTargeting()
    ensures v.apkSets[0].apkDescriptions[0].path == "apkPreL.apk"
  {
    CreateVariant(
      VariantSdkTargeting(SdkVersionFrom(21), {DefaultSdkVersion()}),
      [ CreateStandaloneApkSet(DefaultApkTargeting(), "apkPreL.apk") ])
  }

  /** A build result holding the standalone, the split and the instant variant, in that order. */
  function ThreeFamilyResult(): (r: BuildApksResult)
    ensures |r.variants| == 3
    ensures r.variants[0] == CreateStandaloneVariant() && r.variants[1] == CreateSplitVariant()
      && r.variants[2] == CreateInstantVariant()
  {
    BuildApksResult([CreateStandaloneVariant(), CreateSplitVariant(), CreateInstantVariant()])
  }

  /** The instant fixture is uniformly instant. */
  lemma InstantVariantIsUniform()
    ensures IsUniform(CreateInstantVariant(), InstantApkMetadata)
  {
    UniformFromApkSets(CreateInstantVariant(), InstantApkMetadata);
  }

  /** The split fixture is uniformly split, master and x86 split alike. */
  lemma SplitVariantIsUniform()
    ensures IsUniform(CreateSplitVariant(), SplitApkMetadata)
  {
    var v := CreateSplitVariant();
    assert IsApkSetOf(v.apkSets[0], SplitApkMetadata);
    UniformFromApkSets(v, SplitApkMetadata);
  }

  /** The standalone fixture is uniformly standalone. */
  lemma StandaloneVariantIsUniform()
    ensures IsUniform(CreateStandaloneVariant(), StandaloneApkMetadata)
  {
    UniformFromApkSets(CreateStandaloneVariant(), StandaloneApkMetadata);
  }

  lemma IsInstantApkVariantTrue()
    ensures IsInstantApkVariant(CreateInstantVariant())
    ensures !IsSplitApkVariant(CreateInstantVariant())
    ensures !IsStandaloneApkVariant(CreateInstantVariant())
  {
    InstantVariantIsUniform();
    UniformVariantHasExactlyOneFamily(CreateInstantVariant(), InstantApkMetadata);
  }

  lemma IsStandaloneApkVariantTrue()
    ensures IsStandaloneApkVariant(CreateStandaloneVariant())
    ensures !IsSplitApkVariant(CreateStandaloneVariant())
    ensures !IsInstantApkVariant(CreateStandaloneVariant())
  {
    StandaloneVariantIsUniform();
    UniformVariantHasExactlyOneFamily(CreateStandaloneVariant(), StandaloneApkMetadata);
  }

  lemma IsSplitApkVariantTrue()
    ensures IsSplitApkVariant(CreateSplitVariant())
    ensures !IsStandaloneApkVariant(CreateSplitVariant())
    ensures !IsInstantApkVariant(CreateSplitVariant())
  {
    SplitVariantIsUniform();
    UniformVariantHasExactlyOneFamily(CreateSplitVariant(), SplitApkMetadata);
  }

  lemma FilterInstantApkVariant()
    ensures InstantApkVariants(ThreeFamilyResult()) == [CreateInstantVariant()]
  {
    IsInstantApkVariantTrue();
    IsStandaloneApkVariantTrue();
    IsSplitApkVariantTrue();
    FilterThree(CreateStandaloneVariant(), CreateSplitVariant(), CreateInstantVariant(), IsInstantApkVariant);
  }

  lemma FilterSplitApkVariant()
    ensures SplitApkVariants(ThreeFamilyResult()) == [CreateSplitVariant()]
  {
    IsInstantApkVariantTrue();
    IsStandaloneApkVariantTrue();
    IsSplitApkVariantTrue();
    FilterThree(CreateStandaloneVariant(), CreateSplitVariant(), CreateInstantVariant(), IsSplitApkVariant);
  }

  lemma FilterStandaloneApkVariant()
    ensures StandaloneApkVariants(ThreeFamilyResult()) == [CreateStandaloneVariant()]
  {
    IsInstantApkVariantTrue();
    IsStandaloneApkVariantTrue();
    IsSplitApkVariantTrue();
    FilterThree(CreateStandaloneVariant(), CreateSplitVariant(), CreateInstantVariant(), IsStandaloneApkVariant);
  }

  /**
   The variant targeting does not decide the family: the standalone and the
   instant fixtures have the same variant targeting yet fall in different families.
   */
  lemma VariantTargetingDoesNotDecideFamily()
    ensures CreateStandaloneVariant().targeting == CreateInstantVariant().targeting
    ensures IsStandaloneApkVariant(CreateStandaloneVariant()) && !IsStandaloneApkVariant(CreateInstantVariant())
    ensures IsInstantApkVariant(CreateInstantVariant()) && !IsInstantApkVariant(CreateStandaloneVariant())
  {
    IsInstantApkVariantTrue();
    IsStandaloneApkVariantTrue();
  }

  /** Instant apk sets, one per (module name, targeting, path) entry. */
  function InstantApkSets(modules: seq<(string, ApkTargeting, Path)>): (sets: seq<ApkSet>)
    ensures |sets| == |modules|
    ensures forall k :: 0 <= k < |sets| ==>
      sets[k].moduleName == modules[k].0 && IsApkSetOf(sets[k], InstantApkMetadata)
  {
    seq(|modules|, k requires 0 <= k < |modules| => CreateInstantApkSet(modules[k].0, modules[k].1, modules[k].2))
  }

  /**
   A variant made of any positive number of instant apk sets is an instant
   variant and nothing else: the family does not depend on the module count.
   */
  lemma InstantFamilyIndependentOfModuleCount(t: VariantTargeting, modules: seq<(string, ApkTargeting, Path)>)
    requires |modules| > 0
    ensures IsInstantApkVariant(CreateVariant(t, InstantApkSets(modules)))
    ensures !IsSplitApkVariant(CreateVariant(t, InstantApkSets(modules)))
    ensures !IsStandaloneApkVariant(CreateVariant(t, InstantApkSets(modules)))
  {
    var v := CreateVariant(t, InstantApkSets(modules));
    forall s | s in v.apkSets ensures IsApkSetOf(s, InstantApkMetadata) {
      var k :| 0 <= k < |v.apkSets| && v.apkSets[k] == s;
    }
    UniformFromApkSets(v, InstantApkMetadata);
    UniformVariantHasExactlyOneFamily(v, InstantApkMetadata);
  }
}
