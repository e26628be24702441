# Build-result classifier of bundletool, in Dafny

bundletool turns an application bundle into installable APKs. The outcome of a
build is a `BuildApksResult`: a sequence of variants, each with a variant
targeting and one apk set per module. Each apk set holds the descriptions of
its APK files: APK targeting, path and master flag. `ResultUtils` sorts these
variants into three families. Standalone variants hold one monolithic APK.
Split variants hold a master APK plus configuration splits per module.
Instant variants hold the APKs of an instant experience. `ResultUtils` offers
one predicate per family (`isStandaloneApkVariant`, `isSplitApkVariant`,
`isInstantApkVariant`). It also offers one filter per family over a build
result (`standaloneApkVariants`, `splitApkVariants`, `instantApkVariants`).

`ResultUtils.java` itself is not part of this model. Its behaviour is taken
from the assertions and fixtures of `ResultUtilsTest.java`. The three
families are built there only through different apk-set builders
(`createStandaloneApkSet`, `createSplitApkSet` with split descriptions,
`createInstantApkSet`). So the model puts the family on each description as a
metadata kind (`ApkMetadata`). A variant is of a family when some
description, in some apk set, carries that family's kind.

Files:

- `targeting.dfy` (`Targeting`): APK targeting (ABI only), SDK versions and
  variant targeting, as plain values.
- `commands.dfy` (`Commands`): the result tree and the scan over a variant's
  descriptions (`Flatten`, `AnyCarries`, `HasApkMetadata`). It also defines
  uniform variants and uniform apk sets: at least one description, and every
  description of one kind.
- `sequences.dfy` (`Sequences`): an order-keeping `Filter` and its
  properties: membership, multiplicity, and a three-way partition.
- `result_utils.dfy` (`ResultUtils`): the three predicates, the three
  filters, and the classifier's properties.
- `apks_archive_helpers.dfy` (`ApksArchiveHelpers`): the fixture builders,
  modelled by the shape their names and arguments imply.
- `result_utils_test.dfy` (`ResultUtilsTest`): the three fixtures, the
  three-variant build result, and the six test assertions as lemmas.

## Model

| member | source | states |
|---|---|---|
| `ResultUtils.IsStandaloneApkVariant` | src/test/java/com/android/tools/build/bundletool/utils/ResultUtilsTest.java:100-106 | true exactly when some description of some apk set of the variant carries standalone metadata |
| `ResultUtils.IsSplitApkVariant` | src/test/java/com/android/tools/build/bundletool/utils/ResultUtilsTest.java:109-115 | true exactly when some description of some apk set of the variant carries split metadata |
| `ResultUtils.IsInstantApkVariant` | src/test/java/com/android/tools/build/bundletool/utils/ResultUtilsTest.java:91-97 | true exactly when some description of some apk set of the variant carries instant metadata |
| `ResultUtils.StandaloneApkVariants` | src/test/java/com/android/tools/build/bundletool/utils/ResultUtilsTest.java:76-87 | a variant is in the result exactly when it is in the build result and is standalone |
| `ResultUtils.SplitApkVariants` | src/test/java/com/android/tools/build/bundletool/utils/ResultUtilsTest.java:61-72 | a variant is in the result exactly when it is in the build result and is split |
| `ResultUtils.InstantApkVariants` | src/test/java/com/android/tools/build/bundletool/utils/ResultUtilsTest.java:46-57 | a variant is in the result exactly when it is in the build result and is instant |
| `ResultUtils.FilterCounts` | src/test/java/com/android/tools/build/bundletool/utils/ResultUtilsTest.java:46-87 | each filter keeps every variant of its family as often as it occurs in the build result, and no other variant (the multiset reading of `containsExactly`) |
| `ResultUtils.UniformVariantHasExactlyOneFamily` | src/test/java/com/android/tools/build/bundletool/utils/ResultUtilsTest.java:91-115 | for a variant whose descriptions are all of one kind, exactly the predicate of that kind holds and the other two fail |
| `ResultUtils.FiltersPartitionUniformResult` | src/test/java/com/android/tools/build/bundletool/utils/ResultUtilsTest.java:46-87 | when every variant is uniform, the three filter results together are the build result's variants, each as often as it occurs, their lengths add up to the result's, and no variant is in two lists |
| `ResultUtils.FamilyDependsOnlyOnKinds` | src/test/java/com/android/tools/build/bundletool/utils/ResultUtilsTest.java:117-147 | two variants whose descriptions carry the same kinds in the same order classify alike, whatever their targeting, module names, paths and master flags |
| `ResultUtils.FamilyIgnoresVariantTargeting` | src/test/java/com/android/tools/build/bundletool/utils/ResultUtilsTest.java:142-146 | replacing a variant's targeting changes none of the three predicates |
| `ResultUtils.MixedVariantIsInTwoFamilies` | src/test/java/com/android/tools/build/bundletool/utils/ResultUtilsTest.java:91-115 | exclusivity holds only for uniform variants: a variant with a standalone and a split description is both standalone and split, and not instant |
| `ResultUtils.ExactlyOneFamilyIffUniform` | src/test/java/com/android/tools/build/bundletool/utils/ResultUtilsTest.java:91-115 | exactly one of the three predicates holds of a variant if and only if it has at least one description and all its descriptions are of one kind |
| `ApksArchiveHelpers.CreateApkDescription` | src/test/java/com/android/tools/build/bundletool/utils/ResultUtilsTest.java:136-139 | the description is a split APK with the given targeting, path and master flag |
| `ApksArchiveHelpers.CreateMasterApkDescription` | src/test/java/com/android/tools/build/bundletool/utils/ResultUtilsTest.java:135 | the description is a split APK marked as master, with the given targeting and path |
| `ApksArchiveHelpers.CreateStandaloneApkSet` | src/test/java/com/android/tools/build/bundletool/utils/ResultUtilsTest.java:146 | the apk set holds exactly one description, a standalone one, with the given targeting and path |
| `ApksArchiveHelpers.CreateInstantApkSet` | src/test/java/com/android/tools/build/bundletool/utils/ResultUtilsTest.java:123-125 | the apk set is named after its module and holds exactly one description, an instant one, with the given targeting and path |
| `ResultUtilsTest.InstantVariantIsUniform` | src/test/java/com/android/tools/build/bundletool/utils/ResultUtilsTest.java:117-126 | every description of the three-module instant fixture is instant |
| `ResultUtilsTest.SplitVariantIsUniform` | src/test/java/com/android/tools/build/bundletool/utils/ResultUtilsTest.java:128-140 | the master and the non-master x86 description of the split fixture are both split descriptions |
| `ResultUtilsTest.StandaloneVariantIsUniform` | src/test/java/com/android/tools/build/bundletool/utils/ResultUtilsTest.java:142-147 | the standalone fixture's single description is standalone |
| `ResultUtilsTest.IsInstantApkVariantTrue` | src/test/java/com/android/tools/build/bundletool/utils/ResultUtilsTest.java:90-97 | the instant fixture is instant, not split and not standalone |
| `ResultUtilsTest.IsStandaloneApkVariantTrue` | src/test/java/com/android/tools/build/bundletool/utils/ResultUtilsTest.java:99-106 | the standalone fixture is standalone, not split and not instant |
| `ResultUtilsTest.IsSplitApkVariantTrue` | src/test/java/com/android/tools/build/bundletool/utils/ResultUtilsTest.java:108-115 | the split fixture, master plus x86 split, is split, not standalone and not instant |
| `ResultUtilsTest.FilterInstantApkVariant` | src/test/java/com/android/tools/build/bundletool/utils/ResultUtilsTest.java:45-58 | the instant filter over [standalone, split, instant] yields exactly the instant fixture |
| `ResultUtilsTest.FilterSplitApkVariant` | src/test/java/com/android/tools/build/bundletool/utils/ResultUtilsTest.java:60-73 | the split filter over the same result yields exactly the split fixture |
| `ResultUtilsTest.FilterStandaloneApkVariant` | src/test/java/com/android/tools/build/bundletool/utils/ResultUtilsTest.java:75-88 | the standalone filter over the same result yields exactly the standalone fixture |
| `ResultUtilsTest.VariantTargetingDoesNotDecideFamily` | src/test/java/com/android/tools/build/bundletool/utils/ResultUtilsTest.java:121-146 | the standalone and instant fixtures have equal variant targeting, yet one is only standalone and the other only instant |
| `ResultUtilsTest.InstantApkSets` | src/test/java/com/android/tools/build/bundletool/utils/ResultUtilsTest.java:123-125 | one instant apk set per module entry, named after that module |
| `ResultUtilsTest.InstantFamilyIndependentOfModuleCount` | src/test/java/com/android/tools/build/bundletool/utils/ResultUtilsTest.java:117-126 | a variant made of any positive number of instant apk sets is instant and neither split nor standalone |
| `ApksArchiveHelpers.PathOf` | src/test/java/com/android/tools/build/bundletool/utils/ResultUtilsTest.java:118-120 | the path is the directory, a `/`, then the file name |
| `ApksArchiveHelpers.CreateSplitApkSet` | src/test/java/com/android/tools/build/bundletool/utils/ResultUtilsTest.java:133-139 | the apk set carries the given module name and exactly the given descriptions, in order |
| `ApksArchiveHelpers.CreateVariant` | src/test/java/com/android/tools/build/bundletool/utils/ResultUtilsTest.java:121-125 | the variant carries the given targeting and exactly the given apk sets, in order |
| `ResultUtilsTest.CreateInstantVariant` | src/test/java/com/android/tools/build/bundletool/utils/ResultUtilsTest.java:117-126 | SDK targeting from 21 with the default SDK version as alternative; three instant apk sets base, feature and other, each one description with default targeting and its instant/apkL-<module>.apk path |
| `ResultUtilsTest.CreateSplitVariant` | src/test/java/com/android/tools/build/bundletool/utils/ResultUtilsTest.java:128-140 | SDK targeting from 21 with no alternatives; one split apk set "base" holding the master splits/apkL.apk with default targeting, then the non-master x86 split splits/apkL-x86.apk |
| `ResultUtilsTest.CreateStandaloneVariant` | src/test/java/com/android/tools/build/bundletool/utils/ResultUtilsTest.java:142-147 | the same variant targeting as the instant fixture; one standalone apk set with one description, default targeting, path apkPreL.apk |
| `ResultUtilsTest.ThreeFamilyResult` | src/test/java/com/android/tools/build/bundletool/utils/ResultUtilsTest.java:50-55 | the build result holds the standalone, the split and the instant fixture, in that order |

## Left out

- `ResultUtils.java` is not part of this model. The predicates take the "some description carries the kind" reading. The tests cannot tell it apart from an "every description carries the kind" reading, and the two agree on uniform variants, which are the only ones the tests build.
- `ResultUtils.UniformVariantHasExactlyOneFamily`, `ResultUtils.FiltersPartitionUniformResult`: exclusivity and the partition are proved for uniform variants only, because `ResultUtils.java` is not part of this model and the tests build only uniform variants. Exactly one family holds if and only if the variant is uniform (`ResultUtils.ExactlyOneFamilyIffUniform`). A mixed variant is in two families (`ResultUtils.MixedVariantIsInTwoFamilies`), and a variant with no descriptions is in none.
- A shape-based reading (apk-set count, master-only APKs, markers on the variant targeting) is not used: the standalone and instant fixtures share their variant targeting yet classify differently. The tests are consistent with the family coming from the apk-set builders, and the model takes the family from the kind each builder puts on its descriptions.
- `ApksArchiveHelpers` and `TargetingUtils` are not part of this model. Their builders are modelled only by the shape their names imply. The module name of a standalone apk set ("base") and the master flag of standalone and instant descriptions (set) are placeholders. The classifier ignores both (`FamilyDependsOnlyOnKinds`).
- Protocol-buffer messages and builders are plain datatypes and sequences. `BuildApksResult.newBuilder().addVariant(...)` becomes a sequence display.
- `java.nio.file.Paths.get(dir, file)` is modelled as the string `dir + "/" + file`. Platform separators are not modelled.
- APK targeting covers only the ABI dimension, and variant targeting only the SDK dimension: the ones the fixtures use. Their contents are never inspected.
- The filters keep the original order, but the tests do not promise order (`containsExactly` ignores it). So the model proves membership and multiplicity, not order.
- Split generation, variant assembly, device matching and archive I/O have no source here and are not modelled.
