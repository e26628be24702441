/**
 Targeting values of the build result: the per-APK targeting (here only the ABI
 dimension, the one the classifier's fixtures use) and the per-variant SDK
 targeting. The classifier never inspects them; they are kept as plain values
 so that fixtures can be built and compared.
 */
module Targeting {

  datatype Option<T> = None | Some(value: T)

  /** The ABI aliases an APK can target. */
  datatype AbiAlias = Armeabi | ArmeabiV7a | Arm64V8a | X86 | X86_64 | Mips | Mips64

  /** One ABI value together with the sibling values it was split against. */
  datatype AbiTargeting = AbiTargeting(value: AbiAlias, alternatives: set<AbiAlias>)

  /** Per-APK targeting; a dimension that is absent means "matches any value". */
  datatype ApkTargeting = ApkTargeting(abi: Option<AbiTargeting>)

  /** A platform version bound; the default instance has no minimum set. */
  datatype SdkVersion = SdkVersion(min: Option<nat>)

  /** Per-variant targeting: the SDK range of the variant and its alternatives. */
  datatype VariantTargeting = VariantTargeting(sdkVersion: SdkVersion, sdkAlternatives: set<SdkVersion>)

  /** The default (empty) APK targeting: no dimension is targeted. */
  function DefaultApkTargeting(): ApkTargeting
  {
    ApkTargeting(None)
  }

  /** The default SDK version message: no minimum set. */
  function DefaultSdkVersion(): SdkVersion
  {
    SdkVersion(None)
  }

  /** An SDK version whose minimum is `level`. */
  function SdkVersionFrom(level: nat): SdkVersion
  {
    SdkVersion(Some(level))
  }

  /** APK targeting on the ABI dimension only. */
  function ApkAbiTargeting(abi: AbiAlias, alternatives: set<AbiAlias>): ApkTargeting
  {
    ApkTargeting(Some(AbiTargeting(abi, alternatives)))
  }

  /** Variant targeting on the SDK dimension, with the given alternatives. */
  function VariantSdkTargeting(sdk: SdkVersion, alternatives: set<SdkVersion>): VariantTargeting
  {
    VariantTargeting(sdk, alternatives)
  }
}
