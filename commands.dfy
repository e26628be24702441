/**
 The build result tree: a result holds variants, a variant holds one apk set per
 module, an apk set holds the descriptions of its APK files. Each description
 carries the metadata saying which family of APK it belongs to.
 */
module Commands {
  import opened Targeting

  /** Paths are opaque strings; nothing here inspects them. */
  type Path = string

  /** Which kind of APK a description stands for. */
  datatype ApkMetadata = StandaloneApkMetadata | SplitApkMetadata | InstantApkMetadata

  datatype ApkDescription = ApkDescription(
    targeting: ApkTargeting,
    path: Path,
    isMasterSplit: bool,
    metadata: ApkMetadata)

  datatype ApkSet = ApkSet(moduleName: string, apkDescriptions: seq<ApkDescription>)

  datatype Variant = Variant(targeting: VariantTargeting, apkSets: seq<ApkSet>)

  datatype BuildApksResult = BuildApksResult(variants: seq<Variant>)

  /** All descriptions of a sequence of apk sets, set by set (a flat map). */
  function Flatten(sets: seq<ApkSet>): seq<ApkDescription>
  {
    if |sets| == 0 then [] else sets[0].apkDescriptions + Flatten(sets[1..])
  }

  /** A description is in the flat map exactly when it is in one of the apk sets. */
  lemma {:induction false} FlattenMembers(sets: seq<ApkSet>)
    ensures forall d :: d in Flatten(sets) <==>
      exists i :: 0 <= i < |sets| && d in sets[i].apkDescriptions
  {
    if |sets| > 0 {
      FlattenMembers(sets[1..]);
      assert forall i :: 1 <= i < |sets| ==> sets[i] == sets[1..][i - 1];
    }
  }

  /** Every description of every apk set of a variant. */
  function Descriptions(v: Variant): seq<ApkDescription>
  {
    Flatten(v.apkSets)
  }

  /** Some description of `ds` carries metadata `m` (a scan that stops at the first hit). */
  function AnyCarries(ds: seq<ApkDescription>, m: ApkMetadata): bool
  {
    |ds| > 0 && (ds[0].metadata == m || AnyCarries(ds[1..], m))
  }

  lemma {:induction false} AnyCarriesMembers(ds: seq<ApkDescription>, m: ApkMetadata)
    ensures AnyCarries(ds, m) <==> exists d :: d in ds && d.metadata == m
  {
    if |ds| > 0 {
      AnyCarriesMembers(ds[1..], m);
      assert ds == [ds[0]] + ds[1..];
    }
  }

  /** Some description of the variant carries metadata `m`. */
  predicate HasApkMetadata(v: Variant, m: ApkMetadata)
  {
    AnyCarries(Descriptions(v), m)
  }

  /**
   A variant carries metadata `m` exactly when some description of some of its
   apk sets does.
   */
  lemma HasApkMetadataAt(v: Variant, m: ApkMetadata)
    ensures HasApkMetadata(v, m) <==> exists i, j ::
      (0 <= i < |v.apkSets| && 0 <= j < |v.apkSets[i].apkDescriptions|
       && v.apkSets[i].apkDescriptions[j].metadata == m)
  {
    AnyCarriesMembers(Descriptions(v), m);
    FlattenMembers(v.apkSets);
    if HasApkMetadata(v, m) {
      var d :| d in Descriptions(v) && d.metadata == m;
      var i :| 0 <= i < |v.apkSets| && d in v.apkSets[i].apkDescriptions;
      var j :| 0 <= j < |v.apkSets[i].apkDescriptions| && v.apkSets[i].apkDescriptions[j] == d;
    }
    if exists i, j ::
      (0 <= i < |v.apkSets| && 0 <= j < |v.apkSets[i].apkDescriptions|
       && v.apkSets[i].apkDescriptions[j].metadata == m)
    {
      var i, j :| 0 <= i < |v.apkSets| && 0 <= j < |v.apkSets[i].apkDescriptions|
        && v.apkSets[i].apkDescriptions[j].metadata == m;
      assert v.apkSets[i].apkDescriptions[j] in Descriptions(v);
    }
  }

  /** The apk set has at least one description, and every one carries `m`. */
  predicate IsApkSetOf(s: ApkSet, m: ApkMetadata)
  {
    && |s.apkDescriptions| > 0
    && forall d :: d in s.apkDescriptions ==> d.metadata == m
  }

  /**
   The variant is uniformly of family `m`: it has at least one description, and
   every description carries `m`.
   */
  predicate IsUniform(v: Variant, m: ApkMetadata)
  {
    && |Descriptions(v)| > 0
    && forall d :: d in Descriptions(v) ==> d.metadata == m
  }

  /**
   A variant whose apk sets are all of family `m` is uniformly of family `m`,
   whatever the number of apk sets, as long as there is at least one.
   */
  lemma UniformFromApkSets(v: Variant, m: ApkMetadata)
    requires |v.apkSets| > 0
    requires forall s :: s in v.apkSets ==> IsApkSetOf(s, m)
    ensures IsUniform(v, m)
  {
    FlattenMembers(v.apkSets);
    var s0 := v.apkSets[0];
    assert s0 in v.apkSets;
    assert s0.apkDescriptions[0] in Descriptions(v);
    forall d | d in Descriptions(v) ensures d.metadata == m {
      var i :| 0 <= i < |v.apkSets| && d in v.apkSets[i].apkDescriptions;
      assert v.apkSets[i] in v.apkSets;
    }
  }
}
