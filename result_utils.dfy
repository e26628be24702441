/**
 The build-result classifier: three single-variant predicates, one per family,
 and three filters over a build result. A variant belongs to a family when one
 of its apk descriptions, in any of its apk sets, carries that family's
 metadata; the variant targeting, the module names, the paths and the master
 flags play no part.
 */
module ResultUtils {
  import opened Targeting
  import opened Commands
  import opened Sequences

  /** The variant holds a standalone APK. */
  function IsStandaloneApkVariant(v: Variant): (r: bool)
    ensures r <==> exists i, j ::
      (0 <= i < |v.apkSets| && 0 <= j < |v.apkSets[i].apkDescriptions|
       && v.apkSets[i].apkDescriptions[j].metadata == StandaloneApkMetadata)
  {
    HasApkMetadataAt(v, StandaloneApkMetadata);
    HasApkMetadata(v, StandaloneApkMetadata)
  }

  /** The variant holds split APKs. */
  function IsSplitApkVariant(v: Variant): (r: bool)
    ensures r <==> exists i, j ::
      (0 <= i < |v.apkSets| && 0 <= j < |v.apkSets[i].apkDescriptions|
       && v.apkSets[i].apkDescriptions[j].metadata == SplitApkMetadata)
  {
    HasApkMetadataAt(v, SplitApkMetadata);
    HasApkMetadata(v, SplitApkMetadata)
  }

  /** The variant holds instant APKs. */
  function IsInstantApkVariant(v: Variant): (r: bool)
    ensures r <==> exists i, j ::
      (0 <= i < |v.apkSets| && 0 <= j < |v.apkSets[i].apkDescriptions|
       && v.apkSets[i].apkDescriptions[j].metadata == InstantApkMetadata)
  {
    HasApkMetadataAt(v, InstantApkMetadata);
    HasApkMetadata(v, InstantApkMetadata)
  }

  /** The standalone variants of a build result, in their original order. */
  function StandaloneApkVariants(result: BuildApksResult): (r: seq<Variant>)
    ensures forall v :: v in r <==> v in result.variants && IsStandaloneApkVariant(v)
  {
    FilterMembers(result.variants, IsStandaloneApkVariant);
    Filter(result.variants, IsStandaloneApkVariant)
  }

  /** The split variants of a build result, in their original order. */
  function SplitApkVariants(result: BuildApksResult): (r: seq<Variant>)
    ensures forall v :: v in r <==> v in result.variants && IsSplitApkVariant(v)
  {
    FilterMembers(result.variants, IsSplitApkVariant);
    Filter(result.variants, IsSplitApkVariant)
  }

  /** The instant variants of a build result, in their original order. */
  function InstantApkVariants(result: BuildApksResult): (r: seq<Variant>)
    ensures forall v :: v in r <==> v in result.variants && IsInstantApkVariant(v)
  {
    FilterMembers(result.variants, IsInstantApkVariant);
    Filter(result.variants, IsInstantApkVariant)
  }

  /**
   Each filter returns the variants of its family as often as they occur in the
   build result, and no other variant.
   */
  lemma FilterCounts(result: BuildApksResult, v: Variant)
    ensures multiset(StandaloneApkVariants(result))[v]
      == if IsStandaloneApkVariant(v) then multiset(result.variants)[v] else 0
    ensures multiset(SplitApkVariants(result))[v]
      == if IsSplitApkVariant(v) then multiset(result.variants)[v] else 0
    ensures multiset(InstantApkVariants(result))[v]
      == if IsInstantApkVariant(v) then multiset(result.variants)[v] else 0
  {
    FilterCount(result.variants, IsStandaloneApkVariant, v);
    FilterCount(result.variants, IsSplitApkVariant, v);
    FilterCount(result.variants, IsInstantApkVariant, v);
  }

  /** A uniform variant carries its own metadata and no other. */
  lemma UniformHasOnlyItsMetadata(v: Variant, m: ApkMetadata)
    requires IsUniform(v, m)
    ensures forall m' :: HasApkMetadata(v, m') <==> m' == m
  {
    forall m' ensures HasApkMetadata(v, m') <==> m' == m {
      AnyCarriesMembers(Descriptions(v), m');
      assert Descriptions(v)[0] in Descriptions(v);
    }
  }

  /** A uniform variant satisfies exactly the predicate of its own family. */
  lemma UniformVariantHasExactlyOneFamily(v: Variant, m: ApkMetadata)
    requires IsUniform(v, m)
    ensures IsStandaloneApkVariant(v) <==> m == StandaloneApkMetadata
    ensures IsSplitApkVariant(v) <==> m == SplitApkMetadata
    ensures IsInstantApkVariant(v) <==> m == InstantApkMetadata
  {
    UniformHasOnlyItsMetadata(v, m);
  }

  /**
   Exactly one of the three predicates holds of a variant if and only if the
   variant is uniform: it has at least one description, all of one kind.
   */
  lemma ExactlyOneFamilyIffUniform(v: Variant)
    ensures ExactlyOne(IsStandaloneApkVariant(v), IsSplitApkVariant(v), IsInstantApkVariant(v))
      <==> exists m :: IsUniform(v, m)
  {
    var ds := Descriptions(v);
    AnyCarriesMembers(ds, StandaloneApkMetadata);
    AnyCarriesMembers(ds, SplitApkMetadata);
    AnyCarriesMembers(ds, InstantApkMetadata);
    if ExactlyOne(IsStandaloneApkVariant(v), IsSplitApkVariant(v), IsInstantApkVariant(v)) {
      var m := if IsStandaloneApkVariant(v) then StandaloneApkMetadata
        else if IsSplitApkVariant(v) then SplitApkMetadata else InstantApkMetadata;
      assert HasApkMetadata(v, m);
      assert IsUniform(v, m);
    }
    if exists m :: IsUniform(v, m) {
      var m :| IsUniform(v, m);
      UniformVariantHasExactlyOneFamily(v, m);
    }
  }

  /**
   On a build result whose variants are all uniform, the three filters split
   the variants between them: every variant lands in exactly one of the three
   lists, as often as it occurs.
   */
  lemma FiltersPartitionUniformResult(result: BuildApksResult)
    requires forall v :: v in result.variants ==> exists m :: IsUniform(v, m)
    ensures multiset(StandaloneApkVariants(result)) + multiset(SplitApkVariants(result))
      + multiset(InstantApkVariants(result)) == multiset(result.variants)
    ensures |StandaloneApkVariants(result)| + |SplitApkVariants(result)|
      + |InstantApkVariants(result)| == |result.variants|
    ensures forall v :: !(v in StandaloneApkVariants(result) && v in SplitApkVariants(result))
    ensures forall v :: !(v in StandaloneApkVariants(result) && v in InstantApkVariants(result))
    ensures forall v :: !(v in SplitApkVariants(result) && v in InstantApkVariants(result))
  {
    var vs := result.variants;
    forall v | v in vs
      ensures ExactlyOne(IsStandaloneApkVariant(v), IsSplitApkVariant(v), IsInstantApkVariant(v))
    {
      var m :| IsUniform(v, m);
      UniformVariantHasExactlyOneFamily(v, m);
    }
    assert forall i :: 0 <= i < |vs| ==> vs[i] in vs;
    FilterPartition(vs, IsStandaloneApkVariant, IsSplitApkVariant, IsInstantApkVariant);
    var a, b, c := StandaloneApkVariants(result), SplitApkVariants(result), InstantApkVariants(result);
    assert |multiset(a) + multiset(b) + multiset(c)| == |a| + |b| + |c|;
  }

  /** The metadata kinds of a sequence of descriptions, in order. */
  function Kinds(ds: seq<ApkDescription>): seq<ApkMetadata>
  {
    seq(|ds|, k requires 0 <= k < |ds| => ds[k].metadata)
  }

  /** The scan for a kind sees only the kinds, never targeting, paths or master flags. */
  lemma {:induction false} AnyCarriesSeesOnlyKinds(ds: seq<ApkDescription>, es: seq<ApkDescription>, m: ApkMetadata)
    requires Kinds(ds) == Kinds(es)
    ensures AnyCarries(ds, m) == AnyCarries(es, m)
  {
    if |ds| > 0 {
      assert ds[0].metadata == Kinds(ds)[0] == Kinds(es)[0] == es[0].metadata;
      assert Kinds(ds[1..]) == Kinds(ds)[1..];
      assert Kinds(es[1..]) == Kinds(es)[1..];
      AnyCarriesSeesOnlyKinds(ds[1..], es[1..], m);
    }
  }

  /**
   Two variants whose descriptions carry the same kinds, in the same order,
   classify alike, whatever their variant targeting, module names, APK
   targeting, paths and master flags.
   */
  lemma FamilyDependsOnlyOnKinds(v: Variant, w: Variant)
    requires Kinds(Descriptions(v)) == Kinds(Descriptions(w))
    ensures IsStandaloneApkVariant(v) == IsStandaloneApkVariant(w)
    ensures IsSplitApkVariant(v) == IsSplitApkVariant(w)
    ensures IsInstantApkVariant(v) == IsInstantApkVariant(w)
  {
    AnyCarriesSeesOnlyKinds(Descriptions(v), Descriptions(w), StandaloneApkMetadata);
    AnyCarriesSeesOnlyKinds(Descriptions(v), Descriptions(w), SplitApkMetadata);
    AnyCarriesSeesOnlyKinds(Descriptions(v), Descriptions(w), InstantApkMetadata);
  }

  /** Replacing a variant's targeting leaves its family unchanged. */
  lemma FamilyIgnoresVariantTargeting(v: Variant, t: VariantTargeting)
    ensures IsStandaloneApkVariant(v.(targeting := t)) == IsStandaloneApkVariant(v)
    ensures IsSplitApkVariant(v.(targeting := t)) == IsSplitApkVariant(v)
    ensures IsInstantApkVariant(v.(targeting := t)) == IsInstantApkVariant(v)
  {
    FamilyDependsOnlyOnKinds(v.(targeting := t), v);
  }

  /**
   Exclusivity needs uniform variants: a variant that mixes a standalone
   description with a split one satisfies two predicates at once.
   */
  lemma MixedVariantIsInTwoFamilies(t: VariantTargeting, sa: ApkDescription, sp: ApkDescription)
    requires sa.metadata == StandaloneApkMetadata && sp.metadata == SplitApkMetadata
    ensures IsStandaloneApkVariant(Variant(t, [ApkSet("base", [sa, sp])]))
    ensures IsSplitApkVariant(Variant(t, [ApkSet("base", [sa, sp])]))
    ensures !IsInstantApkVariant(Variant(t, [ApkSet("base", [sa, sp])]))
  {
    var v := Variant(t, [ApkSet("base", [sa, sp])]);
    assert v.apkSets[0].apkDescriptions[0] == sa && v.apkSets[0].apkDescriptions[1] == sp;
  }
}
