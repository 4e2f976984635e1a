/**
 The JSON Patch (RFC 6902) that csvinflater prints for the operator's
 ClusterServiceVersion: one `add` of the native API list, then, for each of
 the three owned custom resource definitions, a `test` of its kind (section
 4.6 of RFC 6902) directly followed by an `add` of its resource list
 (section 4.1). The `test` guards make the whole patch fail if the CRDs are
 not at the expected positions.
 */
module CsvPatch {
  import opened Inventory

  /** `utils.Add` and `utils.Test`. */
  datatype Op = Add | Test

  /** The payloads the patch carries: the native API list, a CRD's resource
      list, or the literal a `test` compares with. */
  datatype Value =
    | NativeApis(gvks: seq<Gvk>)
    | Resources(entries: seq<ApiResource>)
    | Literal(text: string)

  /** `utils.JsonPatch`. */
  datatype JsonPatch = JsonPatch(op: Op, path: string, value: Value)

  const NativeApisPath: string := "/spec/nativeAPIs"
  const OwnedCrdsPath: string := "/spec/customresourcedefinitions/owned/"

  /** The kinds of the owned CRDs, in the order the CSV lists them. */
  const OwnedKinds: seq<string> := ["LinstorCluster", "LinstorSatelliteConfiguration", "LinstorSatellite"]

  /** The resource list `LinstorSatelliteConfiguration` is declared to
      manage: a single `LinstorSatellite` of the operator's version. */
  const SatelliteConfigurationResources: seq<ApiResource> := [ApiResource("LinstorSatellite", OwnVersion, "")]

  /** The path of `field` in the owned CRD at position `index`. */
  function OwnedCrdPath(index: nat, field: string): (path: string)
    requires index < 10
    ensures OwnedCrdsPath <= path
  {
    OwnedCrdsPath + [(48 + index) as char] + "/" + field
  }

  /** `p[i]` tests the kind of an owned CRD and `p[i + 1]` adds to the
      resource list of that same CRD. */
  ghost predicate GuardAt(p: seq<JsonPatch>, i: nat)
  {
    && i + 1 < |p|
    && p[i].op == Test
    && p[i + 1].op == Add
    && exists k :: 0 <= k < 10 && p[i].path == OwnedCrdPath(k, "kind") && p[i + 1].path == OwnedCrdPath(k, "resources")
  }

  /** Every `test` guards the `add` right after it, and every `add` below
      the owned CRDs is guarded by the `test` right before it. */
  ghost predicate Guarded(p: seq<JsonPatch>)
  {
    && (forall i :: 0 <= i < |p| && p[i].op == Test ==> GuardAt(p, i))
    && (forall i :: 0 <= i < |p| && p[i].op == Add && OwnedCrdsPath <= p[i].path ==> 0 < i && GuardAt(p, i - 1))
  }

  /** `p` has exactly one `add` at `path`, and it carries `v`. */
  ghost predicate AddsOnce(p: seq<JsonPatch>, path: string, v: Value)
  {
    exists i :: 0 <= i < |p| && p[i] == JsonPatch(Add, path, v)
      && forall j :: 0 <= j < |p| && j != i && p[j].op == Add ==> p[j].path != path
  }

  lemma AddsOnceAt(p: seq<JsonPatch>, i: nat)
    requires i < |p| && p[i].op == Add
    requires forall j, k :: 0 <= j < k < |p| && p[j].op == Add && p[k].op == Add ==> p[j].path != p[k].path
    ensures AddsOnce(p, p[i].path, p[i].value)
  {
    forall j | 0 <= j < |p| && j != i && p[j].op == Add
      ensures p[j].path != p[i].path
    {
      if j < i {
        assert p[j].path != p[i].path;
      } else {
        assert p[i].path != p[j].path;
      }
    }
  }

  /** The patch literal of `main`, given the three inventories. */
  function Patch(nativeApis: seq<Gvk>, clusterResources: seq<ApiResource>, satelliteResources: seq<ApiResource>): (p: seq<JsonPatch>)
    ensures |p| == 7
    ensures Guarded(p)
    ensures p[0] == JsonPatch(Add, NativeApisPath, NativeApis(nativeApis))
    ensures forall k :: 0 <= k < 3 ==>
      && p[2 * k + 1] == JsonPatch(Test, OwnedCrdPath(k, "kind"), Literal(OwnedKinds[k]))
      && p[2 * k + 2].op == Add && p[2 * k + 2].path == OwnedCrdPath(k, "resources")
    ensures AddsOnce(p, NativeApisPath, NativeApis(nativeApis))
    ensures AddsOnce(p, OwnedCrdPath(0, "resources"), Resources(clusterResources))
    ensures AddsOnce(p, OwnedCrdPath(1, "resources"), Resources(SatelliteConfigurationResources))
    ensures AddsOnce(p, OwnedCrdPath(2, "resources"), Resources(satelliteResources))
  {
    var p := [
      JsonPatch(Add, NativeApisPath, NativeApis(nativeApis)),
      JsonPatch(Test, OwnedCrdPath(0, "kind"), Literal(OwnedKinds[0])),
      JsonPatch(Add, OwnedCrdPath(0, "resources"), Resources(clusterResources)),
      JsonPatch(Test, OwnedCrdPath(1, "kind"), Literal(OwnedKinds[1])),
      JsonPatch(Add, OwnedCrdPath(1, "resources"), Resources(SatelliteConfigurationResources)),
      JsonPatch(Test, OwnedCrdPath(2, "kind"), Literal(OwnedKinds[2])),
      JsonPatch(Add, OwnedCrdPath(2, "resources"), Resources(satelliteResources))
    ];
    PatchIsGuarded(p);
    TestsCompareOwnedKinds(p);
    AddsOnceAt(p, 0);
    AddsOnceAt(p, 2);
    AddsOnceAt(p, 4);
    AddsOnceAt(p, 6);
    p
  }

  /** The three test/add pairs of the literal, one per owned CRD, in the
      order of `OwnedKinds`. */
  lemma TestsCompareOwnedKinds(p: seq<JsonPatch>)
    requires |p| == 7
    requires p[1] == JsonPatch(Test, OwnedCrdPath(0, "kind"), Literal(OwnedKinds[0]))
    requires p[3] == JsonPatch(Test, OwnedCrdPath(1, "kind"), Literal(OwnedKinds[1]))
    requires p[5] == JsonPatch(Test, OwnedCrdPath(2, "kind"), Literal(OwnedKinds[2]))
    requires p[2].op == Add && p[2].path == OwnedCrdPath(0, "resources")
    requires p[4].op == Add && p[4].path == OwnedCrdPath(1, "resources")
    requires p[6].op == Add && p[6].path == OwnedCrdPath(2, "resources")
    ensures forall k :: 0 <= k < 3 ==>
      && p[2 * k + 1] == JsonPatch(Test, OwnedCrdPath(k, "kind"), Literal(OwnedKinds[k]))
      && p[2 * k + 2].op == Add && p[2 * k + 2].path == OwnedCrdPath(k, "resources")
  {
    forall k | 0 <= k < 3
      ensures p[2 * k + 1] == JsonPatch(Test, OwnedCrdPath(k, "kind"), Literal(OwnedKinds[k]))
      ensures p[2 * k + 2].op == Add && p[2 * k + 2].path == OwnedCrdPath(k, "resources")
    {
      assert k == 0 || k == 1 || k == 2;
    }
  }

  /** The digit in an owned CRD path tells the CRDs apart. */
  lemma OwnedCrdPathDigit(index: nat, field: string)
    requires index < 10
    ensures |OwnedCrdPath(index, field)| > |OwnedCrdsPath|
    ensures OwnedCrdPath(index, field)[|OwnedCrdsPath|] == (48 + index) as char
  {
  }

  /** The operations and paths of the patch literal make it `Guarded`, and
      its four `add` paths are pairwise different. */
  lemma PatchIsGuarded(p: seq<JsonPatch>)
    requires |p| == 7
    requires p[0].op == Add && p[0].path == NativeApisPath
    requires p[1].op == Test && p[1].path == OwnedCrdPath(0, "kind")
    requires p[2].op == Add && p[2].path == OwnedCrdPath(0, "resources")
    requires p[3].op == Test && p[3].path == OwnedCrdPath(1, "kind")
    requires p[4].op == Add && p[4].path == OwnedCrdPath(1, "resources")
    requires p[5].op == Test && p[5].path == OwnedCrdPath(2, "kind")
    requires p[6].op == Add && p[6].path == OwnedCrdPath(2, "resources")
    ensures Guarded(p)
    ensures forall i, j :: 0 <= i < j < |p| && p[i].op == Add && p[j].op == Add ==> p[i].path != p[j].path
  {
    assert !(OwnedCrdsPath <= NativeApisPath);
    assert GuardAt(p, 1) && GuardAt(p, 3) && GuardAt(p, 5);
    OwnedCrdPathDigit(0, "resources");
    OwnedCrdPathDigit(1, "resources");
    OwnedCrdPathDigit(2, "resources");
    forall i | 0 <= i < |p|
      ensures p[i].op == Test ==> GuardAt(p, i)
      ensures p[i].op == Add && OwnedCrdsPath <= p[i].path ==> 0 < i && GuardAt(p, i - 1)
    {
      assert i == 0 || i == 1 || i == 2 || i == 3 || i == 4 || i == 5 || i == 6;
    }
  }

  /** What `main` prints for the ids of the cluster and satellite bundles:
      the patch literal over the native API list of both bundles together
      and the resource list of each bundle. */
  ghost predicate IsPatchFor(patch: seq<JsonPatch>, clusterIds: seq<ResId>, satelliteIds: seq<ResId>)
  {
    && |patch| == 7
    && patch[0].value.NativeApis? && patch[2].value.Resources? && patch[6].value.Resources?
    && patch == Patch(patch[0].value.gvks, patch[2].value.entries, patch[6].value.entries)
    && IsNativeApiList(patch[0].value.gvks, clusterIds + satelliteIds)
    && IsApiResourceList(patch[2].value.entries, clusterIds)
    && IsApiResourceList(patch[6].value.entries, satelliteIds)
  }

  method AssemblePatch(clusterIds: seq<ResId>, satelliteIds: seq<ResId>) returns (patch: seq<JsonPatch>)
    ensures IsPatchFor(patch, clusterIds, satelliteIds)
    ensures |patch| == 7 && Guarded(patch)
    ensures patch[0].value.NativeApis? && IsNativeApiList(patch[0].value.gvks, clusterIds + satelliteIds)
    ensures patch[2].value.Resources? && IsApiResourceList(patch[2].value.entries, clusterIds)
    ensures patch[4].value == Resources(SatelliteConfigurationResources)
    ensures patch[6].value.Resources? && IsApiResourceList(patch[6].value.entries, satelliteIds)
  {
    var nativeApis := GetNativeAPI(clusterIds + satelliteIds);
    var clusterResources := GetApiResources(clusterIds);
    var satelliteResources := GetApiResources(satelliteIds);
    patch := Patch(nativeApis, clusterResources, satelliteResources);
  }

  /** The printed patch is determined by the two bundles' distinct triples. */
  lemma PatchDeterministic(clusterIds: seq<ResId>, satelliteIds: seq<ResId>, p1: seq<JsonPatch>, p2: seq<JsonPatch>)
    requires IsPatchFor(p1, clusterIds, satelliteIds) && IsPatchFor(p2, clusterIds, satelliteIds)
    ensures p1 == p2
  {
    var ids := clusterIds + satelliteIds;
    NativeApiListDeterministic(ids, ids, p1[0].value.gvks, p2[0].value.gvks);
    ApiResourceListDeterministic(clusterIds, clusterIds, p1[2].value.entries, p2[2].value.entries);
    ApiResourceListDeterministic(satelliteIds, satelliteIds, p1[6].value.entries, p2[6].value.entries);
  }

  /** The native API list of the patch depends on each bundle only through
      its own native triples: bundles with the same native triples between
      them give the same first operation, however the ids are split between
      the cluster and the satellite bundle. */
  lemma NativeApisOfBundles(c1: seq<ResId>, s1: seq<ResId>, c2: seq<ResId>, s2: seq<ResId>, p1: seq<JsonPatch>, p2: seq<JsonPatch>)
    requires IsPatchFor(p1, c1, s1) && IsPatchFor(p2, c2, s2)
    requires NativeGvks(c1) + NativeGvks(s1) == NativeGvks(c2) + NativeGvks(s2)
    ensures p1[0] == p2[0]
  {
    NativeGvksOfConcat(c1, s1);
    NativeGvksOfConcat(c2, s2);
    NativeApiListDeterministic(c1 + s1, c2 + s2, p1[0].value.gvks, p2[0].value.gvks);
  }

  /** With no ids at all the patch still has its seven operations; the
      three computed lists are empty. */
  lemma EmptyBundlesPatch(patch: seq<JsonPatch>)
    requires IsPatchFor(patch, [], [])
    ensures patch == Patch([], [], [])
  {
    var none: seq<ResId> := [];
    assert none + none == none;
    EmptyInput(patch[2].value.entries, patch[0].value.gvks);
    EmptyInput(patch[6].value.entries, patch[0].value.gvks);
  }
}
