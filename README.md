# csvinflater: inventory and patch builder

`hack/csvinflater` of the Piraeus operator writes a kustomize patch for the
operator's ClusterServiceVersion (CSV), the package format of the Operator
Framework. It renders the manifests of the two bundles the operator deploys,
"cluster" and "satellite". From the ids of the rendered resources it derives:

- the native Kubernetes APIs the operator depends on (`GetNativeAPI`): every
  distinct group/version/kind outside the operator's own group `piraeus.io`,
  sorted by group, then version, then kind;
- for each owned custom resource definition, the resources it manages
  (`GetApiResources`): one (kind, version) entry per distinct
  group/version/kind, sorted by version and then kind.

It then emits a fixed JSON Patch (RFC 6902) of seven operations:

- one `add` of the native API list;
- for each of the three owned CRDs, a `test` of the CRD's kind (section 4.6
  of RFC 6902) directly followed by an `add` of its resource list (section
  4.1).

The CRDs are `LinstorCluster`, `LinstorSatelliteConfiguration` and
`LinstorSatellite`. `LinstorSatelliteConfiguration` is declared to manage a
single `LinstorSatellite` entry; this deliberate approximation is kept as it
is.

Files:

- `go_strings.dfy` (module `GoStrings`): Go's `<` on strings. It is a
  lexicographic order, and the file proves it a strict total order.
- `go_sort.dfy` (module `GoSort`): Go's `sort.Slice` as an in-place sort of
  an array. It promises only what Go documents: the result is sorted and is
  a permutation of the input. The file also proves that a sorted sequence is
  determined by its elements.
- `inventory.dfy` (module `Inventory`): the id types, the two builder
  methods, the predicates `IsApiResourceList` and
  `IsNativeApiList` that the methods are proved against, and the lemmas
  about those predicates.
- `patch.dfy` (module `CsvPatch`): the patch literal of `main` as the
  function `Patch`, and the method `AssemblePatch`, which runs the builders
  on the two bundles and fills in the literal.

Deduplication in `GetApiResources` is keyed on the full group/version/kind
string (hack/csvinflater/csvinflater.go:126), not on the (kind, version)
pair it emits. So two ids that differ only in their group give two equal
entries. The model keeps this behaviour: see `Inventory.IsApiResourceList`
and `Inventory.GroupOnlyDifferenceDuplicates`.

## Model

| member | source | states |
|---|---|---|
| `GoStrings.LessIsFirstDifference` | hack/csvinflater/csvinflater.go:138-143 | Go's `<` on strings, as used by both sort functions, holds exactly when the strings agree up to some position, after which the left one ends or has the smaller character |
| `GoStrings.LessIsStrictTotalOrder` | hack/csvinflater/csvinflater.go:166-174 | string `<` is irreflexive, transitive and total on distinct strings, so the comparisons in the sort functions are well behaved |
| `GoSort.SortSlice` | hack/csvinflater/csvinflater.go:138-143 | `sort.Slice` with a strict weak `less`: afterwards no later element is `less` than an earlier one, and the array holds the same multiset of elements |
| `GoSort.SortedUnique` | hack/csvinflater/csvinflater.go:166-174 | two sorted sequences with the same multiset of elements are equal when any two different elements are ordered, so sorting leaves no choice to the unspecified algorithm or to map iteration order |
| `GoSort.SortedDistinctIsStrictlyIncreasing` | hack/csvinflater/csvinflater.go:166-174 | a sorted sequence without repeated elements, under an order that relates any two different elements, is strictly increasing |
| `Inventory.ApiLessIsStrictWeakOrder` | hack/csvinflater/csvinflater.go:138-143 | the version-then-kind comparison is a strict weak order (as `sort.Slice` requires), and it orders any two different entries with equal names |
| `Inventory.GvkLessIsStrictTotalOrder` | hack/csvinflater/csvinflater.go:166-174 | the group-then-version-then-kind comparison is a strict weak order and orders any two different triples |
| `Inventory.GetApiResources` | hack/csvinflater/csvinflater.go:123-146 | the result is sorted by version and then kind; each (kind, version) entry with an empty name occurs once per distinct input triple that has that kind and version; the length is the number of distinct input triples |
| `Inventory.GetNativeAPI` | hack/csvinflater/csvinflater.go:148-177 | the result holds each distinct input triple outside the operator's group exactly once and nothing else, and it is strictly increasing by group, version, kind |
| `Inventory.ApiResourceListContents` | hack/csvinflater/csvinflater.go:124-136 | every input id's (kind, version) appears in the resource list; every entry of the list comes from some input id and has an empty name |
| `Inventory.NativeApiListContents` | hack/csvinflater/csvinflater.go:149-164 | a triple is in the native API list if and only if some input id has it and its group is not the operator's; no entry has the operator's group; the length is the number of such distinct triples; the list is strictly increasing |
| `Inventory.EmptyInput` | hack/csvinflater/csvinflater.go:129-156 | no ids give an empty resource list and an empty native API list |
| `Inventory.ApiResourceListDeterministic` | hack/csvinflater/csvinflater.go:124-143 | the resource list depends only on the set of distinct input triples, not on the order or repetition of the ids |
| `Inventory.NativeApiListDeterministic` | hack/csvinflater/csvinflater.go:149-174 | the native API list depends only on the set of distinct native triples, not on the order or repetition of the ids |
| `Inventory.GroupOnlyDifferenceDuplicates` | hack/csvinflater/csvinflater.go:125-135 | two ids that differ only in their group give the same (kind, version) entry twice, because deduplication is keyed on the whole triple |
| `Inventory.NativeGvksOfConcat` | hack/csvinflater/csvinflater.go:51 | the native triples of the concatenated cluster and satellite ids are the union of each bundle's native triples |
| `Inventory.PodsAndServiceExample` | hack/csvinflater/csvinflater.go:123-146 | two Pods and a Service, all core v1, give exactly the Pod entry followed by the Service entry |
| `Inventory.OwnGroupExample` | hack/csvinflater/csvinflater.go:148-164 | a `piraeus.io` LinstorCluster and a core ConfigMap give exactly the ConfigMap triple |
| `CsvPatch.OwnedCrdPath` | hack/csvinflater/csvinflater.go:55-60 | every owned CRD path lies below `/spec/customresourcedefinitions/owned/` |
| `CsvPatch.Patch` | hack/csvinflater/csvinflater.go:47-87 | the patch has seven operations; the first adds the native list at `/spec/nativeAPIs`; for k = 0, 1, 2, operation 2k+1 tests that the owned CRD at index k has kind `LinstorCluster`, `LinstorSatelliteConfiguration`, `LinstorSatellite` respectively, and operation 2k+2 adds to that same CRD's resources; every `test` is directly followed by the `add` to the same owned CRD's resources, and every such `add` is directly preceded by its `test`; each of the four `add` paths occurs once and carries the native list, the cluster list, the single `LinstorSatellite` entry and the satellite list respectively |
| `CsvPatch.PatchIsGuarded` | hack/csvinflater/csvinflater.go:53-86 | the operations and paths of the literal make each `test` guard the `add` after it, and no two `add` operations share a path |
| `CsvPatch.AssemblePatch` | hack/csvinflater/csvinflater.go:47-87 | the printed patch is the literal filled with the native API list of the cluster and satellite ids together and the resource list of each bundle; it has seven guarded operations and the `LinstorSatelliteConfiguration` slot carries the single `LinstorSatellite` entry of the operator's version |
| `CsvPatch.PatchDeterministic` | hack/csvinflater/csvinflater.go:47-87 | any two patches built for the same bundles are equal, whatever the map iteration order and the sort algorithm |
| `CsvPatch.NativeApisOfBundles` | hack/csvinflater/csvinflater.go:48-52 | the native API `add` depends on the bundles only through the union of their native triples, so moving ids between the cluster and the satellite bundle leaves it unchanged |
| `CsvPatch.EmptyBundlesPatch` | hack/csvinflater/csvinflater.go:47-87 | with no ids in either bundle the patch is still the seven-operation literal, with empty native and bundle lists |

## Left out

- Gvk string key: kustomize's `Gvk.String` and `resid.GvkFromString` (hack/csvinflater/csvinflater.go:126, 131, 152, 158) are foreign code. The model treats the string key as injective with an exact round trip, so it keys the deduplication set on the triple itself. Kustomize's real string format is not reproduced.
- `piraeusv1.GroupVersion` comes from the operator's `api/v1` package, which is not part of this model. Its group and version are the constants `Inventory.OwnGroup` (`piraeus.io`) and `Inventory.OwnVersion` (`v1`). No proof depends on their values, except the two example lemmas.
- `metav1.GroupVersionKind` and `resid.Gvk` have the same three fields, so both are modelled by one datatype `Inventory.Gvk`.
- Go compares strings byte-wise on their UTF-8 encoding. The model compares code points, which orders well-formed text the same way. Invalid UTF-8 is not modelled.
- `GoSort.SortSlice` is an insertion sort, not Go's unstable pattern-defeating quicksort. Only the documented outcome of `sort.Slice` is relied on: sorted, and a permutation of the input. Go's random map iteration order is modelled by an arbitrary choice of the next element.
- `CombineAllEmbededResources` (hack/csvinflater/csvinflater.go:98-121): reading the embedded file system and running kustomize is I/O and foreign code. The ids it yields are the inputs of `AssemblePatch`.
- YAML serialisation of the patch, the generated-file header line and printing to standard output (hack/csvinflater/csvinflater.go:89-95) are I/O.
- The `log.Fatalf` exits in `main` (hack/csvinflater/csvinflater.go:38-45, 90-92) end the process on foreign failures. The core itself has no error paths.
- The `test` operations are only emitted. Applying the patch to a CSV, and the rejection a failed `test` causes, happen in the consuming patch engine and are not modelled.
