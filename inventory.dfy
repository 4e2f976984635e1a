/**
 The inventory builder of csvinflater: from the resource ids of the rendered
 manifests it computes the (kind, version) list an owned custom resource
 manages (`GetApiResources`) and the list of native Kubernetes APIs the
 operator depends on (`GetNativeAPI`).

 A kustomize id (`resid.ResId`) carries a group/version/kind triple plus the
 resource's name and namespace. Both builders deduplicate on the string form
 of the triple and decode it again; that string form is modelled by the
 triple itself, i.e. as an injective key whose decoding gives the triple
 back, so a set of triples stands for the Go map of strings.
 */
module Inventory {
  import GoStrings
  import opened GoSort

  /** `piraeusv1.GroupVersion`: the operator's own API group and version. */
  const OwnGroup: string := "piraeus.io"
  const OwnVersion: string := "v1"

  /** `resid.Gvk`, and equally `metav1.GroupVersionKind`. */
  datatype Gvk = Gvk(group: string, version: string, kind: string)

  /** `resid.ResId`: the triple and the resource's name and namespace. */
  datatype ResId = ResId(gvk: Gvk, name: string, namespace: string)

  /** `apiResource`: one entry of an owned CRD's `resources` list. */
  datatype ApiResource = ApiResource(kind: string, version: string, name: string)

  /** The entry `GetApiResources` makes of one decoded triple: its group is
      dropped and its name left empty. */
  function Entry(g: Gvk): ApiResource
  {
    ApiResource(g.kind, g.version, "")
  }

  /** The distinct triples among `rs`. */
  ghost function Gvks(rs: seq<ResId>): set<Gvk>
  {
    set r | r in rs :: r.gvk
  }

  /** The distinct triples among `rs` outside the operator's own group. */
  ghost function NativeGvks(rs: seq<ResId>): set<Gvk>
  {
    set r | r in rs && r.gvk.group != OwnGroup :: r.gvk
  }

  lemma GvksOfPrefix(rs: seq<ResId>, i: nat)
    requires i < |rs|
    ensures Gvks(rs[..i + 1]) == Gvks(rs[..i]) + {rs[i].gvk}
    ensures NativeGvks(rs[..i + 1]) == NativeGvks(rs[..i]) + if rs[i].gvk.group != OwnGroup then {rs[i].gvk} else {}
  {
    assert rs[..i + 1] == rs[..i] + [rs[i]];
  }

  /** The triples of `gvks` whose entry is `e`. */
  ghost function Sources(e: ApiResource, gvks: set<Gvk>): set<Gvk>
  {
    set g | g in gvks && Entry(g) == e
  }

  lemma SourcesOfAddition(gvks: set<Gvk>, g: Gvk)
    requires g !in gvks
    ensures forall e :: |Sources(e, gvks + {g})| == |Sources(e, gvks)| + if Entry(g) == e then 1 else 0
  {
    forall e
      ensures |Sources(e, gvks + {g})| == |Sources(e, gvks)| + if Entry(g) == e then 1 else 0
    {
      if Entry(g) == e {
        assert Sources(e, gvks + {g}) == Sources(e, gvks) + {g};
      } else {
        assert Sources(e, gvks + {g}) == Sources(e, gvks);
      }
    }
  }

  /** The `less` function `GetApiResources` sorts by: version, then kind. */
  predicate ApiLess(x: ApiResource, y: ApiResource)
  {
    if x.version == y.version then GoStrings.Less(x.kind, y.kind)
    else GoStrings.Less(x.version, y.version)
  }

  /** The `less` function `GetNativeAPI` sorts by: group, version, kind. */
  predicate GvkLess(x: Gvk, y: Gvk)
  {
    if x.group != y.group then GoStrings.Less(x.group, y.group)
    else if x.version != y.version then GoStrings.Less(x.version, y.version)
    else GoStrings.Less(x.kind, y.kind)
  }

  lemma ApiLessIsStrictWeakOrder()
    ensures StrictWeakOrder(ApiLess)
    ensures forall x: ApiResource, y: ApiResource :: x.name == y.name && x != y ==> ApiLess(x, y) || ApiLess(y, x)
  {
    GoStrings.LessIsStrictTotalOrder();
  }

  lemma GvkLessIsStrictTotalOrder()
    ensures StrictWeakOrder(GvkLess)
    ensures forall x, y :: x != y ==> GvkLess(x, y) || GvkLess(y, x)
  {
    GoStrings.LessIsStrictTotalOrder();
  }

  /** What `GetApiResources(rs)` returns: sorted by `ApiLess`, and holding
      each (kind, version) entry once per distinct triple that produces it,
      so two triples that differ only in their group give two equal
      entries. */
  ghost predicate IsApiResourceList(result: seq<ApiResource>, rs: seq<ResId>)
  {
    && SortedBy(result, ApiLess)
    && forall e :: multiset(result)[e] == |Sources(e, Gvks(rs))|
  }

  /** What `GetNativeAPI(rs)` returns: sorted by `GvkLess`, and holding each
      distinct triple outside the operator's own group exactly once. */
  ghost predicate IsNativeApiList(result: seq<Gvk>, rs: seq<ResId>)
  {
    && SortedBy(result, GvkLess)
    && forall g :: multiset(result)[g] == if g in NativeGvks(rs) then 1 else 0
  }

  method GetApiResources(rs: seq<ResId>) returns (result: seq<ApiResource>)
    ensures IsApiResourceList(result, rs)
    ensures |result| == |Gvks(rs)|
  {
    var allGvk: set<Gvk> := {};
    for i := 0 to |rs|
      invariant allGvk == Gvks(rs[..i])
    {
      GvksOfPrefix(rs, i);
      allGvk := allGvk + {rs[i].gvk};
    }
    assert rs[..|rs|] == rs;

    // Go ranges over the map in an unspecified order.
    var unsorted: seq<ApiResource> := [];
    var pending := allGvk;
    ghost var visited: set<Gvk> := {};
    while pending != {}
      invariant visited !! pending && visited + pending == allGvk
      invariant |unsorted| == |visited|
      invariant forall e :: multiset(unsorted)[e] == |Sources(e, visited)|
      decreases pending
    {
      var g :| g in pending;
      SourcesOfAddition(visited, g);
      unsorted := unsorted + [Entry(g)];
      visited := visited + {g};
      pending := pending - {g};
    }

    assert visited == Gvks(rs);
    var a := new ApiResource[|unsorted|](i requires 0 <= i < |unsorted| => unsorted[i]);
    assert a[..] == unsorted;
    ApiLessIsStrictWeakOrder();
    SortSlice(a, ApiLess);
    result := a[..];
    assert multiset(result) == multiset(unsorted);
    assert |result| == |multiset(result)| && |unsorted| == |multiset(unsorted)|;
  }

  method GetNativeAPI(rs: seq<ResId>) returns (result: seq<Gvk>)
    ensures IsNativeApiList(result, rs)
    ensures StrictlyIncreasing(result, GvkLess)
  {
    var allGvk: set<Gvk> := {};
    for i := 0 to |rs|
      invariant allGvk == NativeGvks(rs[..i])
    {
      GvksOfPrefix(rs, i);
      if rs[i].gvk.group != OwnGroup {
        allGvk := allGvk + {rs[i].gvk};
      }
    }
    assert rs[..|rs|] == rs;

    // Go ranges over the map in an unspecified order.
    var unsorted: seq<Gvk> := [];
    var pending := allGvk;
    ghost var visited: set<Gvk> := {};
    while pending != {}
      invariant visited !! pending && visited + pending == allGvk
      invariant forall g :: multiset(unsorted)[g] == if g in visited then 1 else 0
      decreases pending
    {
      var g :| g in pending;
      unsorted := unsorted + [g];
      visited := visited + {g};
      pending := pending - {g};
    }

    var a := new Gvk[|unsorted|](i requires 0 <= i < |unsorted| => unsorted[i]);
    assert a[..] == unsorted;
    GvkLessIsStrictTotalOrder();
    SortSlice(a, GvkLess);
    result := a[..];
    SortedDistinctIsStrictlyIncreasing(result, GvkLess);
  }

  /** Every id contributes its (kind, version) entry, every entry comes from
      some id, and no entry carries a name. */
  lemma ApiResourceListContents(result: seq<ApiResource>, rs: seq<ResId>)
    requires IsApiResourceList(result, rs)
    ensures forall r :: r in rs ==> Entry(r.gvk) in result
    ensures forall e :: e in result ==> e.name == "" && exists r :: r in rs && Entry(r.gvk) == e
  {
    forall r | r in rs
      ensures Entry(r.gvk) in result
    {
      assert r.gvk in Sources(Entry(r.gvk), Gvks(rs));
      assert multiset(result)[Entry(r.gvk)] > 0;
    }
    forall e | e in result
      ensures e.name == "" && exists r :: r in rs && Entry(r.gvk) == e
    {
      assert multiset(result)[e] > 0;
      var g :| g in Sources(e, Gvks(rs));
      var r :| r in rs && r.gvk == g;
    }
  }

  /** The native API list holds exactly the input triples outside the
      operator's group, once each and in strictly increasing order. */
  lemma NativeApiListContents(result: seq<Gvk>, rs: seq<ResId>)
    requires IsNativeApiList(result, rs)
    ensures forall g :: g in result <==> exists r :: r in rs && r.gvk == g && g.group != OwnGroup
    ensures forall g :: g in result ==> g.group != OwnGroup
    ensures |result| == |NativeGvks(rs)|
    ensures StrictlyIncreasing(result, GvkLess)
  {
    forall g
      ensures g in result <==> g in NativeGvks(rs)
    {
      assert g in result <==> multiset(result)[g] > 0;
    }
    assert multiset(result) == multiset(NativeGvks(rs));
    assert |result| == |multiset(result)|;
    GvkLessIsStrictTotalOrder();
    SortedDistinctIsStrictlyIncreasing(result, GvkLess);
  }

  /** An empty id sequence gives two empty lists. */
  lemma EmptyInput(apis: seq<ApiResource>, natives: seq<Gvk>)
    requires IsApiResourceList(apis, [])
    requires IsNativeApiList(natives, [])
    ensures apis == [] && natives == []
  {
    assert multiset(apis) == multiset{} by {
      forall e
        ensures multiset(apis)[e] == 0
      {
        assert Sources(e, Gvks([])) == {};
      }
    }
    assert multiset(natives) == multiset{};
    assert |apis| == |multiset(apis)| && |natives| == |multiset(natives)|;
  }

  /** The resource list depends only on the set of distinct triples, not on
      the order or the repetitions of the ids. */
  lemma ApiResourceListDeterministic(rs1: seq<ResId>, rs2: seq<ResId>, r1: seq<ApiResource>, r2: seq<ApiResource>)
    requires Gvks(rs1) == Gvks(rs2)
    requires IsApiResourceList(r1, rs1) && IsApiResourceList(r2, rs2)
    ensures r1 == r2
  {
    assert multiset(r1) == multiset(r2) by {
      forall e
        ensures multiset(r1)[e] == multiset(r2)[e]
      {
      }
    }
    ApiResourceListContents(r1, rs1);
    ApiLessIsStrictWeakOrder();
    SortedUnique(r1, r2, ApiLess);
  }

  /** The native API list depends only on the set of distinct native
      triples, not on the order or the repetitions of the ids. */
  lemma NativeApiListDeterministic(rs1: seq<ResId>, rs2: seq<ResId>, r1: seq<Gvk>, r2: seq<Gvk>)
    requires NativeGvks(rs1) == NativeGvks(rs2)
    requires IsNativeApiList(r1, rs1) && IsNativeApiList(r2, rs2)
    ensures r1 == r2
  {
    assert multiset(r1) == multiset(r2) by {
      forall g
        ensures multiset(r1)[g] == multiset(r2)[g]
      {
      }
    }
    GvkLessIsStrictTotalOrder();
    SortedUnique(r1, r2, GvkLess);
  }

  /** Deduplication is keyed on the whole triple: two ids that differ only
      in their group yield the same (kind, version) entry twice. */
  lemma GroupOnlyDifferenceDuplicates(x: ResId, y: ResId, result: seq<ApiResource>)
    requires x.gvk.group != y.gvk.group
    requires x.gvk.version == y.gvk.version && x.gvk.kind == y.gvk.kind
    requires IsApiResourceList(result, [x, y])
    ensures result == [Entry(x.gvk), Entry(x.gvk)]
  {
    var e := Entry(x.gvk);
    assert Gvks([x, y]) == {x.gvk, y.gvk};
    assert Sources(e, Gvks([x, y])) == {x.gvk, y.gvk};
    assert multiset(result) == multiset{e, e} by {
      forall d
        ensures multiset(result)[d] == multiset{e, e}[d]
      {
        if d != e {
          assert Sources(d, Gvks([x, y])) == {};
        }
      }
    }
    assert |result| == 2;
    assert result[0] in multiset(result) && result[1] in multiset(result);
  }

  /** The native API list of two bundles together is built from the union
      of the bundles' native triples. */
  lemma NativeGvksOfConcat(rs1: seq<ResId>, rs2: seq<ResId>)
    ensures NativeGvks(rs1 + rs2) == NativeGvks(rs1) + NativeGvks(rs2)
  {
  }

  /** Two Pods and a Service of the core group give one Pod entry followed
      by one Service entry. */
  lemma PodsAndServiceExample(result: seq<ApiResource>)
    requires IsApiResourceList(result, [
      ResId(Gvk("", "v1", "Pod"), "a", "default"),
      ResId(Gvk("", "v1", "Pod"), "b", "default"),
      ResId(Gvk("", "v1", "Service"), "c", "default")])
    ensures result == [ApiResource("Pod", "v1", ""), ApiResource("Service", "v1", "")]
  {
    var rs := [
      ResId(Gvk("", "v1", "Pod"), "a", "default"),
      ResId(Gvk("", "v1", "Pod"), "b", "default"),
      ResId(Gvk("", "v1", "Service"), "c", "default")];
    var expected := [ApiResource("Pod", "v1", ""), ApiResource("Service", "v1", "")];
    PodsAndServiceCounts(rs, expected);
    assert !GoStrings.Less("Service", "Pod");
    ApiResourceListDeterministic(rs, rs, result, expected);
  }

  lemma PodsAndServiceCounts(rs: seq<ResId>, expected: seq<ApiResource>)
    requires rs == [
      ResId(Gvk("", "v1", "Pod"), "a", "default"),
      ResId(Gvk("", "v1", "Pod"), "b", "default"),
      ResId(Gvk("", "v1", "Service"), "c", "default")]
    requires expected == [ApiResource("Pod", "v1", ""), ApiResource("Service", "v1", "")]
    ensures forall e :: multiset(expected)[e] == |Sources(e, Gvks(rs))|
  {
    var pod, service := Gvk("", "v1", "Pod"), Gvk("", "v1", "Service");
    assert Gvks(rs) == {pod, service};
    forall e
      ensures multiset(expected)[e] == |Sources(e, {pod, service})|
    {
      if e == Entry(pod) {
        assert Sources(e, {pod, service}) == {pod};
      } else if e == Entry(service) {
        assert Sources(e, {pod, service}) == {service};
      } else {
        assert Sources(e, {pod, service}) == {};
      }
    }
  }

  /** Only the ConfigMap remains once the operator's own LinstorCluster is
      excluded. */
  lemma OwnGroupExample(result: seq<Gvk>)
    requires IsNativeApiList(result, [
      ResId(Gvk(OwnGroup, "v1", "LinstorCluster"), "c", ""),
      ResId(Gvk("", "v1", "ConfigMap"), "m", "default")])
    ensures result == [Gvk("", "v1", "ConfigMap")]
  {
    var rs := [
      ResId(Gvk(OwnGroup, "v1", "LinstorCluster"), "c", ""),
      ResId(Gvk("", "v1", "ConfigMap"), "m", "default")];
    assert NativeGvks(rs) == {Gvk("", "v1", "ConfigMap")};
    NativeApiListDeterministic(rs, rs, result, [Gvk("", "v1", "ConfigMap")]);
  }
}
