/**
 * Orphan collection, the first half of `Clean`: for every API group, discover
 * the resources of its preferred version; list every resource that supports
 * "delete"; keep the listed objects that have no owner and pass the
 * annotation filter.
 */
module Collector {
  import opened Wrappers
  import opened Labels
  import opened Client
  import opened KubeGC

  /** What collection produces: orphans, the list calls it made and the lines it logged. */
  datatype Collection = Collection(orphans: seq<Orphan>, lists: seq<ListRequest>, log: seq<string>)

  const NoCollection := Collection([], [], [])

  function Concat(a: Collection, b: Collection): Collection
  {
    Collection(a.orphans + b.orphans, a.lists + b.lists, a.log + b.log)
  }

  /** Only resources whose verbs include "delete" are listed. */
  predicate Deletable(r: ApiResource)
  {
    "delete" in r.verbs
  }

  /** The list call for resource `r` of group version `gv`. */
  function ListFor(gc: Gc, gv: string, r: ApiResource): ListRequest
  {
    ListRequest(gv, r.name, gc.namespace, gc.selector)
  }

  /** An object is collected when it has no owner and, if a filter is set, carries the filtered annotation with exactly the filter value. */
  predicate Keep(gc: Gc, x: Instance)
  {
    && |x.owners| == 0
    && (gc.filter.name != [] ==>
          gc.filter.name in x.annotations && x.annotations[gc.filter.name] == gc.filter.value)
  }

  function ToOrphan(gv: string, r: ApiResource, x: Instance): Orphan
  {
    Orphan(gv, r.kind, r.name, x.namespace, x.name)
  }

  /** The orphans among the listed objects `items` of resource `r`, in list order. */
  function ItemsOrphans(gc: Gc, gv: string, r: ApiResource, items: seq<Instance>): seq<Orphan>
  {
    if items == [] then []
    else
      var x := items[|items| - 1];
      ItemsOrphans(gc, gv, r, items[..|items| - 1]) + (if Keep(gc, x) then [ToOrphan(gv, r, x)] else [])
  }

  /** What one resource contributes: nothing unless deletable; its list call; its orphans if the list succeeds. */
  function ResourceStep(gc: Gc, server: Server, gv: string, r: ApiResource): Collection
  {
    if !Deletable(r) then NoCollection
    else
      var req := ListFor(gc, gv, r);
      match server.list(req)
      case Failure(_) => Collection([], [req], [])
      case Success(items) => Collection(ItemsOrphans(gc, gv, r, items), [req], [])
  }

  function ResourcesCollect(gc: Gc, server: Server, gv: string, rs: seq<ApiResource>): Collection
  {
    if rs == [] then NoCollection
    else Concat(ResourcesCollect(gc, server, gv, rs[..|rs| - 1]), ResourceStep(gc, server, gv, rs[|rs| - 1]))
  }

  /** What one group contributes: its discovery error is logged, otherwise its resources are collected. */
  function GroupStep(gc: Gc, server: Server, g: Group): Collection
  {
    match server.resourcesFor(g.preferredVersion)
    case Failure(e) => Collection([], [], [e])
    case Success(rs) => ResourcesCollect(gc, server, g.preferredVersion, rs)
  }

  function GroupsCollect(gc: Gc, server: Server, groups: seq<Group>): Collection
  {
    if groups == [] then NoCollection
    else Concat(GroupsCollect(gc, server, groups[..|groups| - 1]), GroupStep(gc, server, groups[|groups| - 1]))
  }

  /**
   * The innermost loop of `Clean` (pkg/kubegc/kubegc.go:146-166): appends to
   * `orphans` every listed object that has no owner and passes the filter.
   */
  method AppendOrphans(gc: Gc, gv: string, r: ApiResource, items: seq<Instance>, orphans: seq<Orphan>)
    returns (result: seq<Orphan>)
    ensures result == orphans + ItemsOrphans(gc, gv, r, items)
  {
    result := orphans;
    for k := 0 to |items|
      invariant result == orphans + ItemsOrphans(gc, gv, r, items[..k])
    {
      assert items[..k + 1][..k] == items[..k];
      var x := items[k];
      if |x.owners| > 0 {
        continue;
      }
      if gc.filter.name != [] {
        if gc.filter.name !in x.annotations || x.annotations[gc.filter.name] != gc.filter.value {
          continue;
        }
      }
      result := result + [Orphan(gv, r.kind, r.name, x.namespace, x.name)];
    }
    assert items[..|items|] == items;
  }

  lemma ResourcesCollectStep(gc: Gc, server: Server, gv: string, rs: seq<ApiResource>, j: nat)
    requires j < |rs|
    ensures ResourcesCollect(gc, server, gv, rs[..j + 1]) ==
            Concat(ResourcesCollect(gc, server, gv, rs[..j]), ResourceStep(gc, server, gv, rs[j]))
  {
    assert rs[..j + 1][..j] == rs[..j];
  }

  lemma GroupsCollectStep(gc: Gc, server: Server, groups: seq<Group>, i: nat)
    requires i < |groups|
    ensures GroupsCollect(gc, server, groups[..i + 1]) ==
            Concat(GroupsCollect(gc, server, groups[..i]), GroupStep(gc, server, groups[i]))
  {
    assert groups[..i + 1][..i] == groups[..i];
  }

  /**
   * The loop over the resources of one group version (pkg/kubegc/kubegc.go:121-167):
   * lists every resource that supports "delete" and appends the orphans found.
   */
  method AppendResources(gc: Gc, server: Server, gv: string, resources: seq<ApiResource>,
                         orphans: seq<Orphan>, lists: seq<ListRequest>)
    returns (orphans': seq<Orphan>, lists': seq<ListRequest>)
    ensures orphans' == orphans + ResourcesCollect(gc, server, gv, resources).orphans
    ensures lists' == lists + ResourcesCollect(gc, server, gv, resources).lists
  {
    orphans', lists' := orphans, lists;
    for j := 0 to |resources|
      invariant orphans' == orphans + ResourcesCollect(gc, server, gv, resources[..j]).orphans
      invariant lists' == lists + ResourcesCollect(gc, server, gv, resources[..j]).lists
    {
      ResourcesCollectStep(gc, server, gv, resources, j);
      var r := resources[j];
      if "delete" !in r.verbs {
        assert ResourceStep(gc, server, gv, r) == NoCollection;
        continue;
      }
      var req := ListRequest(gv, r.name, gc.namespace, gc.selector);
      lists' := lists' + [req];
      var listed := server.list(req);
      if listed.Failure? {
        assert ResourceStep(gc, server, gv, r) == Collection([], [req], []);
        continue;
      }
      assert ResourceStep(gc, server, gv, r) == Collection(ItemsOrphans(gc, gv, r, listed.value), [req], []);
      orphans' := AppendOrphans(gc, gv, r, listed.value, orphans');
    }
    assert resources[..|resources|] == resources;
  }

  /** The nested discovery and listing loops of `Clean` (pkg/kubegc/kubegc.go:112-168). */
  method CollectOrphans(gc: Gc, server: Server, groups: seq<Group>)
    returns (orphans: seq<Orphan>, lists: seq<ListRequest>, log: seq<string>)
    ensures Collection(orphans, lists, log) == GroupsCollect(gc, server, groups)
  {
    orphans, lists, log := [], [], [];
    for i := 0 to |groups|
      invariant Collection(orphans, lists, log) == GroupsCollect(gc, server, groups[..i])
    {
      GroupsCollectStep(gc, server, groups, i);
      var gv := groups[i].preferredVersion;
      var discovered := server.resourcesFor(gv);
      if discovered.Failure? {
        log := log + [discovered.error];
        continue;
      }
      ResourcesLogEmpty(gc, server, gv, discovered.value);
      orphans, lists := AppendResources(gc, server, gv, discovered.value, orphans, lists);
    }
    assert groups[..|groups|] == groups;
  }

  /** An orphan of a list answer comes from exactly one kind of object: one without owners that passes the filter. */
  lemma {:induction false} ItemsOrphansIff(gc: Gc, gv: string, r: ApiResource, items: seq<Instance>, o: Orphan)
    ensures o in ItemsOrphans(gc, gv, r, items) <==>
              exists k :: 0 <= k < |items| && Keep(gc, items[k]) && o == ToOrphan(gv, r, items[k])
  {
    if items != [] {
      var init := items[..|items| - 1];
      ItemsOrphansIff(gc, gv, r, init, o);
      if o in ItemsOrphans(gc, gv, r, items) && o !in ItemsOrphans(gc, gv, r, init) {
        assert Keep(gc, items[|items| - 1]) && o == ToOrphan(gv, r, items[|items| - 1]);
      }
      if exists k :: 0 <= k < |items| && Keep(gc, items[k]) && o == ToOrphan(gv, r, items[k]) {
        var k :| 0 <= k < |items| && Keep(gc, items[k]) && o == ToOrphan(gv, r, items[k]);
        if k < |init| {
          assert init[k] == items[k];
        }
      }
    }
  }

  /** The list answer a deletable resource gets, for use in the statements below. */
  function Listed(gc: Gc, server: Server, gv: string, r: ApiResource): Result<seq<Instance>, string>
  {
    server.list(ListFor(gc, gv, r))
  }

  /** The orphans of a group's resources are those of its deletable resources whose list call succeeded. */
  lemma {:induction false} ResourcesOrphansIff(gc: Gc, server: Server, gv: string, rs: seq<ApiResource>, o: Orphan)
    ensures o in ResourcesCollect(gc, server, gv, rs).orphans <==>
              exists j :: 0 <= j < |rs| && Deletable(rs[j]) && Listed(gc, server, gv, rs[j]).Success? &&
                          o in ItemsOrphans(gc, gv, rs[j], Listed(gc, server, gv, rs[j]).value)
  {
    if rs != [] {
      var init := rs[..|rs| - 1];
      ResourcesOrphansIff(gc, server, gv, init, o);
      if exists j :: 0 <= j < |rs| && Deletable(rs[j]) && Listed(gc, server, gv, rs[j]).Success? &&
                     o in ItemsOrphans(gc, gv, rs[j], Listed(gc, server, gv, rs[j]).value) {
        var j :| 0 <= j < |rs| && Deletable(rs[j]) && Listed(gc, server, gv, rs[j]).Success? &&
                 o in ItemsOrphans(gc, gv, rs[j], Listed(gc, server, gv, rs[j]).value);
        if j < |init| {
          assert init[j] == rs[j];
        }
      }
    }
  }

  /** A list call is made for exactly the deletable resources of a discovered group, with the collector's scope and selector. */
  lemma {:induction false} ResourcesListsIff(gc: Gc, server: Server, gv: string, rs: seq<ApiResource>, l: ListRequest)
    ensures l in ResourcesCollect(gc, server, gv, rs).lists <==>
              exists j :: 0 <= j < |rs| && Deletable(rs[j]) && l == ListFor(gc, gv, rs[j])
  {
    if rs != [] {
      var init := rs[..|rs| - 1];
      ResourcesListsIff(gc, server, gv, init, l);
      if exists j :: 0 <= j < |rs| && Deletable(rs[j]) && l == ListFor(gc, gv, rs[j]) {
        var j :| 0 <= j < |rs| && Deletable(rs[j]) && l == ListFor(gc, gv, rs[j]);
        if j < |init| {
          assert init[j] == rs[j];
        }
      }
    }
  }

  /** Discovered resources of a group, for use in the statements below. */
  function Discovered(server: Server, g: Group): Result<seq<ApiResource>, string>
  {
    server.resourcesFor(g.preferredVersion)
  }

  /** The orphans of a run are those of the groups whose discovery succeeded. */
  lemma {:induction false} GroupsOrphansIff(gc: Gc, server: Server, groups: seq<Group>, o: Orphan)
    ensures o in GroupsCollect(gc, server, groups).orphans <==>
              exists i :: 0 <= i < |groups| && Discovered(server, groups[i]).Success? &&
                          o in ResourcesCollect(gc, server, groups[i].preferredVersion,
                                                Discovered(server, groups[i]).value).orphans
  {
    if groups != [] {
      var init := groups[..|groups| - 1];
      GroupsOrphansIff(gc, server, init, o);
      if exists i :: 0 <= i < |groups| && Discovered(server, groups[i]).Success? &&
                     o in ResourcesCollect(gc, server, groups[i].preferredVersion,
                                           Discovered(server, groups[i]).value).orphans {
        var i :| 0 <= i < |groups| && Discovered(server, groups[i]).Success? &&
                 o in ResourcesCollect(gc, server, groups[i].preferredVersion,
                                       Discovered(server, groups[i]).value).orphans;
        if i < |init| {
          assert init[i] == groups[i];
        }
      }
    }
  }

  /** The list calls of a run are those of the groups whose discovery succeeded. */
  lemma {:induction false} GroupsListsIff(gc: Gc, server: Server, groups: seq<Group>, l: ListRequest)
    ensures l in GroupsCollect(gc, server, groups).lists <==>
              exists i :: 0 <= i < |groups| && Discovered(server, groups[i]).Success? &&
                          l in ResourcesCollect(gc, server, groups[i].preferredVersion,
                                                Discovered(server, groups[i]).value).lists
  {
    if groups != [] {
      var init := groups[..|groups| - 1];
      GroupsListsIff(gc, server, init, l);
      if exists i :: 0 <= i < |groups| && Discovered(server, groups[i]).Success? &&
                     l in ResourcesCollect(gc, server, groups[i].preferredVersion,
                                           Discovered(server, groups[i]).value).lists {
        var i :| 0 <= i < |groups| && Discovered(server, groups[i]).Success? &&
                 l in ResourcesCollect(gc, server, groups[i].preferredVersion,
                                       Discovered(server, groups[i]).value).lists;
        if i < |init| {
          assert init[i] == groups[i];
        }
      }
    }
  }

  /** Collection logs one line per group whose discovery failed: that failure's text, in group order. */
  lemma {:induction false} GroupsLogIsDiscoveryErrors(gc: Gc, server: Server, groups: seq<Group>)
    ensures GroupsCollect(gc, server, groups).log == DiscoveryErrors(server, groups)
  {
    if groups != [] {
      GroupsLogIsDiscoveryErrors(gc, server, groups[..|groups| - 1]);
      var g := groups[|groups| - 1];
      if Discovered(server, g).Success? {
        ResourcesLogEmpty(gc, server, g.preferredVersion, Discovered(server, g).value);
      }
    }
  }

  /** The texts of the failed discovery calls, in group order. */
  function DiscoveryErrors(server: Server, groups: seq<Group>): seq<string>
  {
    if groups == [] then []
    else
      var g := groups[|groups| - 1];
      DiscoveryErrors(server, groups[..|groups| - 1]) +
      (if Discovered(server, g).Failure? then [Discovered(server, g).error] else [])
  }

  /** Listing never logs: a failed list call is skipped silently. */
  lemma {:induction false} ResourcesLogEmpty(gc: Gc, server: Server, gv: string, rs: seq<ApiResource>)
    ensures ResourcesCollect(gc, server, gv, rs).log == []
  {
    if rs != [] {
      ResourcesLogEmpty(gc, server, gv, rs[..|rs| - 1]);
    }
  }

  /** Without a filter name the annotations are never consulted. */
  lemma {:induction false} AnnotationsIgnoredWithoutFilter(
    gc: Gc, gv: string, r: ApiResource, items: seq<Instance>, others: seq<Instance>)
    requires gc.filter.name == []
    requires |items| == |others|
    requires forall k :: 0 <= k < |items| ==>
               others[k] == items[k].(annotations := others[k].annotations)
    ensures ItemsOrphans(gc, gv, r, items) == ItemsOrphans(gc, gv, r, others)
  {
    if items != [] {
      AnnotationsIgnoredWithoutFilter(gc, gv, r, items[..|items| - 1], others[..|others| - 1]);
    }
  }

  /**
   * With filter `keep=true`, an ownerless object annotated `keep=true` IS
   * collected for deletion, and one annotated otherwise, or not at all, is not.
   */
  lemma KeepFilterSelectsMatching(gc: Gc, gv: string, r: ApiResource, x: Instance)
    requires gc.filter == AnnotationFilter("keep", "true") && x.owners == []
    ensures ItemsOrphans(gc, gv, r, [x]) ==
              if "keep" in x.annotations && x.annotations["keep"] == "true"
              then [ToOrphan(gv, r, x)] else []
  {
    assert [x][..0] == [];
  }
}
