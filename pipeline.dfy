/**
 * `Clean` (pkg/kubegc/kubegc.go:96-216) as the composition of its stages:
 * building the clients, listing the API groups, collecting orphans, sorting
 * them by weight and deleting them in that order.
 */
module Pipeline {
  import opened Wrappers
  import opened Client
  import opened KubeGC
  import opened Collector
  import opened Planner
  import opened Executor

  /** Both clients could be built from the configuration. */
  predicate Connected(server: Server)
  {
    server.dynamicInit.None? && server.discoveryInit.None?
  }

  /**
   * One run. A client that cannot be built, or a failing `ServerGroups`, ends
   * the run with that error before any list or delete. Otherwise the run
   * succeeds: `plan` is the collected orphans in ascending weight, each gets
   * exactly one delete in plan order, and the log holds the discovery errors
   * followed by one line per delete.
   */
  method Clean(gc: Gc, server: Server, dryRun: bool)
    returns (err: Option<string>, lists: seq<ListRequest>, deletes: seq<DeleteRequest>,
             log: seq<string>, ghost plan: seq<Orphan>)
    ensures server.dynamicInit.Some? ==>
              err == server.dynamicInit && lists == [] && deletes == [] && log == []
    ensures server.dynamicInit.None? && server.discoveryInit.Some? ==>
              err == server.discoveryInit && lists == [] && deletes == [] && log == []
    ensures Connected(server) && server.serverGroups.Failure? ==>
              err == Some(server.serverGroups.error) && lists == [] && deletes == [] && log == []
    ensures Connected(server) && server.serverGroups.Success? ==>
              var collected := GroupsCollect(gc, server, server.serverGroups.value);
              && err == None
              && lists == collected.lists
              && multiset(plan) == multiset(collected.orphans)
              && SortedByWeight(plan)
              && |deletes| == |plan|
              && |log| == |collected.log| + |plan|
              && log[..|collected.log|] == collected.log
              && forall n :: 0 <= n < |plan| ==>
                   && deletes[n] == RequestFor(plan[n], dryRun)
                   && log[|collected.log| + n] ==
                      LogLine(dryRun, plan[n], OutcomeText(server.delete(n, deletes[n])))
  {
    if server.dynamicInit.Some? {
      return server.dynamicInit, [], [], [], [];
    }
    if server.discoveryInit.Some? {
      return server.discoveryInit, [], [], [], [];
    }
    if server.serverGroups.Failure? {
      return Some(server.serverGroups.error), [], [], [], [];
    }
    var orphans, discoveryLog;
    orphans, lists, discoveryLog := CollectOrphans(gc, server, server.serverGroups.value);

    var sorted := new Orphan[|orphans|](i requires 0 <= i < |orphans| => orphans[i]);
    assert sorted[..] == orphans;
    SortByWeight(sorted);

    var lines;
    deletes, lines := DeleteAll(sorted, dryRun, server);
    log := discoveryLog + lines;
    plan := sorted[..];
    err := None;
  }
}
