/**
 * Deletion in `Clean`: one foreground-propagation delete per planned orphan,
 * in plan order, marked as a dry run when asked, and one log line per orphan
 * reporting "OK" or the error of its delete.
 */
module Executor {
  import opened Wrappers
  import opened GoStrings
  import opened Client
  import opened KubeGC

  const DryRunPrefix: string := "(dry-run) "

  /** The options of every delete of a run. */
  function OptionsFor(dryRun: bool): (opts: DeleteOptions)
    ensures opts.propagationPolicy == DeletePropagationForeground
    ensures dryRun <==> DryRunAll in opts.dryRun
  {
    DeleteOptions(DeletePropagationForeground, if dryRun then [DryRunAll] else [])
  }

  /** The delete call for orphan `o`. */
  function RequestFor(o: Orphan, dryRun: bool): DeleteRequest
  {
    DeleteRequest(o.groupVersion, o.resource, o.namespace, o.name, OptionsFor(dryRun))
  }

  function LogPrefix(dryRun: bool): string
  {
    if dryRun then DryRunPrefix else ""
  }

  /** "OK" for a delete without error, the error's text otherwise. */
  function OutcomeText(err: Option<string>): (text: string)
    ensures err.Some? ==> text == err.value
    ensures err.None? ==> text == "OK"
  {
    match err
    case None => "OK"
    case Some(e) => e
  }

  /** The line logged for the delete of `o` with outcome `result`. */
  function LogLine(dryRun: bool, o: Orphan, result: string): string
  {
    LogHead(dryRun, o) + LogTail(o, result)
  }

  /** The part of a line before the namespace and the outcome. */
  function LogHead(dryRun: bool, o: Orphan): string
  {
    LogPrefix(dryRun) + "delete " + o.resource + "/" + o.name
  }

  /** The part of a line after its head: the namespace, if any, and the outcome. */
  function LogTail(o: Orphan, result: string): string
  {
    if o.namespace == [] then "... " + result else " in namespace " + o.namespace + "... " + result
  }

  /** A line starts with the dry-run marker exactly when the run is a dry run. */
  lemma LogLineMarksDryRun(dryRun: bool, o: Orphan, result: string)
    ensures dryRun <==> HasPrefix(LogLine(dryRun, o, result), DryRunPrefix)
  {
    var line := LogLine(dryRun, o, result);
    var rest := "delete " + o.resource + "/" + o.name + LogTail(o, result);
    assert line == LogPrefix(dryRun) + rest;
    if dryRun {
      ConcatHasPrefixSuffix(DryRunPrefix, rest);
    } else {
      assert line[0] == 'd' && DryRunPrefix[0] == '(';
    }
  }

  /** A line names the resource and the object right after the prefix and "delete ". */
  lemma LogLineNamesObject(dryRun: bool, o: Orphan, result: string)
    ensures HasPrefix(LogLine(dryRun, o, result), LogPrefix(dryRun) + "delete " + o.resource + "/" + o.name)
  {
    ConcatHasPrefixSuffix(LogHead(dryRun, o), LogTail(o, result));
  }

  /**
   * A line ends with "... " and the outcome, preceded by " in namespace <ns>"
   * when the object has a namespace; without one, nothing stands between the
   * object's name and "... ".
   */
  lemma LogLineEndsWithOutcome(dryRun: bool, o: Orphan, result: string)
    ensures HasSuffix(LogLine(dryRun, o, result), "... " + result)
    ensures o.namespace != [] ==>
              HasSuffix(LogLine(dryRun, o, result), " in namespace " + o.namespace + "... " + result)
    ensures o.namespace == [] ==> LogLine(dryRun, o, result) == LogHead(dryRun, o) + "... " + result
  {
    var tail := LogTail(o, result);
    ConcatHasPrefixSuffix(LogHead(dryRun, o), tail);
    if o.namespace != [] {
      assert tail == " in namespace " + o.namespace + ("... " + result);
      ConcatHasPrefixSuffix(" in namespace " + o.namespace, "... " + result);
      SuffixTransitive(LogLine(dryRun, o, result), tail, "... " + result);
    }
  }

  /** The outcome can be read back from a line: different outcomes give different lines. */
  lemma LogLineDeterminesOutcome(dryRun: bool, o: Orphan, r1: string, r2: string)
    requires LogLine(dryRun, o, r1) == LogLine(dryRun, o, r2)
    ensures r1 == r2
  {
    var h := LogHead(dryRun, o);
    var t := if o.namespace == [] then "... " else " in namespace " + o.namespace + "... ";
    assert LogTail(o, r1) == t + r1 && LogTail(o, r2) == t + r2;
    assert (h + (t + r1))[|h| + |t|..] == r1;
    assert (h + (t + r2))[|h| + |t|..] == r2;
  }

  /**
   * The delete loop of `Clean`: the n-th delete goes to the n-th planned
   * orphan, and the n-th line reports its outcome.
   */
  method DeleteAll(plan: array<Orphan>, dryRun: bool, server: Server)
    returns (deletes: seq<DeleteRequest>, lines: seq<string>)
    ensures |deletes| == plan.Length && |lines| == plan.Length
    ensures forall n :: 0 <= n < plan.Length ==>
              && deletes[n] == RequestFor(plan[n], dryRun)
              && lines[n] == LogLine(dryRun, plan[n], OutcomeText(server.delete(n, deletes[n])))
  {
    var logPrefix := "";
    var deleteOptions := DeleteOptions(DeletePropagationForeground, []);
    if dryRun {
      deleteOptions := deleteOptions.(dryRun := [DryRunAll]);
      logPrefix := DryRunPrefix;
    }
    deletes, lines := [], [];
    for n := 0 to plan.Length
      invariant |deletes| == n && |lines| == n
      invariant forall m :: 0 <= m < n ==>
                  && deletes[m] == RequestFor(plan[m], dryRun)
                  && lines[m] == LogLine(dryRun, plan[m], OutcomeText(server.delete(m, deletes[m])))
    {
      var o := plan[n];
      var request := DeleteRequest(o.groupVersion, o.resource, o.namespace, o.name, deleteOptions);
      var result := "OK";
      var err := server.delete(n, request);
      if err.Some? {
        result := err.value;
      }
      deletes := deletes + [request];
      var line;
      if o.namespace == [] {
        line := logPrefix + "delete " + o.resource + "/" + o.name + "... " + result;
      } else {
        line := logPrefix + "delete " + o.resource + "/" + o.name + " in namespace " + o.namespace + "... " + result;
      }
      assert line == LogHead(dryRun, o) + LogTail(o, result);
      lines := lines + [line];
    }
  }
}
