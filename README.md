# kubectl-clean garbage collector, modelled in Dafny

This project models the garbage collector behind `kubectl-clean`. The collector deletes
Kubernetes objects that match a label selector and have no owner ("orphans"). It can
also simulate the deletion as a dry run. The source is `pkg/kubegc/kubegc.go`. The
model follows the code's pipeline:

- **Configuration** (`NewKubeGC`, module `KubeGC`). The annotation filter `name=value`
  is parsed with Go's `strings.Split` and `strings.TrimSpace`, which are modelled in
  `GoStrings`. The parsed label selector is then normalised by adding an `Exists`
  requirement for every requirement's key.
- **Description** (`String`). It shows the scope, which is "Cluster wide" when no
  namespace is set, together with the selector and the filter.
- **Collection** (`Clean`, lines 112–168, module `Collector`). It walks the API groups
  and the resources of each group's preferred version. Every resource whose verbs
  include `delete` is listed with the collector's namespace and selector. Objects with
  owner references are dropped. When a filter name is set, only objects carrying that
  annotation with exactly the filter value are kept.
- **Planning** (module `Planner`). Each orphan gets a `weight` of 1 to 4 and the
  orphans are sorted in place by weight. The order within one weight is left open,
  because `sort.Slice` is not stable.
- **Execution** (module `Executor`). Each orphan gets one delete with foreground
  propagation. `DryRunAll` is added in a dry run. Each delete produces one log line:
  `<prefix>delete <resource>/<name>[ in namespace <ns>]... <OK | error>`.
- **The run** (`Pipeline.Clean`) composes these stages. A client that cannot be built,
  or a failing `ServerGroups` call, ends the run with that error before any list or
  delete. After that point the run always succeeds.

The Kubernetes clients are replaced by a `Client.Server` value. It holds the answers
of every remote call:

- the errors of building the two clients;
- the answer of `ServerGroups`;
- the answer of `ServerResourcesForGroupVersion` for each group version;
- the answer of each list call, as a function of the request;
- the error of each delete, as a function of the request and its position in the run.

`labels.Parse` is a parameter of `NewKubeGC`. Log output is returned as a sequence of
lines.

Three behaviours of the code are worth stating plainly:

- The annotation filter selects objects for deletion. An object that carries the
  filtered annotation with the filter value is deleted, and objects without it are left
  alone (`kubegc.go:151-157`). The command's flag help describes the filter as
  "preserve annotated resources" (`cmd/kubectl-clean/main.go:25`), which is the reverse.
  `Collector.KeepFilterSelectsMatching` states the code's behaviour.
- An `Exists` requirement is appended for every requirement, even when one is already
  present, and even for a `!key` requirement, whose selector then asks for the label to
  be both absent and present (`KubeGC.NotKeyAlsoGetsExists`).
- `sort.Slice` gives no guarantee about order within a weight class.

## Model

| member | source | states |
|---|---|---|
| GoStrings.Count | pkg/kubegc/kubegc.go:46-47 | the number of separators is at most the length and is zero exactly when the separator does not occur |
| GoStrings.Split | pkg/kubegc/kubegc.go:46 | `strings.Split` yields one more piece than there are separators, and no piece contains the separator |
| GoStrings.JoinSplit | pkg/kubegc/kubegc.go:46 | joining the pieces with the separator gives back the input (round trip) |
| GoStrings.SplitAbsent | pkg/kubegc/kubegc.go:46-47 | a string without the separator splits into itself alone |
| GoStrings.SplitAtSole | pkg/kubegc/kubegc.go:46-51 | with exactly one separator at index i, the two pieces are the text before and after i |
| GoStrings.IsSpace | pkg/kubegc/kubegc.go:50-51 | the characters Go's `unicode.IsSpace` treats as white space: tab to carriage return, space, U+0085, U+00A0 and the other Unicode White_Space characters |
| GoStrings.TrimLeft | pkg/kubegc/kubegc.go:50-51 | the result is a suffix of the input, what was dropped is all white space, and the result does not start with white space |
| GoStrings.TrimRight | pkg/kubegc/kubegc.go:50-51 | the result is a prefix of the input, what was dropped is all white space, and the result does not end with white space |
| GoStrings.TrimSpace | pkg/kubegc/kubegc.go:50-51 | the trimmed text is no longer than the input and neither starts nor ends with white space |
| GoStrings.TrimLeftAt | pkg/kubegc/kubegc.go:50-51 | leading trimming stops exactly at the first non-space character |
| GoStrings.TrimRightAt | pkg/kubegc/kubegc.go:50-51 | trailing trimming stops exactly after the last non-space character |
| GoStrings.TrimSpaceIsCore | pkg/kubegc/kubegc.go:50-51 | reference definition: if s is white space, then a core that neither starts nor ends with white space, then white space, TrimSpace returns exactly that core |
| GoStrings.TrimSpaceIdempotent | pkg/kubegc/kubegc.go:50-51 | trimming twice equals trimming once |
| KubeGC.ParseAnnotationFilter | pkg/kubegc/kubegc.go:43-52 | an empty string gives an empty name and value; a non-empty string with zero or several `=` is the parse error; with exactly one `=` at i, the name and value are the trimmed text before and after i |
| KubeGC.EmptyNameMeansNoFilter | pkg/kubegc/kubegc.go:45-52 | "=x" parses to an empty name, so no annotation constraint applies |
| KubeGC.BlankNameMeansNoFilter | pkg/kubegc/kubegc.go:50-51 | " = keep" trims to an empty name and the value "keep" |
| Labels.ExistsRequirement | pkg/kubegc/kubegc.go:66 | the requirement that a label key be present, with no values |
| Labels.Add | pkg/kubegc/kubegc.go:70 | a selector with one more requirement, appended at the end |
| KubeGC.NormalizeSelector | pkg/kubegc/kubegc.go:64-71 | the loop yields the parsed requirements followed by one `Exists` requirement per requirement, on its key, in order |
| KubeGC.NormalizedCovers | pkg/kubegc/kubegc.go:54-71 | the normalised selector keeps every original requirement, has an `Exists` requirement for every key it mentions, and adds only `Exists` requirements on original keys |
| KubeGC.NotKeyAlsoGetsExists | pkg/kubegc/kubegc.go:64-71 | a selector made of a single `!key` requirement normalises to `!key` followed by `Exists` on the same key |
| KubeGC.NewKubeGC | pkg/kubegc/kubegc.go:42-80 | a bad filter fails first with its message; then a selector parse error is returned as is; otherwise the result holds the namespace, the parsed filter and the normalised selector |
| KubeGC.Scope | pkg/kubegc/kubegc.go:82-86 | the scope is never blank, is the namespace when one is set, and for namespace names without spaces reads "Cluster wide" exactly when no namespace is set |
| KubeGC.Describe | pkg/kubegc/kubegc.go:82-93 | the description is the scope and selector heading with the selector text, followed directly by the `name=value` annotation filter, with nothing else in between |
| KubeGC.DescribeShowsSelector | pkg/kubegc/kubegc.go:88-93 | two descriptions of the same collector are equal only if the selector texts are equal |
| Collector.Keep | pkg/kubegc/kubegc.go:147-157 | an object is collected when it has no owner references and, if a filter name is set, carries that annotation with exactly the filter value |
| Collector.ItemsOrphans | pkg/kubegc/kubegc.go:146-166 | reference definition of the orphans of one list answer: the kept objects, in list order |
| Collector.ResourcesCollect | pkg/kubegc/kubegc.go:121-167 | reference definition for the resources of one group version: a list call per deletable resource, and its orphans when the list succeeds |
| Collector.GroupsCollect | pkg/kubegc/kubegc.go:112-168 | reference definition for all groups: a failed discovery logs its error, a successful one contributes its resources' list calls and orphans |
| Collector.CollectOrphans | pkg/kubegc/kubegc.go:112-168 | the nested group, resource and item loops produce exactly the orphans, list calls and log lines of `GroupsCollect` |
| Collector.AppendResources | pkg/kubegc/kubegc.go:121-167 | the resource loop of one group version appends exactly the list calls and orphans of `ResourcesCollect` for that group's resources |
| Collector.AppendOrphans | pkg/kubegc/kubegc.go:146-166 | the item loop appends exactly `ItemsOrphans` of one list answer, in list order |
| Collector.ItemsOrphansIff | pkg/kubegc/kubegc.go:146-166 | an orphan comes from a listed object exactly when that object has no owner references and passes the annotation filter |
| Collector.ResourcesOrphansIff | pkg/kubegc/kubegc.go:121-166 | a group's orphans come exactly from its resources that support "delete" and whose list call succeeded |
| Collector.ResourcesListsIff | pkg/kubegc/kubegc.go:121-140 | a list call is made for exactly the resources that support "delete", with the collector's namespace and selector |
| Collector.GroupsOrphansIff | pkg/kubegc/kubegc.go:114-121 | the orphans of a run come exactly from the groups whose resource discovery succeeded |
| Collector.GroupsListsIff | pkg/kubegc/kubegc.go:114-140 | the list calls of a run come exactly from the groups whose resource discovery succeeded |
| Collector.GroupsLogIsDiscoveryErrors | pkg/kubegc/kubegc.go:115-119 | collection logs exactly the failed discovery errors, in group order |
| Collector.ResourcesLogEmpty | pkg/kubegc/kubegc.go:142-145 | a failed list call is skipped without logging |
| Collector.AnnotationsIgnoredWithoutFilter | pkg/kubegc/kubegc.go:151-157 | with an empty filter name, changing any object's annotations does not change the orphans |
| Collector.KeepFilterSelectsMatching | pkg/kubegc/kubegc.go:151-157 | with filter keep=true, an ownerless object is collected for deletion exactly when it is annotated keep=true |
| Planner.Weight | pkg/kubegc/kubegc.go:171-182 | every orphan weighs between 1 and 4 |
| Planner.WeightClasses | pkg/kubegc/kubegc.go:171-182 | the weight is 4 exactly for a CustomResourceDefinition, 3 exactly for a Namespace, 2 exactly for other namespaced objects and 1 exactly for other cluster-scoped objects |
| Planner.SwapDown | pkg/kubegc/kubegc.go:183-185 | exchanging two neighbours changes only those two positions and keeps the same orphans |
| Planner.SortByWeight | pkg/kubegc/kubegc.go:183-185 | after sorting, the array is a permutation of the collected orphans in non-decreasing weight |
| Planner.SinkLast | pkg/kubegc/kubegc.go:183-185 | one insertion step: with `a[..i]` in weight order, moving `a[i]` down leaves `a[..i + 1]` in weight order, keeps the same orphans, and leaves `a[i + 1..]` untouched |
| Planner.PlanPhases | pkg/kubegc/kubegc.go:170-185 | in a sorted plan only CRDs follow a CRD, only namespaces and CRDs follow a namespace, and no cluster-scoped ordinary object follows a namespaced one |
| Planner.SortedWeightsDetermined | pkg/kubegc/kubegc.go:183-185 | any two sorted arrangements of the same orphans have the same weight at every position, whatever the order within a weight |
| Executor.OptionsFor | pkg/kubegc/kubegc.go:188-196 | every delete uses foreground propagation, and `DryRunAll` is present exactly in a dry run |
| Executor.OutcomeText | pkg/kubegc/kubegc.go:199-206 | the reported outcome is "OK" without an error and the error's text otherwise |
| Executor.LogLine | pkg/kubegc/kubegc.go:208-212 | the two log formats: prefix, "delete resource/name", " in namespace <ns>" only for a namespaced object, then "... " and the outcome |
| Executor.RequestFor | pkg/kubegc/kubegc.go:200-203 | the delete call goes to the orphan's group version, resource, namespace and name, with the run's options |
| Executor.LogLineMarksDryRun | pkg/kubegc/kubegc.go:193-196 | a line starts with "(dry-run) " exactly when the run is a dry run |
| Executor.LogLineNamesObject | pkg/kubegc/kubegc.go:208-212 | every line starts with the prefix, "delete " and `resource/name` |
| Executor.LogLineEndsWithOutcome | pkg/kubegc/kubegc.go:208-212 | every line ends with "... " and the outcome; a namespaced object's line carries " in namespace <ns>" right before it; otherwise nothing stands between the name and "... " |
| Executor.LogLineDeterminesOutcome | pkg/kubegc/kubegc.go:199-212 | two lines for the same orphan are equal only if the outcome texts are equal; this is about the text only, since a failed delete whose error text is "OK" logs the same line as a success |
| Executor.DeleteAll | pkg/kubegc/kubegc.go:188-213 | exactly one delete per planned orphan, in plan order; a failure does not stop the loop, and line n reports the outcome of delete n |
| Pipeline.Clean | pkg/kubegc/kubegc.go:96-216 | client or ServerGroups failures end the run with that error and no list or delete; otherwise the run succeeds, the plan is a weight-sorted permutation of the collected orphans, each gets one delete in order, and the log holds the discovery errors followed by one line per delete |

## Left out

- The REST configuration, `dynamic.NewForConfig` and `discovery.NewDiscoveryClientForConfig` (kubegc.go:97-105) are foreign calls. They appear only as their possible errors in `Client.Server`.
- Every network call is an input of the model. This covers `ServerGroups`, `ServerResourcesForGroupVersion`, list and delete. Cluster state, whether a dry-run delete changes the cluster, and `context` cancellation are not modelled.
- The label-selector grammar of `labels.Parse` is left out; the parser is a parameter. `selector.String()` is left out too, so the selector is kept as its requirements, and `Describe` takes the rendered text as a parameter.
- Labels.Add: modelled as appending. The library's `Add` also sorts requirements by key. `KubeGC.NormalizeSelector` and `KubeGC.NewKubeGC` state the selector position by position, so their contracts hold for the appending model only; `KubeGC.NormalizedCovers` states membership, which holds in either order.
- The error branch of `labels.NewRequirement` (kubegc.go:66-69) is not modelled. It validates a key that `labels.Parse` has already validated.
- `schema.ParseGroupVersion` (kubegc.go:120) is left out. The preferred group version is kept as an opaque string.
- The algorithm inside `sort.Slice` is not modelled. `Planner.SortByWeight` sorts by insertion and is proved to give what `sort.Slice` promises: a weight-ordered permutation. Which orphans of one weight end up first is left open, because `sort.Slice` leaves it open too.
- Output of the `log` package is modelled as a sequence of lines. Its timestamps and newline handling are not modelled.
- Strings are sequences of Unicode scalar values. Go strings that are not valid UTF-8 are not modelled.
- `cmd/kubectl-clean/main.go` is not part of this model. It handles flag parsing, environment lookup and process exit codes.
