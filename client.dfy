/**
 * The Kubernetes API server as the collector sees it through its discovery
 * and dynamic clients. Every remote call is an input: the answers of the
 * discovery calls, a function from a list request to its answer, and a
 * function from a delete request (and its position among the deletes of the
 * run) to its error, if any.
 */
module Client {
  import opened Wrappers
  import opened Labels

  datatype OwnerReference = OwnerReference(kind: string, name: string)

  /** An object returned by a list call, reduced to what the collector reads of it. */
  datatype Instance = Instance(
    namespace: string,
    name: string,
    owners: seq<OwnerReference>,
    annotations: map<string, string>)

  /** One entry of `APIResourceList.APIResources`. */
  datatype ApiResource = ApiResource(name: string, kind: string, verbs: seq<string>)

  /** One entry of `APIGroupList.Groups`, with its preferred group version. */
  datatype Group = Group(name: string, preferredVersion: string)

  /** A list call: resource, namespace scope (empty for all namespaces) and label selector. */
  datatype ListRequest = ListRequest(
    groupVersion: string,
    resource: string,
    namespace: string,
    labelSelector: seq<Requirement>)

  datatype PropagationPolicy =
    | DeletePropagationForeground | DeletePropagationBackground | DeletePropagationOrphan

  datatype DeleteOptions = DeleteOptions(propagationPolicy: PropagationPolicy, dryRun: seq<string>)

  /** `metav1.DryRunAll`. */
  const DryRunAll: string := "All"

  /** A delete call: resource, namespace (empty for cluster-scoped objects), name and options. */
  datatype DeleteRequest = DeleteRequest(
    groupVersion: string,
    resource: string,
    namespace: string,
    name: string,
    options: DeleteOptions)

  /**
   * The answers of the cluster during one run. `dynamicInit` and `discoveryInit`
   * are the errors of building the two clients, `serverGroups` the answer of
   * `ServerGroups`, `resourcesFor` that of `ServerResourcesForGroupVersion`,
   * `list` that of a list call and `delete` the error of the n-th delete call.
   */
  datatype Server = Server(
    dynamicInit: Option<string>,
    discoveryInit: Option<string>,
    serverGroups: Result<seq<Group>, string>,
    resourcesFor: string -> Result<seq<ApiResource>, string>,
    list: ListRequest -> Result<seq<Instance>, string>,
    delete: (nat, DeleteRequest) -> Option<string>)
}
