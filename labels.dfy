/**
 * Label-selector requirements, kept abstract: a requirement is a key, an
 * operator and a set of values. The selector grammar and the rendering of a
 * selector back to text belong to the Kubernetes `labels` library and are not
 * part of this model.
 */
module Labels {

  /** The operators of `k8s.io/apimachinery/pkg/selection`. */
  datatype Operator =
    | Equals | DoubleEquals | NotEquals | In | NotIn
    | Exists | DoesNotExist | GreaterThan | LessThan

  datatype Requirement = Requirement(key: string, op: Operator, values: seq<string>)

  /** `labels.NewRequirement(key, selection.Exists, []string{})`. */
  function ExistsRequirement(key: string): Requirement
  {
    Requirement(key, Exists, [])
  }

  /** `selector.Add(req)`: the selector with one more requirement, kept in insertion order here. */
  function Add(selector: seq<Requirement>, req: Requirement): seq<Requirement>
  {
    selector + [req]
  }
}
