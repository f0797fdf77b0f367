/** Identifiers shared by every part of gwctl (pkg/common/types.go, pkg/common/errors.go). */
module Common {

  datatype Option<+T> = None | Some(value: T)

  datatype Result<+T, +E> = Ok(value: T) | Err(error: E)

  /** Nothing is listed twice. */
  ghost predicate Distinct<T(!new)>(s: seq<T>) {
    forall i, j :: 0 <= i < j < |s| ==> s[i] != s[j]
  }

  datatype GroupKind = GroupKind(group: string, kind: string)

  datatype GKNN = GKNN(group: string, kind: string, namespace: string, name: string) {
    function GK(): GroupKind {
      GroupKind(group, kind)
    }
  }

  const GATEWAY_GROUP := "gateway.networking.k8s.io"
  const CORE_GROUP := ""

  const GATEWAY_CLASS_GK := GroupKind(GATEWAY_GROUP, "GatewayClass")
  const GATEWAY_GK := GroupKind(GATEWAY_GROUP, "Gateway")
  const HTTP_ROUTE_GK := GroupKind(GATEWAY_GROUP, "HTTPRoute")
  const NAMESPACE_GK := GroupKind(CORE_GROUP, "Namespace")
  const SERVICE_GK := GroupKind(CORE_GROUP, "Service")
  const REFERENCE_GRANT_GK := GroupKind(GATEWAY_GROUP, "ReferenceGrant")

  /** An API object as the topology sees it: its identity and the parsed fields that the relations of
      pkg/topology/gateway/gateway.go look at. A field that an object does not have is empty. */
  datatype Resource = Resource(id: GKNN, spec: ResourceSpec)

  datatype ResourceSpec = ResourceSpec(gatewayClassName: string, parentRefs: seq<ParentRef>, rules: seq<Rule>)

  datatype ParentRef = ParentRef(namespace: Option<string>, name: string)

  datatype Rule = Rule(backendRefs: seq<BackendRef>, filters: seq<Filter>)

  datatype BackendRef =
    BackendRef(group: Option<string>, kind: Option<string>, namespace: Option<string>, name: string)

  datatype Filter = RequestMirror(backendRef: Option<BackendRef>) | OtherFilter

  /** A reference from one object to another that one of the validators complains about. */
  datatype RefError =
    | ReferenceToNonExistentResource(referring: GKNN, referred: GKNN)
    | ReferenceNotPermitted(referring: GKNN, referred: GKNN)

  datatype ReferenceGrant =
    ReferenceGrant(namespace: string, name: string, to: seq<GrantTo>, from: seq<GrantFrom>)

  datatype GrantTo = GrantTo(group: string, kind: string, name: Option<string>)

  datatype GrantFrom = GrantFrom(group: string, kind: string, namespace: string)
}
