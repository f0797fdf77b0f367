/** What the extensions attach to the nodes of a graph, each under its own name. */
module Metadata {
  import opened Common
  import Policy

  const DIRECTLY_ATTACHED_POLICY := "DirectlyAttachedPolicy"
  const INHERITED_POLICY := "InheritedPolicy"
  const NOT_FOUND_REFERENCE_VALIDATOR := "NotFoundReferenceValidator"
  const REFERENCE_GRANTS_FOR_BACKEND := "ReferenceGrantsForBackend"

  type Policies = map<GKNN, Policy.Policy>
  type PoliciesByKind = map<string, Policy.Policy>

  datatype Metadata =
    | Attached(policies: Policies)
    | Effective(effective: EffectiveData)
    | NotFound(notFound: seq<RefError>)
    | Grants(grants: map<GKNN, ReferenceGrant>, notPermitted: seq<RefError>)

  datatype EffectiveData = EffectiveData(
    gatewayInherited: Policies,
    httpRouteInherited: Policies,
    backendInherited: Policies,
    gatewayEffective: PoliciesByKind,
    httpRouteEffective: map<GKNN, PoliciesByKind>,
    backendEffective: map<GKNN, PoliciesByKind>)

  /** What the nodes of a graph have to record. */
  type Due = map<GKNN, EffectiveData>

  const NO_EFFECTIVE_DATA := EffectiveData(map[], map[], map[], map[], map[], map[])

  /** The metadata of a node; `None` is Go's nil map: reading it finds nothing, writing to it panics. */
  type NodeMetadata = Option<map<string, Metadata>>

  function Entry(metadata: NodeMetadata, category: string): Option<Metadata> {
    if metadata.Some? && category in metadata.value then Some(metadata.value[category]) else None
  }

  /** Node metadata without the entry of one extension. */
  function Without(metadata: NodeMetadata, category: string): NodeMetadata {
    match metadata
    case None => None
    case Some(m) => Some(m - {category})
  }

  /** Node metadata with an entry, the map being made if there is none yet. */
  function With(metadata: NodeMetadata, category: string, entry: Metadata): NodeMetadata {
    Some((if metadata.Some? then metadata.value else map[])[category := entry])
  }

  /** The entries of all other extensions are the same, and a map that has been made stays. */
  ghost predicate OnlyChanges(before: NodeMetadata, after: NodeMetadata, category: string) {
    && (before.Some? ==> after.Some?)
    && forall c :: c != category ==> Entry(after, c) == Entry(before, c)
  }
}
