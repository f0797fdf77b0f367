# gwctl: topology and policies, verified

gwctl shows Gateway API resources together with what they are connected to and which policies apply to them. This
project models the two cores that everything it prints depends on, and proves what holds of them.

**The topology** (`pkg/topology`). From some source objects, the builder works out which kinds to fetch, lays the sources
over what the API server has, connects objects through relations, searches breadth-first from the sources up to a depth,
and prunes what it has not reached. The model keeps the source's form: `Node` and `Graph` are classes with neighbour maps,
a depth and metadata that are updated in place; the searches are loops over queues; map iteration takes an arbitrary
element every time. The API server is a function from kinds to objects.

**The policies** (`pkg/policymanager`, `pkg/extension`). Policies of one kind are merged by JSON Merge Patch (section 2 of
RFC 7396) with overrides from above and defaults from below; policies at one level by precedence (GEP-713); and levels
along GatewayClass, Namespace, Gateway, Namespace, HTTPRoute, Namespace, Backend. JSON is a recursive datatype with arrays
and numbers as opaque leaves, and results are stated by path. The extensions write all this, and the errors of two
validators, into the metadata of the nodes of a graph.

`pkg/topology/gateway/graphviz.go` draws the graph; the model yields the lists of clusters, nodes and edges.

## What turned out

The main results are in the table. Where the code does not do what its comments or its design promise, the exact condition
under which it does is proved instead:

- `Build` fetches near kinds only, and nothing when a single kind is near. The graph is complete exactly if everything in
  the cluster up to the depth has been looked for (`CompleteExactly`). With typed references only the early return can miss
  something (`CompleteIfTyped`), and only because of a relation from a kind to itself (`MissedBySelfRelation`,
  `IncompleteForSelfRelation`); the six relations of the Gateway API contain none.
- The "not found" errors of a node at any depth are true of the cluster exactly if every reference that resolves has been
  looked for and is reached within the depth plus one (`TrueIff`). The check of the depth in the validator only logs, so a
  node one level below the maximal depth can carry false errors: five objects for which it does are in
  `FalseReportBelowMaxDepth`, and `ReportBelowMaxDepth` builds and validates them.
- Merge patch on null-free documents is associative exactly if no path clashes (`MergeAssociativeIff`), which same-shape
  documents never do.
- The policies of one kind and level are folded in the order of their names while the accumulator carries the identity of
  the highest one so far. The default of the policy with the highest precedence wins exactly under the condition of
  `DefaultsIff`, the override of the one with the lowest exactly under that of `OverridesIff`; for lists sorted by
  precedence, in either direction, both hold (`SortedEitherWay`). Three policies attached to one object for which the wrong
  default or the wrong override wins are in `LowerDefaultWins` and `HigherOverrideWins`.
- Whether the order of such a list matters at all is known for every path (`AllOrdersAgreeIff`). Call the policies that no
  other precedes the top; there can be several, with the same time, namespace and name. All orders agree on a default
  exactly if those of the top that have one agree or, if none of them has one, all that have one; and on an override exactly
  if those below the top that have one agree or, if there are none, those of the top.
- The effective policies of a Backend depend on the order in which Go iterates over its routes: with two routes, if one
  policy is attached to both and gives both results its identity (`TwoRoutesInCommon`), or with three (`RouteOrderMatters`).
  What all possible outcomes agree on is exactly what is order-free among its routes, and the defaults that the Backend or
  its Namespace sets (`DeterminedIff`). One or two policies with different identities are always order-free
  (`FewAreOrderFree`); the overrides of the Gateway and the defaults of the Backend itself are the same in every order
  (`GatewayOverrides`, `BackendDefaults`).
- What the graph has above a node is what the cluster has there exactly if all of it has been looked for and is reached
  (`AboveAgreesIff`); near enough to the sources it is (`AboveAgrees`). A route at just the default depth can lack the
  GatewayClass of its Gateway (`GatewayClassPruned`), and with it what it would inherit.
- Pruning removes the edges into a pruned node but not those out of it, so an incoming neighbour can be one that is no
  longer in the graph: exactly if it refers to the node and is not reached (`EdgesClosed`), which happens only at nodes that
  the search has not expanded.

## Files

| file | what |
|---|---|
| Common, Metadata, Strings, Sorting, Permutations | shared types, node metadata, the order of strings, sorting, reordering |
| Topology, Cluster, Reach | graph and nodes; objects, references and distances as values; breadth-first search |
| KindSearch, Connecting, NodeSearch, Pruning, Builder, SearchPaths | the builder |
| Completeness, Reports, ClusterAncestors, GatewayGraph, GatewayNodes, GraphExamples, SmallClusters, SearchExamples | what a built graph says about the cluster |
| Gateway | the six relations |
| NotFoundRefValidator, RefGrantValidator | the validators |
| Json, Policy, PolicyManager, Hierarchy, SimilarKind, Merger | merge patch, policies, levels, precedence, maps of policies |
| MergeOrder, PolicyExamples | when the order of policies at one level matters |
| PolicyLevels, LevelHierarchy, UniformKinds | one level, levels on top of each other, kinds whose policies fit together |
| DirectlyAttachedPolicy, InheritedPolicies | attached and inherited policies |
| EffectivePolicies, EffectivePasses, PolicyEffects | effective policies and where they come from |
| EffectiveValues, RouteOrder, Determinacy | their values, and which of them are determined |
| Extensions, Reruns | running all extensions, once and again |
| Identity, Dot | printed identities, the drawing |

`dafny verify dfyconfig.toml --resource-limit 2000000 --verification-time-limit 0` checks everything.

## Model

| member | source | states |
|---|---|---|
| Topology.Graph.AddNode | pkg/topology/graph.go:47-56 | the node is stored under its identity and no other entry changes |
| Topology.Graph.DeleteNode | pkg/topology/graph.go:58-70 | the node's entry is gone and no other |
| Topology.Graph.AddEdge | pkg/topology/graph.go:90-107 | the edge is recorded on both sides, under relation and identity, and nothing else changes |
| Topology.Graph.RemoveEdge | pkg/topology/graph.go:109-120 | the edge is gone from both sides and nothing else |
| Topology.Graph.RemoveMetadata | pkg/topology/graph.go:122-131 | every node of the graph loses exactly the entry of one extension |
| Builder.Builder.constructor | pkg/topology/graph.go:173-178 | no sources, no relations, depth 3 |
| Builder.Builder.StartFrom | pkg/topology/graph.go:180-183 | replaces the sources |
| Builder.Builder.UseRelationships | pkg/topology/graph.go:190-193 | appends the relations |
| Builder.Builder.WithMaxDepth | pkg/topology/graph.go:195-198 | sets the depth |
| Builder.Builder.Build | pkg/topology/graph.go:200-328 | fails exactly with the first failing fetch; otherwise the nodes are the objects at distance at most the depth plus one, each at its exact distance, edges followed either way but not out of Namespaces and non-source GatewayClasses; outgoing neighbours are the edges between survivors, incoming ones all edges of the fetched objects |
| SearchPaths.NodesByPaths | pkg/topology/graph.go:252-325 | an object is in a built graph at a depth exactly if this is the length of a shortest path to it from a source, over edges in either direction, on which nothing before it is a Namespace or a GatewayClass that is no source, and at most one more than the maximal depth |
| SearchPaths.JoinedIff | pkg/topology/graph.go:237-250 | edges join two objects exactly if one names the other by a relation from its kind |
| SearchExamples.TwoServicesOfANamespace | pkg/topology/graph.go:271-275 | from one of two Services of a Namespace, the Namespace is in the graph and the other Service is not |
| SearchExamples.FromOneGateway | pkg/topology/graph.go:277-282 | from one of two Gateways of a class, the class is in the graph and the other Gateway is not |
| SearchExamples.FromTheirClass | pkg/topology/graph.go:277-282 | from the class both are |
| KindSearch.DetermineUniqueGroupKinds | pkg/topology/graph.go:330-377 | returns, without duplicates, exactly the kinds at distance at most the depth (at least 0) in the undirected relation graph, despite stopping at the first kind that is too deep |
| SearchPaths.KindsByPaths | pkg/topology/graph.go:330-377 | these are the kinds that a path of at most so many relations, read either way, leads to from that of a source |
| Connecting.AddSources | pkg/topology/graph.go:206-210 | the nodes are the sources, the last one of those with the same identity, at depth 0 |
| Cluster.LastSourceCounts | pkg/topology/graph.go:206-210 | of several sources with one identity the last one is the node |
| Connecting.AddFetched | pkg/topology/graph.go:220-235 | adds all fetched objects that are not there yet, first come first, at infinite depth, or fails with the first error |
| Connecting.Connect | pkg/topology/graph.go:237-250 | the neighbour maps record exactly the references that resolve among the objects |
| NodeSearch.Search | pkg/topology/graph.go:252-302 | reaches exactly the nodes within the depth plus one, each at its distance: the early exit loses nothing |
| NodeSearch.Expand | pkg/topology/graph.go:264-301 | one node leaves the queue with all its neighbours visited, unless it is of a kind that is not expanded |
| Reach.SearchPop | pkg/topology/graph.go:262-302 | the queue stays sorted by depth and one level wide, and everything as near as its head has been visited |
| Reach.SearchVisit | pkg/topology/graph.go:294-299 | giving an unvisited neighbour one more than the head's depth keeps depths exact and the queue sorted |
| Reach.SearchDone | pkg/topology/graph.go:262-302 | a search that runs out of queue has visited everything reachable |
| Reach.WalkIffPath | pkg/topology/graph.go:252-302 | the distances meant are lengths of explicit paths from a source |
| Pruning.Prune | pkg/topology/graph.go:304-325 | deletes exactly the unreached nodes and exactly the edges into them, in whatever order they are visited |
| Completeness.CompleteExactly | pkg/topology/graph.go:200-328 | every cluster object at admissible distance at most the depth is in the graph at exactly that depth, and no other, if and only if every object so near is a source or, unless there is a single kind, of a fetched kind |
| Completeness.CompleteIfTyped | pkg/topology/graph.go:211-328 | with typed references the graph is complete except that the early return misses what lies outside the sources |
| Completeness.SingleKindIsComplete | pkg/topology/graph.go:215-219 | the early return is complete exactly if the depth is below 1 or no reference leaves the sources |
| Completeness.MissedBySelfRelation | pkg/topology/graph.go:215-219 | what the early return misses takes a relation from the kind to itself |
| Completeness.CompleteWithoutSelfRelation | pkg/topology/graph.go:200-328 | without such relations the graph is complete although only near kinds are fetched |
| Completeness.LookedForIsComplete | pkg/topology/graph.go:220-328 | a search that fetched, and looked for everything near, is complete |
| Completeness.ObjectInCluster | pkg/topology/graph.go:205-235 | every node holds the cluster's object, sources laid over what is fetched |
| Completeness.DepthInCluster | pkg/topology/graph.go:35-45 | the depth of every node, also one below the maximal depth, is the length of a walk in the whole cluster; the distance there, if everything near has been looked for or the early return was taken |
| Completeness.EdgesClosed | pkg/topology/graph.go:304-325 | outgoing neighbours are in the graph and have the edge on their side; in-graph incoming ones as well; a pruned incoming neighbour is exactly a referring object that is not reached, and occurs only at a node that was not expanded |
| Completeness.ExpandedKeepsEdges | pkg/topology/graph.go:38-42 | both ends of an edge at an expanded node up to the depth survive |
| NotFoundRefValidator.PutErrorInNode | pkg/extension/notfoundrefvalidator/notfoundrefvalidator.go:75-96 | records an error unless it is there, leaving the rest of the metadata; fails only if the entry is of another type |
| NotFoundRefValidator.Execute | pkg/extension/notfoundrefvalidator/notfoundrefvalidator.go:39-73 | every node records exactly its references that are not in the graph, each once, nothing stale |
| Reports.ReportedExactly | pkg/extension/notfoundrefvalidator/notfoundrefvalidator.go:39-96 | for an expanded node up to the depth: the references that are absent from the cluster or were never looked for |
| Reports.TrueIff | pkg/extension/notfoundrefvalidator/notfoundrefvalidator.go:39-96 | at any depth, the reports of a node are true of the cluster exactly if all references that resolve were looked for and are reached |
| Reports.TrueUpToDepthIff | pkg/topology/graph.go:38-42 | of an expanded node up to the depth exactly if they were looked for |
| Reports.TrueForTypedReferences | pkg/topology/graph.go:38-42 | typed references and near enough relations make them true: pruning and depth cause no false report |
| GraphExamples.FalseReportBelowMaxDepth | pkg/extension/notfoundrefvalidator/notfoundrefvalidator.go:43-47 | five objects, the six relations and a depth of 1: a node one level deeper is in the graph, its reports are not the references absent from the cluster, and it has a pruned neighbour |
| GraphExamples.ReportBelowMaxDepth | pkg/extension/notfoundrefvalidator/notfoundrefvalidator.go:39-96 | built and validated, it records an error about a Namespace that exists |
| GraphExamples.IncompleteForSelfRelation | pkg/topology/graph.go:215-219 | two objects of one kind for which the early return leaves the graph incomplete at any depth of 1 or more |
| Gateway.HTTPRouteParentGateways | pkg/topology/gateway/gateway.go:66-89 | one Gateway per parentRef, in order, with the namespace defaulted |
| Gateway.ParentGatewayFields | pkg/topology/gateway/gateway.go:72-88 | group, kind and name of a parent, and its namespace: the one given, else that of the route, else "default" |
| SearchExamples.ParentInNamespace | pkg/topology/gateway/gateway.go:72-88 | of two Gateways of one name, the neighbour of the route is the one in the given namespace |
| Gateway.RuleBackendRefs | pkg/topology/gateway/gateway.go:105-121 | the backendRefs of a rule and those of its mirror filters |
| Gateway.HTTPRouteBackends | pkg/topology/gateway/gateway.go:98-154 | every object that a rule refers to, exactly once |
| Gateway.IsBackendIff | pkg/topology/gateway/gateway.go:104-146 | an object is a backend exactly if a backendRef or a mirror filter says so, field by field, with group, kind and namespace defaulted |
| Gateway.Relations.constructor | pkg/topology/gateway/gateway.go:41-198 | kinds, names and targets of the six relations |
| Gateway.RelationFields | pkg/topology/gateway/gateway.go:41-198 | from which kind to which each relation leads, and what it names, field by field |
| GatewayGraph.DefaultDepthIsEnough | pkg/topology/graph.go:330-377 | from any of the five kinds, a depth of 3 fetches all five |
| GatewayGraph.TypedReferencesIff | pkg/topology/gateway/gateway.go:94-155 | references are typed exactly if all backends of routes are Services |
| GatewayGraph.CompleteAndTrue | pkg/topology/graph.go:35-45 | then, with the default depth or more, the graph is complete and the reports up to the depth are true |
| GatewayNodes.AnyNeighbor | pkg/topology/gateway/gateway.go:230-242 | a neighbour through the relation, or none if there is none |
| GatewayNodes.NeighborsBy | pkg/topology/gateway/gateway.go:269-275 | exactly the neighbours through the relation |
| GatewayNodes.BuiltIsShaped | pkg/topology/gateway/gateway.go:200-299 | on a built graph, neighbours are what the relations say, in the graph or pruned |
| Json.MergeAt | pkg/policymanager/merger.go:156-178 | what a patch does to any document, path by path |
| Json.MergeAssociativeIff | pkg/policymanager/merger.go:156-178 | null-free patches merge associatively exactly if no path clashes |
| Json.MergeNotAssociative | pkg/policymanager/merger.go:156-178 | a clash: a scalar between two objects |
| Json.MergeAssociative | pkg/policymanager/merger.go:156-178 | same-shape null-free documents merge associatively |
| Json.MergeNullFree | pkg/policymanager/merger.go:156-178 | a merge of null-free documents has no null |
| Json.MergeSameShape | pkg/policymanager/merger.go:156-178 | a merge keeps the shape that its parts share with a third document |
| Json.MergeIdempotentIff | pkg/policymanager/merger.go:156-178 | merging a document with itself gives it back exactly if it is null-free |
| Hierarchy.MergedAt | pkg/policymanager/merger.go:109-154 | at every path: parent first below the override, child first elsewhere |
| Hierarchy.DirectMergedAt | pkg/policymanager/merger.go:120-154 | below a parent that is not inheritable the child wins everywhere |
| Hierarchy.ChildValueSurvives | pkg/policymanager/merger.go:114-154 | whatever the documents, a value of the child outside the override survives |
| Hierarchy.ParentOverrideSurvives | pkg/policymanager/merger.go:126-146 | whatever the documents, a value in the override of an inheritable parent survives |
| Hierarchy.MergedIsWellFormed | pkg/policymanager/merger.go:114-154 | the result is a policy of the same type and shape again |
| Hierarchy.MergePolicyAssociative | pkg/policymanager/merger.go:114-154 | merging policies of one CRD is associative |
| Hierarchy.ChainAt | pkg/extension/gatewayeffectivepolicy/gatewayeffectivepolicy.go:263-272 | a chain of levels: the topmost override, the most specific value elsewhere |
| Hierarchy.TopmostIsFirst | pkg/policymanager/merger.go:109-113 | topmost means the first level that has anything at the path |
| Hierarchy.MostSpecificIsLast | pkg/policymanager/merger.go:109-113 | most specific means the last one |
| Hierarchy.EffectiveAt | pkg/policymanager/manager.go:290-325 | EffectiveSpec lays overrides over defaults |
| Hierarchy.EffectiveOfDirect | pkg/policymanager/manager.go:291-296 | a direct policy: its spec without the target reference, nothing merged |
| Hierarchy.EffectiveFailsIff | pkg/policymanager/manager.go:303-317 | it fails exactly if default or override of an inheritable policy is no object |
| Hierarchy.EffectiveChain | pkg/policymanager/manager.go:290-325 | the effective spec of any chain, at every path: the topmost override if there is one, otherwise the most specific default |
| Policy.TypeOfVersioned | pkg/policymanager/manager.go:224-236 | the type of a policy: its kind and the group before the slash of its apiVersion |
| SimilarKind.OrderPutsPrecedingLast | pkg/policymanager/merger.go:185-204 | the one with precedence (`Precedes`, whose meaning the next two rows pin) comes last; two of which neither has precedence keep their order |
| SimilarKind.OldestThenFirst | pkg/policymanager/merger.go:185-204 | in either argument order, the older one comes last, or at the same age the one whose namespace and name are alphabetically first |
| SimilarKind.FirstNameLast | pkg/policymanager/merger.go:189-196 | in one namespace that is the one whose name is alphabetically first |
| PolicyExamples.FirstNameWins | pkg/policymanager/merger.go:189-196 | two attached policies of one age give the default of the alphabetically first one |
| SimilarKind.PrecedesTotal | pkg/policymanager/merger.go:180-204 | precedence orders any two policies one way, unless time, namespace and name are the same |
| SimilarKind.PrecedesTransitive | pkg/policymanager/merger.go:180-204 | precedence is transitive |
| SimilarKind.MergeSameCommutes | pkg/policymanager/merger.go:66-68 | merging two policies of one level does not depend on their order, unless different ones have the same identity |
| SimilarKind.FoldKeepsHighest | pkg/policymanager/merger.go:32-64 | in any order, the result has the identity of the highest-precedence policy and keeps all its values outside the override |
| SimilarKind.HighestPrecedesAll | pkg/policymanager/merger.go:180-204 | that policy has precedence over all others |
| SimilarKind.FoldAt | pkg/policymanager/merger.go:32-64 | at every path the result has what the winner at that path has |
| SimilarKind.DefaultsIff | pkg/policymanager/merger.go:32-64 | when the default of the highest-precedence setter wins |
| SimilarKind.OverridesIff | pkg/policymanager/merger.go:32-64 | when the override of the lowest-precedence setter wins |
| SimilarKind.DefaultFromLower | pkg/policymanager/merger.go:32-64 | behind a silent highest policy, the fold takes the default of the lower of two that comes first |
| SimilarKind.OverrideFromHigher | pkg/policymanager/merger.go:32-64 | and the override of the higher of two that comes last |
| PolicyExamples.LowerDefaultWins | pkg/policymanager/merger.go:32-64 | three policies attached to one object, in the order of their names, whose level has a lower-precedence default |
| PolicyExamples.HigherOverrideWins | pkg/policymanager/merger.go:32-64 | and a higher-precedence override |
| SimilarKind.SortedEitherWay | pkg/policymanager/merger.go:32-64 | sorted by precedence in either direction: one result, defaults from the highest and overrides from the lowest setter |
| MergeOrder.AllOrdersAgreeIff | pkg/policymanager/merger.go:32-64 | at a path, all orders of any list give the same exactly if those that can win agree: for a default, those that no other precedes if one of them has it, otherwise all; for an override, those that another precedes if one of them has it, otherwise the others |
| MergeOrder.OrderFreeIfApart | pkg/policymanager/merger.go:32-64 | if identities differ: for a default exactly if the highest has it or all agree, for an override exactly if all but the highest agree |
| MergeOrder.FewAreOrderFree | pkg/policymanager/merger.go:32-64 | one policy, or two with different identities, are order-free everywhere |
| MergeOrder.AllFoldsAgreeIff | pkg/policymanager/merger.go:32-64 | all orders give the same policy exactly if every path is order-free |
| Merger.MergePolicies | pkg/policymanager/merger.go:74-107 | in any iteration order, the kinds of both maps, shared kinds merged once; an error is that of some kind |
| Merger.MergePoliciesOfSameHierarchy | pkg/policymanager/merger.go:66-68 | the same with precedence |
| Merger.MergePoliciesOfDifferentHierarchy | pkg/policymanager/merger.go:70-72 | the same with the parent first |
| Merger.MergePoliciesOfSimilarKind | pkg/policymanager/merger.go:29-64 | every kind folded in list order, or the error of a fold |
| Merger.MergeKeepsKeys | pkg/policymanager/merger.go:78-107 | well-keyed maps never meet two kinds under a key and yield a well-keyed map of both key sets |
| Merger.MergeFailsIff | pkg/policymanager/merger.go:114-135 | merging fails exactly for two types, or for an inheritable parent whose spec is neither an object nor null |
| Merger.MergeIsUnique | pkg/policymanager/merger.go:78-107 | the outcome does not depend on the iteration order |
| Merger.SameHierarchyCommutes | pkg/policymanager/merger.go:66-68 | merging maps of one level commutes when different policies have different identities |
| Merger.NextLevel | pkg/extension/gatewayeffectivepolicy/gatewayeffectivepolicy.go:263-272 | merging one more level below extends the chain of every kind |
| Sorting.SortBy | pkg/policymanager/manager.go:335-343 | every element once, each before all with an alphabetically later key |
| Strings.LessIff | pkg/policymanager/manager.go:340 | the comparison of keys decides which is a proper prefix or has the smaller character at the first difference |
| Sorting.SortedIsUnique | pkg/topology/gateway/graphviz.go:33-35 | if keys tell elements apart, there is one sorted sequence whatever the iteration order |
| PolicyLevels.FilterInheritablePolicies | pkg/extension/gatewayeffectivepolicy/gatewayeffectivepolicy.go:178-189 | exactly the inheritable policies |
| PolicyLevels.ConvertPoliciesMapToSlice | pkg/policymanager/manager.go:335-343 | the policy of every key once, alphabetically by type, namespace and name joined by slashes |
| PolicyExamples.SliceOfThree | pkg/policymanager/manager.go:335-343 | calculates the slice of policies named a, aa and b |
| PolicyLevels.DifferentPolicies | pkg/policymanager/manager.go:335-343 | stored under their own identities, every policy is listed exactly once |
| PolicyLevels.SortKeyInjective | pkg/policymanager/manager.go:338-339 | the sort key tells plainly named policies apart |
| PolicyLevels.SliceIsUnique | pkg/policymanager/manager.go:335-343 | so the sorted slice is unique |
| PolicyLevels.LevelIsUnique | pkg/extension/gatewayeffectivepolicy/gatewayeffectivepolicy.go:244-261 | the merged policies of an object do not depend on any iteration order |
| LevelHierarchy.HierarchyFlattens | pkg/extension/gatewayeffectivepolicy/gatewayeffectivepolicy.go:333-342 | levels merged below a merge of levels are one chain |
| LevelHierarchy.EffectiveAtLevels | pkg/policymanager/manager.go:290-325 | the effective spec of a kind read off the levels |
| LevelHierarchy.ReadableMerge | pkg/policymanager/merger.go:114-154 | policies of one type whose spec is an object or missing merge without error, to such a policy |
| LevelHierarchy.SoundLevel | pkg/policymanager/merger.go:32-64 | a level of such policies merges without error |
| LevelHierarchy.OverrideSurvivesAccumulation | pkg/extension/gatewayeffectivepolicy/gatewayeffectivepolicy.go:396-415 | an override that all routes share survives merging them in any order |
| UniformKinds.LevelAt | pkg/extension/gatewayeffectivepolicy/gatewayeffectivepolicy.go:244-261 | of a kind whose policies fit together, the level of an object has at every path what wins among the policies attached to it, in the order of their names |
| PolicyManager.PolicyManager.Store | pkg/policymanager/manager.go:84-103 | every policy is stored under its own identity, the last one of each; others stay |
| DirectlyAttachedPolicy.Execute | pkg/extension/directlyattachedpolicy/directlyattachedpolicy.go:41-69 | a node records a policy exactly if one of its target references is the node, nothing stale, other metadata untouched |
| RefGrantValidator.ReferenceGrantExposes | pkg/extension/refgrantvalidator/refgrantvalidator.go:193-212 | true exactly if the grant is in the namespace and an entry matches group, kind and, if it has one, name |
| RefGrantValidator.ReferenceGrantAccepts | pkg/extension/refgrantvalidator/refgrantvalidator.go:214-230 | true exactly if an entry matches group, kind and namespace |
| RefGrantValidator.ExposingExactly | pkg/extension/refgrantvalidator/refgrantvalidator.go:71-83 | which grants a backend records, the last of those with the same name |
| RefGrantValidator.DiscoverReferenceGrantsForBackends | pkg/extension/refgrantvalidator/refgrantvalidator.go:56-85 | the cache gives every Service the grants that fetching for it alone would; fails exactly if a fetch fails, with its error, and then the Services left, one of them in that namespace, record nothing |
| RefGrantValidator.ValidateHTTPRoutes | pkg/extension/refgrantvalidator/refgrantvalidator.go:87-129 | one error per backend in another namespace that no recorded grant permits, for routes up to the depth |
| RefGrantValidator.Execute | pkg/extension/refgrantvalidator/refgrantvalidator.go:48-54 | both passes, nothing stale; after a failed fetch the grants found so far and no errors |
| RefGrantValidator.PermittedIff | pkg/extension/refgrantvalidator/refgrantvalidator.go:96-125 | permitted exactly if same namespace, or a Service with a grant that exposes, accepts and is not replaced by a later one of the same name; no other kind of backend ever is |
| RefGrantValidator.ErrorsIff | pkg/extension/refgrantvalidator/refgrantvalidator.go:87-129 | a node has an error for a reference exactly if it is an HTTPRoute up to the depth, the object is a backend of it in another namespace, and no Service that a grant allows, all field by field |
| RefGrantValidator.GrantsIff | pkg/extension/refgrantvalidator/refgrantvalidator.go:56-85 | a Service records the grants of its namespace that expose it, field by field, other nodes none |
| RefGrantValidator.PermittedIfUniquelyNamed | pkg/extension/refgrantvalidator/refgrantvalidator.go:96-125 | with unique names: exactly if some grant both exposes and accepts |
| InheritedPolicies.AddFromAll | pkg/extension/gatewayeffectivepolicy/gatewayeffectivepolicy.go:114-131 | adds exactly the policies attached to the neighbours in the graph and to their ancestors; pruned ones add nothing |
| InheritedPolicies.CalculateInheritedPoliciesForGateways | pkg/extension/gatewayeffectivepolicy/gatewayeffectivepolicy.go:67-96 | every Gateway records exactly what it inherits |
| InheritedPolicies.CalculateInheritedPoliciesForHTTPRoutes | pkg/extension/gatewayeffectivepolicy/gatewayeffectivepolicy.go:98-136 | every HTTPRoute as well |
| InheritedPolicies.CalculateInheritedPoliciesForBackends | pkg/extension/gatewayeffectivepolicy/gatewayeffectivepolicy.go:138-176 | every Backend as well |
| InheritedPolicies.CalculateInheritedPolicies | pkg/extension/gatewayeffectivepolicy/gatewayeffectivepolicy.go:52-65 | the three passes never fail and yield the closure over all ancestors |
| PolicyEffects.InheritsIff | pkg/extension/gatewayeffectivepolicy/gatewayeffectivepolicy.go:54-189 | on a built graph: inherited exactly if inheritable and attached to something above the object, read off the objects |
| PolicyEffects.AboveFields | pkg/extension/gatewayeffectivepolicy/gatewayeffectivepolicy.go:67-176 | what is above a Gateway, an HTTPRoute and a Backend, field by field |
| ClusterAncestors.AboveAgreesIff | pkg/topology/graph.go:304-325 | at any depth, what is above a node in the graph is what is above it in the cluster exactly if all of that has been looked for and is reached |
| ClusterAncestors.AboveAgrees | pkg/topology/graph.go:200-328 | it is for Gateways up to the depth, HTTPRoutes up to one less and Backends up to two less, if the five kinds are fetched |
| ClusterAncestors.InheritsFromCluster | pkg/extension/gatewayeffectivepolicy/gatewayeffectivepolicy.go:52-176 | these inherit exactly the inheritable policies attached to what is above them in the cluster |
| GraphExamples.GatewayClassPruned | pkg/topology/graph.go:304-325 | six objects and the default depth: a route at that depth whose GatewayClass is above it in the cluster but not in the graph |
| EffectivePolicies.MergeBelow | pkg/extension/gatewayeffectivepolicy/gatewayeffectivepolicy.go:263-272 | two more levels below what has been merged |
| EffectivePolicies.MergeRoute | pkg/extension/gatewayeffectivepolicy/gatewayeffectivepolicy.go:407-414 | one more route in the merge of every Gateway it has policies for |
| EffectivePolicies.GatewayPolicies | pkg/extension/gatewayeffectivepolicy/gatewayeffectivepolicy.go:207-285 | the chain of GatewayClass, Namespace and Gateway, or nothing if one is not in the graph or the Gateway is too deep |
| EffectivePolicies.RoutePolicies | pkg/extension/gatewayeffectivepolicy/gatewayeffectivepolicy.go:290-358 | for each parent Gateway, the Namespace and the route below what is effective there; nothing without Namespace node |
| EffectivePolicies.BackendPolicies | pkg/extension/gatewayeffectivepolicy/gatewayeffectivepolicy.go:363-447 | for each Gateway of a route in the graph, the routes merged in some order with Namespace and Backend below |
| EffectivePasses.CalculateEffectivePolicies | pkg/extension/gatewayeffectivepolicy/gatewayeffectivepolicy.go:191-202 | all nodes have their effective policies and no others, and keep what they inherit; on failure the nodes left, in the order of the passes, have none |
| EffectivePasses.Execute | pkg/extension/gatewayeffectivepolicy/gatewayeffectivepolicy.go:42-50 | on any built graph nothing absent is dereferenced; what is inherited and effective is recorded exactly; the only failure is a policy whose spec is no object or that has no type, and then it says which nodes have been done |
| PolicyEffects.RouteKeys | pkg/extension/gatewayeffectivepolicy/gatewayeffectivepolicy.go:292-355 | on a built graph, the keys of a route are the Gateways it refers to that are in the graph, if its Namespace is |
| PolicyEffects.BackendKeys | pkg/extension/gatewayeffectivepolicy/gatewayeffectivepolicy.go:365-444 | on a built graph, the keys of a Backend are the Gateways in the graph to which a route refers that refers to the Backend, if the Namespaces of both are in the graph |
| PolicyEffects.GatewayOverrides | pkg/extension/gatewayeffectivepolicy/gatewayeffectivepolicy.go:396-434 | every override of a Gateway's effective policy is that of all its routes and of their backends, in any order of routes |
| PolicyEffects.BackendDefaults | pkg/extension/gatewayeffectivepolicy/gatewayeffectivepolicy.go:423-434 | every default of the backend's own policies is final, in any order of routes |
| EffectiveValues.RouteLevels | pkg/extension/gatewayeffectivepolicy/gatewayeffectivepolicy.go:333-344 | the policies of a route for any of its Gateways are a chain of five levels, or of the last two if nothing is calculated for the Gateway |
| EffectiveValues.RouteIdsAre | pkg/extension/gatewayeffectivepolicy/gatewayeffectivepolicy.go:207-248 | these are the GatewayClass, the Namespace and the Gateway, if all are in the graph and the Gateway is not too deep, then the Namespace of the route and the route |
| EffectiveValues.GatewayEffectiveValues | pkg/policymanager/manager.go:290-325 | the effective value of a Gateway at every path, read off the policies attached to its three objects |
| EffectiveValues.RouteEffectiveValues | pkg/policymanager/manager.go:290-325 | the effective value of a route at every path, read off the policies attached to its five objects, for every kind whose policies fit together |
| EffectiveValues.BackendEffectiveValues | pkg/policymanager/manager.go:290-325 | the effective value of a Backend at every path: overrides from the routes, then Namespace, then Backend; defaults the other way; for some order of its routes |
| RouteOrder.AccumulatedIsFold | pkg/extension/gatewayeffectivepolicy/gatewayeffectivepolicy.go:396-415 | kind by kind, the routes that have the kind are merged like policies of one level |
| RouteOrder.TwoRoutesEitherOrder | pkg/extension/gatewayeffectivepolicy/gatewayeffectivepolicy.go:396-415 | for two routes the order makes no difference, unless different policies have the same identity |
| RouteOrder.TwoRoutesOrderMatters | pkg/extension/gatewayeffectivepolicy/gatewayeffectivepolicy.go:396-415 | two routes with a policy in common that is silent, below a Namespace policy, merge to two different defaults |
| RouteOrder.ThreeRoutesOrderMatters | pkg/extension/gatewayeffectivepolicy/gatewayeffectivepolicy.go:396-415 | for three routes two orders give different policies, if the highest is silent where the others differ |
| PolicyExamples.RouteOrderMatters | pkg/extension/gatewayeffectivepolicy/gatewayeffectivepolicy.go:396-415 | three routes with one policy each and two orders with different defaults |
| PolicyExamples.TwoRoutesInCommon | pkg/extension/gatewayeffectivepolicy/gatewayeffectivepolicy.go:396-415 | three attached policies for which the two routes of a backend have policies of the same identity, and two orders with different defaults |
| RouteOrder.AllRouteOrdersAgreeIff | pkg/extension/gatewayeffectivepolicy/gatewayeffectivepolicy.go:396-415 | at a path, all orders of any number of routes give the same exactly if it is order-free for their policies of the kind |
| RouteOrder.AnyOrderOfRoutesIff | pkg/extension/gatewayeffectivepolicy/gatewayeffectivepolicy.go:396-415 | all orders give the same policies exactly if that holds of every kind and path |
| RouteOrder.AllBackendOrdersAgreeIff | pkg/extension/gatewayeffectivepolicy/gatewayeffectivepolicy.go:396-434 | with the levels of the Backend below: exactly if the path is order-free, or outside the override and set by one of these levels |
| Determinacy.DeterminedIff | pkg/extension/gatewayeffectivepolicy/gatewayeffectivepolicy.go:363-447 | all possible outcomes agree on what a Backend has of a kind at a path under exactly this condition |
| Determinacy.BackendIsUnique | pkg/extension/gatewayeffectivepolicy/gatewayeffectivepolicy.go:363-447 | all outcomes agree on a Backend for whose routes every path is order-free |
| Extensions.InitMetadata | pkg/extension/extensions.go:29-35 | every node of the graph has a map, existing ones stay |
| Extensions.ExecuteAll | pkg/extension/extensions.go:28-44 | whatever the metadata before, afterwards every node shows exactly what is due; no failure if policies are readable and grants can be fetched; after a failure, which nodes show what |
| Extensions.BuiltIsSuitable | pkg/extension/extensions.go:28-44 | every graph straight out of Build with the six relations is accepted |
| Reruns.RunAgain | pkg/extension/extensions.go:28-44 | running again leaves the same metadata up to the order of errors, of Backends too if their routes are settled, and otherwise all but their effective policies |
| Reruns.RunTwice | pkg/extension/extensions.go:28-44 | runs all extensions twice and finds this |
| Identity.ParseString | pkg/common/types.go:67-77 | a printed identity can be read back if the kind has no dot and no part a slash |
| Identity.StringFields | pkg/common/types.go:67-77 | kind, group, namespace and name as printed, without what is empty |
| Identity.StringInjective | pkg/common/types.go:67-77 | so no two identities are printed the same |
| Dot.ToDot | pkg/topology/gateway/graphviz.go:39-143 | every namespace as a cluster, every node that is no Namespace and every reference between two of them, each exactly once |
| Dot.DrawnExactly | pkg/topology/gateway/graphviz.go:82-137 | drawn edges correspond one to one to the references between nodes that are no Namespaces; every end and cluster was created; from HTTPRoute to Service they are reversed, with the arrow back |
| Dot.NodesShown | pkg/topology/gateway/graphviz.go:44-105 | every node that is no Namespace has a drawing with its cluster, caption and colour, nothing else has one, and the clusters are those of nodes |
| Dot.EdgesShown | pkg/topology/gateway/graphviz.go:107-139 | every reference between two such nodes is drawn from the one that refers, with the name of the relation; from HTTPRoute to Service it is turned round with the arrow back; nothing else is drawn |
| Dot.NodesInOrder | pkg/topology/gateway/graphviz.go:55-85 | clusters alphabetically, nodes by kind, namespace and name |
| Dot.EdgesInOrder | pkg/topology/gateway/graphviz.go:107-117 | edges by what refers, name of the relation and what is referred to |
| Dot.DrawingIsUnique | pkg/topology/gateway/graphviz.go:33-35 | the output is deterministic if identities and relation names can be told apart |
| Dot.BuiltIsDistinguishable | pkg/topology/gateway/gateway.go:41-198 | which the six relations on a built graph allow |

## Left out

- Builder.Builder.Build: requires the depth plus one to be below 100000000, the code's stand-in for infinity.
- Topology.Graph.DeleteNode: the nested map is a flat one with pairs as keys, so it does not model that an emptied inner map goes as well.
- Topology.Graph.RemoveEdge: likewise for the inner maps of a relation.
- DirectlyAttachedPolicy.Execute: requires that policies are stored under their own identity, which `PolicyManager.Store` ensures.
- PolicyManager.PolicyManager.Store: takes constructed policies of one kind; finding the kinds and parsing policies is not modelled.
- Determinacy.DeterminedIff: speaks of plainly named policies of kinds whose policies are null-free and of the same shape; without that, `GatewayOverrides` and `BackendDefaults` still hold.
- Reruns.RunAgain: requires plain names, since otherwise the sorted slice of policies is not unique.
- Extensions.ExecuteAll: runs the four extensions that both commands pass, in their order, not an arbitrary list.
- EffectiveValues.RouteEffectiveValues: speaks of kinds whose policies are null-free and of the same shape; without that, `ChildValueSurvives` and `ParentOverrideSurvives` still hold.
- The fetchers are fixed functions; listing, paging and the network are not modelled.
- Conversion between unstructured and typed objects, with the panics on failure, and JSON text: objects come parsed.
- Creation times are natural numbers, 0 being Go's zero time; two times that differ only in their location count as equal.
- Strings are compared character by character, not as UTF-8 bytes.
- DeleteNodeUsingGKNN, MustAccessObject, UseRelationship for a single relation, IsAttachedTo with its defaulting, CRD labels and target references of policies.
- The text that the dot library writes, and the attributes of the whole drawing.
- Restoring the graph in the analyze command, printers, flags, logging and the commands themselves.
