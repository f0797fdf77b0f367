/** The relations between Gateway API resources (pkg/topology/gateway/gateway.go). */
module Gateway {
  import opened Common
  import opened Topology

  const DEFAULT_NAMESPACE := "default"

  // ---------------------------------------------------------------- what a resource refers to

  function NamespaceRef(r: Resource): GKNN {
    GKNN(NAMESPACE_GK.group, NAMESPACE_GK.kind, "", r.id.namespace)
  }

  function GatewayClassRef(r: Resource): GKNN {
    GKNN(GATEWAY_CLASS_GK.group, GATEWAY_CLASS_GK.kind, "", r.spec.gatewayClassName)
  }

  function ParentGateway(r: Resource, ref: ParentRef): GKNN {
    GKNN(GATEWAY_GK.group, GATEWAY_GK.kind,
         if ref.namespace.Some? then ref.namespace.value
         else if r.id.namespace == "" then DEFAULT_NAMESPACE
         else r.id.namespace,
         ref.name)
  }

  /** The Gateways that an HTTPRoute is attached to, one for each parentRef. */
  function ParentGateways(r: Resource): seq<GKNN> {
    seq(|r.spec.parentRefs|, i requires 0 <= i < |r.spec.parentRefs| => ParentGateway(r, r.spec.parentRefs[i]))
  }

  /** A backendRef without a kind refers to a Service; one without a namespace to that of the route. */
  function BackendId(r: Resource, ref: BackendRef): GKNN {
    GKNN(if ref.group.Some? then ref.group.value else "",
         if ref.kind.Some? then ref.kind.value else SERVICE_GK.kind,
         if ref.namespace.Some? then ref.namespace.value else r.id.namespace,
         ref.name)
  }

  /** A rule refers to a backend directly, or through a filter that mirrors requests. */
  predicate RuleRefersTo(rule: Rule, ref: BackendRef) {
    ref in rule.backendRefs || RequestMirror(Some(ref)) in rule.filters
  }

  /** What a reference of a route says, field by field. */
  predicate SaysBackend(r: Resource, ref: BackendRef, t: GKNN) {
    && t.name == ref.name
    && (match ref.group case Some(given) => t.group == given case None => t.group == "")
    && (match ref.kind case Some(given) => t.kind == given case None => t.kind == "Service")
    && (match ref.namespace case Some(given) => t.namespace == given case None => t.namespace == r.id.namespace)
  }

  /** The objects that the rules of an HTTPRoute refer to. */
  ghost predicate IsBackend(r: Resource, t: GKNN) {
    exists i, ref :: 0 <= i < |r.spec.rules| && RuleRefersTo(r.spec.rules[i], ref) && t == BackendId(r, ref)
  }

  /** Main result on parents: the namespace of a Gateway is the one given, or else that of the route, or else
      the default one. */
  lemma ParentGatewayFields(r: Resource, i: nat)
    requires i < |r.spec.parentRefs|
    ensures |ParentGateways(r)| == |r.spec.parentRefs|
    ensures var g, ref := ParentGateways(r)[i], r.spec.parentRefs[i];
      && g.group == "gateway.networking.k8s.io" && g.kind == "Gateway" && g.name == ref.name
      && (ref.namespace.Some? ==> g.namespace == ref.namespace.value)
      && (ref.namespace.None? && r.id.namespace != "" ==> g.namespace == r.id.namespace)
      && (ref.namespace.None? && r.id.namespace == "" ==> g.namespace == "default")
  {
  }

  method HTTPRouteParentGateways(httpRoute: Resource) returns (result: seq<GKNN>)
    ensures result == ParentGateways(httpRoute)
    ensures |result| == |httpRoute.spec.parentRefs|
    ensures forall i :: 0 <= i < |result| ==>
      && result[i].group == "gateway.networking.k8s.io" && result[i].kind == "Gateway"
      && result[i].name == httpRoute.spec.parentRefs[i].name
      && result[i].namespace ==
         match httpRoute.spec.parentRefs[i].namespace
         case Some(given) => given
         case None => if httpRoute.id.namespace != "" then httpRoute.id.namespace else "default"
  {
    result := [];
    for i := 0 to |httpRoute.spec.parentRefs|
      invariant |result| == i && forall j :: 0 <= j < i ==>
        result[j] == ParentGateway(httpRoute, httpRoute.spec.parentRefs[j])
    {
      var gatewayRef := httpRoute.spec.parentRefs[i];
      var namespace := httpRoute.id.namespace;
      if namespace == "" {
        namespace := DEFAULT_NAMESPACE;
      }
      if gatewayRef.namespace != None {
        namespace := gatewayRef.namespace.value;
      }
      result := result + [GKNN(GATEWAY_GK.group, GATEWAY_GK.kind, namespace, gatewayRef.name)];
    }
  }

  /** The backendRefs of one rule, in order. */
  method RuleBackendRefs(rule: Rule) returns (refs: seq<BackendRef>)
    ensures forall ref :: ref in refs <==> RuleRefersTo(rule, ref)
  {
    refs := rule.backendRefs;
    for i := 0 to |rule.filters|
      invariant forall ref :: ref in refs <==> ref in rule.backendRefs || RequestMirror(Some(ref)) in rule.filters[..i]
    {
      var filter := rule.filters[i];
      if filter.OtherFilter? {
        continue;
      }
      if filter.backendRef == None {
        continue;
      }
      refs := refs + [filter.backendRef.value];
    }
  }

  /** The backendRef `j` of the rule `i` says the object, or the filter `j` mirrors requests to it. */
  predicate SaidAt(r: Resource, i: int, j: int, t: GKNN) {
    && 0 <= i < |r.spec.rules| && 0 <= j < |r.spec.rules[i].backendRefs|
    && SaysBackend(r, r.spec.rules[i].backendRefs[j], t)
  }

  predicate MirroredAt(r: Resource, i: int, j: int, t: GKNN) {
    && 0 <= i < |r.spec.rules| && 0 <= j < |r.spec.rules[i].filters|
    && var filter := r.spec.rules[i].filters[j];
       filter.RequestMirror? && filter.backendRef.Some? && SaysBackend(r, filter.backendRef.value, t)
  }

  /** Main result on backends: an object is one exactly if a backendRef of a rule, or a mirror filter, says so. */
  lemma IsBackendIff(r: Resource, t: GKNN)
    ensures IsBackend(r, t) <==> exists i, j :: SaidAt(r, i, j, t) || MirroredAt(r, i, j, t)
  {
    forall ref ensures SaysBackend(r, ref, t) <==> t == BackendId(r, ref) {}
    hide SaysBackend, BackendId;
    if IsBackend(r, t) {
      var i, ref :| 0 <= i < |r.spec.rules| && RuleRefersTo(r.spec.rules[i], ref) && t == BackendId(r, ref);
      if ref in r.spec.rules[i].backendRefs {
        var j :| 0 <= j < |r.spec.rules[i].backendRefs| && r.spec.rules[i].backendRefs[j] == ref;
        assert SaidAt(r, i, j, t);
      } else {
        var j :| 0 <= j < |r.spec.rules[i].filters| && r.spec.rules[i].filters[j] == RequestMirror(Some(ref));
        assert MirroredAt(r, i, j, t);
      }
    }
    if i, j :| SaidAt(r, i, j, t) { assert RuleRefersTo(r.spec.rules[i], r.spec.rules[i].backendRefs[j]); }
    if i, j :| MirroredAt(r, i, j, t) {
      assert RuleRefersTo(r.spec.rules[i], r.spec.rules[i].filters[j].backendRef.value);
    }
  }

  /** Every backend once, in an arbitrary order. */
  method HTTPRouteBackends(httpRoute: Resource) returns (result: seq<GKNN>)
    ensures forall t :: t in result <==> IsBackend(httpRoute, t)
    ensures forall t :: t in result <==> exists i, j :: SaidAt(httpRoute, i, j, t) || MirroredAt(httpRoute, i, j, t)
    ensures forall i, j :: 0 <= i < j < |result| ==> result[i] != result[j]
  {
    var backendRefs: seq<BackendRef> := [];
    for i := 0 to |httpRoute.spec.rules|
      invariant forall ref :: ref in backendRefs <==>
        exists j :: 0 <= j < i && RuleRefersTo(httpRoute.spec.rules[j], ref)
    {
      var refs := RuleBackendRefs(httpRoute.spec.rules[i]);
      backendRefs := backendRefs + refs;
    }
    var resultSet: set<GKNN> := {};
    for i := 0 to |backendRefs|
      invariant resultSet == set j | 0 <= j < i :: BackendId(httpRoute, backendRefs[j])
    {
      resultSet := resultSet + {BackendId(httpRoute, backendRefs[i])};
    }
    result := [];
    var todo := resultSet;
    while todo != {}
      invariant todo <= resultSet && forall t :: t in result <==> t in resultSet - todo
      invariant forall i, j :: 0 <= i < j < |result| ==> result[i] != result[j]
    {
      var t :| t in todo;
      assert t !in result;
      result := result + [t];
      todo := todo - {t};
    }
    forall t ensures t in result <==> IsBackend(httpRoute, t) {
      if t in resultSet {
        var j :| 0 <= j < |backendRefs| && t == BackendId(httpRoute, backendRefs[j]);
        assert backendRefs[j] in backendRefs;
      }
      if IsBackend(httpRoute, t) {
        var i, ref :| 0 <= i < |httpRoute.spec.rules| && RuleRefersTo(httpRoute.spec.rules[i], ref)
          && t == BackendId(httpRoute, ref);
        assert ref in backendRefs;
      }
    }
    forall t { IsBackendIff(httpRoute, t); }
  }

  // ---------------------------------------------------------------- the relations

  function MirrorRefs(filters: seq<Filter>): seq<BackendRef> {
    if filters == [] then []
    else
      (if filters[0].RequestMirror? && filters[0].backendRef.Some? then [filters[0].backendRef.value] else [])
      + MirrorRefs(filters[1..])
  }

  function AllBackendRefs(rules: seq<Rule>): seq<BackendRef> {
    if rules == [] then [] else rules[0].backendRefs + MirrorRefs(rules[0].filters) + AllBackendRefs(rules[1..])
  }

  /** The backends of an HTTPRoute as a list; one that is referred to twice is listed twice. */
  function BackendList(r: Resource): seq<GKNN> {
    var refs := AllBackendRefs(r.spec.rules);
    seq(|refs|, i requires 0 <= i < |refs| => BackendId(r, refs[i]))
  }

  lemma {:induction false} MirrorRefsMembers(filters: seq<Filter>, ref: BackendRef)
    ensures ref in MirrorRefs(filters) <==> RequestMirror(Some(ref)) in filters
  {
    if filters != [] { MirrorRefsMembers(filters[1..], ref); }
  }

  lemma {:induction false} AllBackendRefsMembers(rules: seq<Rule>, ref: BackendRef)
    ensures ref in AllBackendRefs(rules) <==> exists i :: 0 <= i < |rules| && RuleRefersTo(rules[i], ref)
  {
    if rules != [] {
      MirrorRefsMembers(rules[0].filters, ref);
      AllBackendRefsMembers(rules[1..], ref);
      if ref in AllBackendRefs(rules[1..]) {
        var i :| 0 <= i < |rules[1..]| && RuleRefersTo(rules[1..][i], ref);
        assert RuleRefersTo(rules[i + 1], ref);
      }
      if i :| 0 < i < |rules| && RuleRefersTo(rules[i], ref) {
        assert RuleRefersTo(rules[1..][i - 1], ref);
      }
    }
  }

  lemma BackendListMembers(r: Resource, t: GKNN)
    ensures t in BackendList(r) <==> IsBackend(r, t)
  {
    var refs := AllBackendRefs(r.spec.rules);
    if t in BackendList(r) {
      var i :| 0 <= i < |refs| && t == BackendId(r, refs[i]);
      AllBackendRefsMembers(r.spec.rules, refs[i]);
    }
    if IsBackend(r, t) {
      var i, ref :| 0 <= i < |r.spec.rules| && RuleRefersTo(r.spec.rules[i], ref) && t == BackendId(r, ref);
      AllBackendRefsMembers(r.spec.rules, ref);
      var j :| 0 <= j < |refs| && refs[j] == ref;
      assert BackendList(r)[j] == t;
    }
  }

  /** The six relations. */
  class Relations {
    const gatewayClass: Relation
    const parentRef: Relation
    const backendRef: Relation
    const gatewayNamespace: Relation
    const httpRouteNamespace: Relation
    const backendNamespace: Relation

    constructor ()
      ensures Valid()
    {
      gatewayClass := new Relation(GATEWAY_GK, GATEWAY_CLASS_GK, "GatewayClass", r => [GatewayClassRef(r)]);
      parentRef := new Relation(HTTP_ROUTE_GK, GATEWAY_GK, "ParentRef", r => ParentGateways(r));
      backendRef := new Relation(HTTP_ROUTE_GK, SERVICE_GK, "BackendRef", r => BackendList(r));
      gatewayNamespace := new Relation(GATEWAY_GK, NAMESPACE_GK, "Namespace", r => [NamespaceRef(r)]);
      httpRouteNamespace := new Relation(HTTP_ROUTE_GK, NAMESPACE_GK, "Namespace", r => [NamespaceRef(r)]);
      backendNamespace := new Relation(SERVICE_GK, NAMESPACE_GK, "Namespace", r => [NamespaceRef(r)]);
      new;
      forall r, t ensures t in backendRef.neighborFunc(r) <==> IsBackend(r, t) { BackendListMembers(r, t); }
    }

    function All(): seq<Relation> {
      [gatewayClass, parentRef, backendRef, gatewayNamespace, httpRouteNamespace, backendNamespace]
    }

    ghost predicate Valid() {
      && gatewayClass.from == GATEWAY_GK && gatewayClass.to == GATEWAY_CLASS_GK
      && parentRef.from == HTTP_ROUTE_GK && parentRef.to == GATEWAY_GK
      && backendRef.from == HTTP_ROUTE_GK && backendRef.to == SERVICE_GK
      && gatewayNamespace.from == GATEWAY_GK && gatewayNamespace.to == NAMESPACE_GK
      && httpRouteNamespace.from == HTTP_ROUTE_GK && httpRouteNamespace.to == NAMESPACE_GK
      && backendNamespace.from == SERVICE_GK && backendNamespace.to == NAMESPACE_GK
      && (forall r :: gatewayClass.neighborFunc(r) == [GatewayClassRef(r)])
      && (forall r :: parentRef.neighborFunc(r) == ParentGateways(r))
      && (forall r, t :: t in backendRef.neighborFunc(r) <==> IsBackend(r, t))
      && (forall r :: gatewayNamespace.neighborFunc(r) == [NamespaceRef(r)])
      && (forall r :: httpRouteNamespace.neighborFunc(r) == [NamespaceRef(r)])
      && (forall r :: backendNamespace.neighborFunc(r) == [NamespaceRef(r)])
      && gatewayClass.name == "GatewayClass" && parentRef.name == "ParentRef" && backendRef.name == "BackendRef"
      && gatewayNamespace.name == httpRouteNamespace.name == backendNamespace.name == "Namespace"
    }
  }

  /** Main result on the relations: from which kind to which, and what they name, field by field. */
  lemma RelationFields(rels: Relations, r: Resource)
    requires rels.Valid()
    ensures rels.gatewayClass.from == rels.gatewayNamespace.from == GroupKind("gateway.networking.k8s.io", "Gateway")
    ensures rels.parentRef.from == rels.backendRef.from == rels.httpRouteNamespace.from
      == GroupKind("gateway.networking.k8s.io", "HTTPRoute")
    ensures rels.backendNamespace.from == rels.backendRef.to == GroupKind("", "Service")
    ensures rels.parentRef.to == GroupKind("gateway.networking.k8s.io", "Gateway")
    ensures rels.gatewayClass.to == GroupKind("gateway.networking.k8s.io", "GatewayClass")
    ensures rels.gatewayNamespace.to == rels.httpRouteNamespace.to == GroupKind("", "Namespace")
    ensures rels.backendNamespace.to == GroupKind("", "Namespace")
    ensures rels.gatewayClass.neighborFunc(r) ==
      [GKNN("gateway.networking.k8s.io", "GatewayClass", "", r.spec.gatewayClassName)]
    ensures forall rel :: rel in {rels.gatewayNamespace, rels.httpRouteNamespace, rels.backendNamespace} ==>
      rel.neighborFunc(r) == [GKNN("", "Namespace", "", r.id.namespace)]
    ensures rels.parentRef.neighborFunc(r) == ParentGateways(r)
    ensures forall t :: t in rels.backendRef.neighborFunc(r) <==> IsBackend(r, t)
  {
    hide IsBackend;
  }
}
