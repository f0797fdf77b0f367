/** The objects, references and distances that the topology builder is about, as mathematical values. */
module Cluster {
  import opened Common
  import opened Topology

  /** The depth of a node that the search has not reached. */
  const INF := 100_000_000

  /** What the API server has to say about one kind of resource. */
  type Fetcher = GroupKind -> Result<seq<Resource>, string>

  function AtLeastZero(n: int): nat {
    if n < 0 then 0 else n
  }

  function Kinds(resources: seq<Resource>): set<GroupKind> {
    set i | 0 <= i < |resources| :: resources[i].id.GK()
  }

  function Ids(resources: seq<Resource>): set<GKNN> {
    set i | 0 <= i < |resources| :: resources[i].id
  }

  /** Relations connect kinds in either direction. */
  ghost function KindArcs(relations: seq<Relation>): iset<(GroupKind, GroupKind)> {
    (iset i | 0 <= i < |relations| :: (relations[i].from, relations[i].to)) +
    (iset i | 0 <= i < |relations| :: (relations[i].to, relations[i].from))
  }

  /** Namespaces are never expanded, GatewayClasses only if the search starts from them. */
  predicate MayExpand(k: GKNN, sources: set<GKNN>) {
    k.GK() != NAMESPACE_GK && (k.GK() == GATEWAY_CLASS_GK ==> k in sources)
  }

  /** Edges are followed in either direction, away from nodes that may be expanded. */
  ghost function NodeArcs(edges: set<Edge>, sources: set<GKNN>): iset<(GKNN, GKNN)> {
    (iset e | e in edges && MayExpand(e.src, sources) :: (e.src, e.dst)) +
    (iset e | e in edges && MayExpand(e.dst, sources) :: (e.dst, e.src))
  }

  /** The source objects; of two sources with the same identity the later one counts. */
  function SourceObjects(sources: seq<Resource>): (objects: map<GKNN, Resource>)
    ensures objects.Keys == Ids(sources)
  {
    if sources == [] then map[]
    else
      var last := sources[|sources| - 1];
      assert Ids(sources) == Ids(sources[..|sources| - 1]) + {last.id} by {
        assert forall i :: 0 <= i < |sources| - 1 ==> sources[..|sources| - 1][i] == sources[i];
      }
      SourceObjects(sources[..|sources| - 1])[last.id := last]
  }

  /** The last source of an identity is the one that counts. */
  lemma {:induction false} LastSourceCounts(sources: seq<Resource>, i: nat)
    requires i < |sources| && forall j :: i < j < |sources| ==> sources[j].id != sources[i].id
    ensures sources[i].id in SourceObjects(sources) && SourceObjects(sources)[sources[i].id] == sources[i]
  {
    if i < |sources| - 1 { LastSourceCounts(sources[..|sources| - 1], i); }
  }

  /** `objects` extended with the resources whose identity it does not have yet. */
  function AddMissing(objects: map<GKNN, Resource>, resources: seq<Resource>): map<GKNN, Resource>
  {
    if resources == [] then objects
    else
      var last := resources[|resources| - 1];
      var before := AddMissing(objects, resources[..|resources| - 1]);
      if last.id in before then before else before[last.id := last]
  }

  lemma AddMissingLast(objects: map<GKNN, Resource>, resources: seq<Resource>, r: Resource)
    ensures AddMissing(objects, resources + [r]) ==
            var m := AddMissing(objects, resources); if r.id in m then m else m[r.id := r]
  {
  }

  /** Everything fetched for `kinds`, in order, or the first error. */
  function FetchAll(fetch: Fetcher, kinds: seq<GroupKind>): Result<seq<Resource>, string>
  {
    if kinds == [] then Ok([])
    else match FetchAll(fetch, kinds[..|kinds| - 1])
      case Err(e) => Err(e)
      case Ok(rs) => match fetch(kinds[|kinds| - 1])
        case Err(e) => Err(e)
        case Ok(more) => Ok(rs + more)
  }

  lemma {:induction false} FetchErrorStays(fetch: Fetcher, kinds: seq<GroupKind>, i: nat)
    requires i <= |kinds| && FetchAll(fetch, kinds[..i]).Err?
    ensures FetchAll(fetch, kinds) == FetchAll(fetch, kinds[..i])
  {
    if i == |kinds| {
      assert kinds[..i] == kinds;
    } else {
      assert kinds[..|kinds| - 1][..i] == kinds[..i];
      FetchErrorStays(fetch, kinds[..|kinds| - 1], i);
    }
  }

  /** `e` is a reference of an object that resolves within `objects`. */
  ghost predicate IsEdge(relations: seq<Relation>, objects: map<GKNN, Resource>, e: Edge) {
    && e.rel in relations && e.src in objects && e.dst in objects
    && e.rel.from == e.src.GK() && e.dst in e.rel.neighborFunc(objects[e.src])
  }

  /** All references between `objects`. */
  ghost function AllEdges(relations: seq<Relation>, objects: map<GKNN, Resource>): set<Edge> {
    set s, i, j | s in objects && 0 <= i < |relations| && relations[i].from == s.GK()
               && 0 <= j < |relations[i].neighborFunc(objects[s])|
               && relations[i].neighborFunc(objects[s])[j] in objects
      :: Edge(s, relations[i], relations[i].neighborFunc(objects[s])[j])
  }

  lemma AllEdgesAreEdges(relations: seq<Relation>, objects: map<GKNN, Resource>, e: Edge)
    ensures e in AllEdges(relations, objects) <==> IsEdge(relations, objects, e)
  {
  }
}
