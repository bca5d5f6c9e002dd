/**
 The node's tree of endpoints, clusters and attributes, and its traversals along a
 path whose missing parts are wildcards.
 */
module Nodes {
  import opened Bytes

  datatype AttrValue = Int64(i: int) | Uint(k: nat, u: nat) | BoolValue(b: bool) | Custom

  datatype Attribute = Attribute(id: nat, value: AttrValue, quality: bv8, access: bv16)

  datatype Cluster = Cluster(id: nat, attributes: seq<Attribute>, dataVer: nat)

  type Endpoint = seq<Cluster>

  type Tree = seq<Option<Endpoint>>

  const ENDPTS_PER_ACC := 3

  /** The codes a traversal or a write can end with. */
  datatype Code =
    | Failure | UnsupportedAccess | UnsupportedEndpoint | UnsupportedAttribute | UnsupportedWrite
    | DataVersionMismatch | UnsupportedCluster | OtherCode(number: nat)

  datatype Path = Path(endpoint: Option<nat>, cluster: Option<nat>, leaf: Option<nat>) {
    predicate IsWildcard() {
      endpoint.None? || cluster.None? || leaf.None?
    }
  }

  /** What a traversal calls for every attribute it reaches. `S` is what the closure
      has captured; an error is a code. */
  type Visitor<!S> = (S, Path, Cluster) -> (S, Option<Code>)

  /** Single children by id, or all of them for a wildcard. */
  datatype Slice<T> = Slice(items: seq<T>, wildcard: bool)

  function AttributeAt(attrs: seq<Attribute>, id: nat): Option<nat> {
    Position(attrs, (a: Attribute) => a.id == id)
  }

  function ClusterAt(e: Endpoint, id: nat): Option<nat> {
    Position(e, (c: Cluster) => c.id == id)
  }

  function AttributesOf(c: Cluster, leaf: Option<nat>): Result<Slice<Attribute>, Code> {
    match leaf
    case None => Ok(Slice(c.attributes, true))
    case Some(l) =>
      match AttributeAt(c.attributes, l % 0x1_0000)
      case None => Err(UnsupportedAttribute)
      case Some(i) => Ok(Slice([c.attributes[i]], false))
  }

  function ClustersOf(e: Endpoint, cluster: Option<nat>): Result<Slice<Cluster>, Code> {
    match cluster
    case None => Ok(Slice(e, true))
    case Some(id) =>
      match ClusterAt(e, id)
      case None => Err(UnsupportedCluster)
      case Some(i) => Ok(Slice([e[i]], false))
  }

  /** The slice of endpoints comes with the id of its first one. */
  function EndpointsOf(node: Tree, endpoint: Option<nat>): Result<(Slice<Option<Endpoint>>, nat), Code> {
    match endpoint
    case None => Ok((Slice(node, true), 0))
    case Some(i) =>
      if i >= |node| || node[i].None? then Err(UnsupportedEndpoint) else Ok((Slice([node[i]], false), i))
  }

  // ---------------------------------------------------------------- the traversal as a function

  function EachAttribute<S>(attrs: Slice<Attribute>, p: Path, c: Cluster, s: S, f: Visitor<S>): (S, Option<Code>)
    decreases |attrs.items|
  {
    if attrs.items == [] then (s, None)
    else
      var (s', r) := f(s, p.(leaf := Some(attrs.items[0].id)), c);
      if r.Some? && !attrs.wildcard then (s', r) else EachAttribute(attrs.(items := attrs.items[1..]), p, c, s', f)
  }

  function InCluster<S>(c: Cluster, p: Path, s: S, f: Visitor<S>): (S, Option<Code>) {
    match AttributesOf(c, p.leaf)
    case Err(e) => (s, Some(e))
    case Ok(attrs) => EachAttribute(attrs, p, c, s, f)
  }

  function EachCluster<S>(clusters: Slice<Cluster>, p: Path, s: S, f: Visitor<S>): (S, Option<Code>)
    decreases |clusters.items|
  {
    if clusters.items == [] then (s, None)
    else
      var (s', r) := InCluster(clusters.items[0], p.(cluster := Some(clusters.items[0].id)), s, f);
      if r.Some? && !clusters.wildcard then (s', r) else EachCluster(clusters.(items := clusters.items[1..]), p, s', f)
  }

  function InEndpoint<S>(e: Endpoint, p: Path, s: S, f: Visitor<S>): (S, Option<Code>) {
    match ClustersOf(e, p.cluster)
    case Err(err) => (s, Some(err))
    case Ok(clusters) => EachCluster(clusters, p, s, f)
  }

  function EachEndpoint<S>(endpoints: Slice<Option<Endpoint>>, id: nat, p: Path, s: S, f: Visitor<S>): (S, Option<Code>)
    decreases |endpoints.items|
  {
    if endpoints.items == [] then (s, None)
    else
      var rest := endpoints.(items := endpoints.items[1..]);
      if endpoints.items[0].None? then EachEndpoint(rest, id + 1, p, s, f)
      else
        var (s', r) := InEndpoint(endpoints.items[0].value, p.(endpoint := Some(id)), s, f);
        if r.Some? && !endpoints.wildcard then (s', r) else EachEndpoint(rest, id + 1, p, s', f)
  }

  /** `for_each_attribute`. */
  function VisitAll<S>(node: Tree, p: Path, s: S, f: Visitor<S>): (S, Option<Code>) {
    match EndpointsOf(node, p.endpoint)
    case Err(e) => (s, Some(e))
    case Ok((endpoints, first)) => EachEndpoint(endpoints, first, p, s, f)
  }

  // ---------------------------------------------------------------- what is to be visited

  /** All attributes that match the path, in storage order, found by looking at every
      one of them. */
  function MatchingAttributes(attrs: seq<Attribute>, p: Path): seq<Path> {
    if attrs == [] then []
    else
      (if p.leaf.None? || attrs[0].id == p.leaf.value then [p.(leaf := Some(attrs[0].id))] else [])
      + MatchingAttributes(attrs[1..], p)
  }

  function MatchingClusters(e: Endpoint, p: Path): seq<Path> {
    if e == [] then []
    else
      (if p.cluster.None? || e[0].id == p.cluster.value then MatchingAttributes(e[0].attributes, p.(cluster := Some(e[0].id)))
       else [])
      + MatchingClusters(e[1..], p)
  }

  function MatchingEndpoints(es: Tree, id: nat, p: Path): seq<Path> {
    if es == [] then []
    else
      (if es[0].Some? && (p.endpoint.None? || p.endpoint.value == id) then MatchingClusters(es[0].value, p.(endpoint := Some(id)))
       else [])
      + MatchingEndpoints(es[1..], id + 1, p)
  }

  function Matching(node: Tree, p: Path): seq<Path> {
    MatchingEndpoints(node, 0, p)
  }

  /** The leaf of a path has 32 bits. That of an attribute path in a request has 16. */
  predicate ShortLeaf(p: Path) {
    p.leaf.Some? ==> p.leaf.value < 0x1_0000
  }

  predicate UniqueAttributes(attrs: seq<Attribute>) {
    forall i, j :: 0 <= i < j < |attrs| ==> attrs[i].id != attrs[j].id
  }

  predicate UniqueClusters(e: Endpoint) {
    (forall i, j :: 0 <= i < j < |e| ==> e[i].id != e[j].id) && forall i :: 0 <= i < |e| ==> UniqueAttributes(e[i].attributes)
  }

  predicate Unique(node: Tree) {
    forall i :: 0 <= i < |node| ==> node[i].Some? ==> UniqueClusters(node[i].value)
  }

  // ---------------------------------------------------------------- every match once

  /** A visitor that notes where it was; what it returns may depend on all of it. */
  function Noting(g: (seq<Path>, Path) -> Option<Code>): Visitor<seq<Path>> {
    (h: seq<Path>, p: Path, c: Cluster) => (h + [p], g(h, p))
  }

  /** How a non-wildcard path ends: with the part that is missing, or as the visitor says. */
  function Ending(node: Tree, p: Path, g: (seq<Path>, Path) -> Option<Code>): Option<Code> {
    if p.endpoint.None? then None
    else if p.endpoint.value >= |node| || node[p.endpoint.value].None? then Some(UnsupportedEndpoint)
    else EndingInEndpoint(node[p.endpoint.value].value, p, [], g)
  }

  function EndingInEndpoint(e: Endpoint, p: Path, h: seq<Path>, g: (seq<Path>, Path) -> Option<Code>): Option<Code> {
    if p.cluster.None? then None
    else
      match ClusterAt(e, p.cluster.value)
      case None => Some(UnsupportedCluster)
      case Some(i) => EndingInCluster(e[i], p, h, g)
  }

  function EndingInCluster(c: Cluster, p: Path, h: seq<Path>, g: (seq<Path>, Path) -> Option<Code>): Option<Code> {
    if p.leaf.None? then None
    else if AttributeAt(c.attributes, p.leaf.value).None? then Some(UnsupportedAttribute)
    else g(h, p)
  }

  lemma {:induction false} AttributesVisited(attrs: seq<Attribute>, p: Path, c: Cluster, h: seq<Path>, g: (seq<Path>, Path) -> Option<Code>)
    requires p.leaf.None?
    ensures EachAttribute(Slice(attrs, true), p, c, h, Noting(g)) == (h + MatchingAttributes(attrs, p), None)
  {
    if attrs == [] {
      assert h + [] == h;
    } else {
      var q := p.(leaf := Some(attrs[0].id));
      AttributesVisited(attrs[1..], p, c, h + [q], g);
      assert h + [q] + MatchingAttributes(attrs[1..], p) == h + MatchingAttributes(attrs, p);
    }
  }

  /** With unique ids the first attribute of an id is the only one. */
  lemma {:induction false} OneAttribute(attrs: seq<Attribute>, p: Path)
    requires UniqueAttributes(attrs) && p.leaf.Some?
    ensures MatchingAttributes(attrs, p) == if AttributeAt(attrs, p.leaf.value).Some? then [p] else []
  {
    if attrs != [] {
      var rest := attrs[1..];
      assert forall i :: 0 <= i < |rest| ==> rest[i] == attrs[i + 1];
      OneAttribute(rest, p);
      if attrs[0].id == p.leaf.value {
        assert AttributeAt(rest, p.leaf.value).None?;
        assert p.(leaf := Some(attrs[0].id)) == p;
      }
    }
  }

  lemma ClusterVisited(c: Cluster, p: Path, h: seq<Path>, g: (seq<Path>, Path) -> Option<Code>)
    requires UniqueAttributes(c.attributes) && ShortLeaf(p)
    ensures InCluster(c, p, h, Noting(g)) == (h + MatchingAttributes(c.attributes, p), EndingInCluster(c, p, h, g))
  {
    if p.leaf.None? {
      AttributesVisited(c.attributes, p, c, h, g);
    } else {
      OneAttribute(c.attributes, p);
      var i := AttributeAt(c.attributes, p.leaf.value);
      if i.Some? {
        assert p.(leaf := Some(c.attributes[i.value].id)) == p;
        OneVisited(c.attributes[i.value], p, c, h, g);
      } else {
        assert h + [] == h;
      }
    }
  }

  lemma OneVisited(a: Attribute, p: Path, c: Cluster, h: seq<Path>, g: (seq<Path>, Path) -> Option<Code>)
    ensures var q := p.(leaf := Some(a.id));
            EachAttribute(Slice([a], false), p, c, h, Noting(g)) == (h + [q], g(h, q))
  {
    assert [a][1..] == [];
  }

  lemma {:induction false} ClustersVisited(e: Endpoint, p: Path, h: seq<Path>, g: (seq<Path>, Path) -> Option<Code>)
    requires p.cluster.None? && UniqueClusters(e) && ShortLeaf(p)
    ensures EachCluster(Slice(e, true), p, h, Noting(g)) == (h + MatchingClusters(e, p), None)
  {
    hide InCluster, MatchingAttributes, UniqueAttributes, EndingInCluster;
    if e == [] {
      assert h + [] == h;
    } else {
      var rest := e[1..];
      assert forall i :: 0 <= i < |rest| ==> rest[i] == e[i + 1];
      var q := p.(cluster := Some(e[0].id));
      ClusterVisited(e[0], q, h, g);
      var here := MatchingAttributes(e[0].attributes, q);
      ClustersVisited(rest, p, h + here, g);
      assert EachCluster(Slice(e, true), p, h, Noting(g)) == EachCluster(Slice(rest, true), p, h + here, Noting(g));
      assert h + here + MatchingClusters(rest, p) == h + (here + MatchingClusters(rest, p));
    }
  }

  lemma {:induction false} OneCluster(e: Endpoint, p: Path)
    requires UniqueClusters(e) && p.cluster.Some?
    ensures var i := ClusterAt(e, p.cluster.value);
            MatchingClusters(e, p) == if i.Some? then MatchingAttributes(e[i.value].attributes, p) else []
  {
    if e != [] {
      var rest := e[1..];
      assert forall i :: 0 <= i < |rest| ==> rest[i] == e[i + 1];
      OneCluster(rest, p);
      if e[0].id == p.cluster.value {
        assert ClusterAt(rest, p.cluster.value).None?;
        assert p.(cluster := Some(e[0].id)) == p;
      }
    }
  }

  lemma OneClusterVisited(c: Cluster, p: Path, h: seq<Path>, g: (seq<Path>, Path) -> Option<Code>)
    requires p.cluster == Some(c.id)
    ensures EachCluster(Slice([c], false), p, h, Noting(g)) == InCluster(c, p, h, Noting(g))
  {
    hide InCluster;
    assert [c][1..] == [] && p.(cluster := Some(c.id)) == p;
  }

  lemma EndpointVisited(e: Endpoint, p: Path, h: seq<Path>, g: (seq<Path>, Path) -> Option<Code>)
    requires UniqueClusters(e) && ShortLeaf(p)
    ensures InEndpoint(e, p, h, Noting(g)) == (h + MatchingClusters(e, p), EndingInEndpoint(e, p, h, g))
  {
    hide InCluster;
    if p.cluster.None? {
      ClustersVisited(e, p, h, g);
    } else {
      OneCluster(e, p);
      var i := ClusterAt(e, p.cluster.value);
      if i.Some? {
        ClusterVisited(e[i.value], p, h, g);
        OneClusterVisited(e[i.value], p, h, g);
      } else {
        assert h + [] == h;
      }
    }
  }

  lemma {:induction false} EndpointsVisited(es: Tree, id: nat, p: Path, h: seq<Path>, g: (seq<Path>, Path) -> Option<Code>)
    requires p.endpoint.None? && Unique(es) && ShortLeaf(p)
    ensures EachEndpoint(Slice(es, true), id, p, h, Noting(g)) == (h + MatchingEndpoints(es, id, p), None)
  {
    hide InEndpoint, UniqueClusters, MatchingClusters, EndingInEndpoint;
    if es == [] {
      assert h + [] == h;
    } else {
      var rest := es[1..];
      assert forall i :: 0 <= i < |rest| ==> rest[i] == es[i + 1];
      if es[0].None? {
        assert [] + MatchingEndpoints(rest, id + 1, p) == MatchingEndpoints(rest, id + 1, p);
        EndpointsVisited(rest, id + 1, p, h, g);
      } else {
        var q := p.(endpoint := Some(id));
        EndpointVisited(es[0].value, q, h, g);
        var here := MatchingClusters(es[0].value, q);
        EndpointsVisited(rest, id + 1, p, h + here, g);
        assert EachEndpoint(Slice(es, true), id, p, h, Noting(g))
            == EachEndpoint(Slice(rest, true), id + 1, p, h + here, Noting(g));
        assert h + here + MatchingEndpoints(rest, id + 1, p) == h + (here + MatchingEndpoints(rest, id + 1, p));
      }
    }
  }

  lemma {:induction false} OneEndpoint(es: Tree, id: nat, p: Path)
    requires p.endpoint.Some?
    ensures MatchingEndpoints(es, id, p)
         == var i := p.endpoint.value - id;
            if 0 <= i < |es| && es[i].Some? then MatchingClusters(es[i].value, p) else []
  {
    hide MatchingClusters;
    if es != [] {
      var rest, i := es[1..], p.endpoint.value - id;
      OneEndpoint(rest, id + 1, p);
      if i == 0 {
        assert MatchingEndpoints(rest, id + 1, p) == [];
        assert p.(endpoint := Some(id)) == p;
      } else {
        assert [] + MatchingEndpoints(rest, id + 1, p) == MatchingEndpoints(rest, id + 1, p);
        assert 0 < i < |es| ==> es[i] == rest[i - 1];
      }
    }
  }

  lemma OneEndpointVisited(e: Option<Endpoint>, id: nat, p: Path, g: (seq<Path>, Path) -> Option<Code>)
    requires e.Some? && p.endpoint == Some(id)
    ensures EachEndpoint(Slice([e], false), id, p, [], Noting(g)) == InEndpoint(e.value, p, [], Noting(g))
  {
    hide InEndpoint;
    assert [e][1..] == [] && p.(endpoint := Some(id)) == p;
  }

  /** A traversal along the path of a request, whose attribute id has 16 bits, visits
      exactly the attributes that match it, once each in storage order, whatever the
      visitor returns; and an error comes out of it only where no wildcard encloses it. */
  lemma VisitsExactlyTheMatches(node: Tree, p: Path, g: (seq<Path>, Path) -> Option<Code>)
    requires Unique(node) && ShortLeaf(p)
    ensures VisitAll(node, p, [], Noting(g)) == (Matching(node, p), Ending(node, p, g))
  {
    hide InEndpoint, UniqueClusters, EndingInEndpoint, MatchingClusters;
    assert [] + Matching(node, p) == Matching(node, p);
    if p.endpoint.None? {
      EndpointsVisited(node, 0, p, [], g);
    } else {
      var i := p.endpoint.value;
      OneEndpoint(node, 0, p);
      if i < |node| && node[i].Some? {
        EndpointVisited(node[i].value, p, [], g);
        assert p.(endpoint := Some(i)) == p;
        OneEndpointVisited(node[i], i, p, g);
      }
    }
  }

  predicate Distinct(ps: seq<Path>) {
    forall i, j :: 0 <= i < j < |ps| ==> ps[i] != ps[j]
  }

  lemma {:induction false} AttributesDistinct(attrs: seq<Attribute>, p: Path)
    requires UniqueAttributes(attrs)
    ensures Distinct(MatchingAttributes(attrs, p))
    ensures forall q :: q in MatchingAttributes(attrs, p) ==>
              q.endpoint == p.endpoint && q.cluster == p.cluster
              && exists i :: 0 <= i < |attrs| && q.leaf == Some(attrs[i].id)
  {
    if attrs != [] {
      var rest := attrs[1..];
      assert forall i :: 0 <= i < |rest| ==> rest[i] == attrs[i + 1];
      AttributesDistinct(rest, p);
      var there := MatchingAttributes(rest, p);
      forall q | q in there
        ensures q.leaf != Some(attrs[0].id) && exists i :: 0 <= i < |attrs| && q.leaf == Some(attrs[i].id)
      {
        var i :| 0 <= i < |rest| && q.leaf == Some(rest[i].id);
        assert q.leaf == Some(attrs[i + 1].id);
      }
      assert forall j :: 0 <= j < |there| ==> there[j] in there;
    }
  }

  /** Lists of paths that differ in one part everywhere can be joined. */
  lemma DistinctConcat(a: seq<Path>, b: seq<Path>)
    requires Distinct(a) && Distinct(b) && forall p, q :: p in a && q in b ==> p != q
    ensures Distinct(a + b)
  {
    var c := a + b;
    forall i, j | 0 <= i < j < |c|
      ensures c[i] != c[j]
    {
      if i < |a| <= j {
        assert c[i] in a && c[j] in b;
      }
    }
  }

  lemma {:induction false} ClustersDistinct(e: Endpoint, p: Path)
    requires UniqueClusters(e)
    ensures Distinct(MatchingClusters(e, p))
    ensures forall q :: q in MatchingClusters(e, p) ==>
              q.endpoint == p.endpoint && exists i :: 0 <= i < |e| && q.cluster == Some(e[i].id)
  {
    hide MatchingAttributes, UniqueAttributes, Distinct;
    if e == [] {
      NoneDistinct();
    } else {
      var rest := e[1..];
      assert forall i :: 0 <= i < |rest| ==> rest[i] == e[i + 1];
      ClustersDistinct(rest, p);
      var q0 := p.(cluster := Some(e[0].id));
      AttributesDistinct(e[0].attributes, q0);
      NoneDistinct();
      var here := if p.cluster.None? || e[0].id == p.cluster.value then MatchingAttributes(e[0].attributes, q0) else [];
      var there := MatchingClusters(rest, p);
      forall q | q in there
        ensures q.cluster != Some(e[0].id) && exists i :: 0 <= i < |e| && q.cluster == Some(e[i].id)
      {
        var i :| 0 <= i < |rest| && q.cluster == Some(rest[i].id);
        assert q.cluster == Some(e[i + 1].id);
      }
      DistinctConcat(here, there);
    }
  }

  lemma NoneDistinct()
    ensures Distinct([])
  {
  }

  lemma {:induction false} EndpointsDistinct(es: Tree, id: nat, p: Path)
    requires Unique(es)
    ensures Distinct(MatchingEndpoints(es, id, p))
    ensures forall q :: q in MatchingEndpoints(es, id, p) ==> q.endpoint.Some? && q.endpoint.value >= id
  {
    hide MatchingClusters, UniqueClusters, Distinct;
    NoneDistinct();
    if es != [] {
      var rest := es[1..];
      assert forall i :: 0 <= i < |rest| ==> rest[i] == es[i + 1];
      EndpointsDistinct(rest, id + 1, p);
      if es[0].Some? {
        ClustersDistinct(es[0].value, p.(endpoint := Some(id)));
      }
      var here := if es[0].Some? && (p.endpoint.None? || p.endpoint.value == id)
                  then MatchingClusters(es[0].value, p.(endpoint := Some(id)))
                  else [];
      DistinctConcat(here, MatchingEndpoints(rest, id + 1, p));
    }
  }

  /** No attribute is visited twice. */
  lemma MatchesDistinct(node: Tree, p: Path)
    requires Unique(node)
    ensures Distinct(Matching(node, p))
  {
    EndpointsDistinct(node, 0, p);
  }

  // ---------------------------------------------------------------- leaves of more than 16 bits

  function CutLeaf(p: Path): Path {
    p.(leaf := if p.leaf.None? then None else Some(p.leaf.value % 0x1_0000))
  }

  lemma {:induction false} AttributesCut<S>(attrs: Slice<Attribute>, p: Path, c: Cluster, s: S, f: Visitor<S>)
    ensures EachAttribute(attrs, p, c, s, f) == EachAttribute(attrs, CutLeaf(p), c, s, f)
    decreases |attrs.items|
  {
    if attrs.items != [] {
      var q := p.(leaf := Some(attrs.items[0].id));
      assert CutLeaf(p).(leaf := Some(attrs.items[0].id)) == q;
      AttributesCut(attrs.(items := attrs.items[1..]), p, c, f(s, q, c).0, f);
    }
  }

  lemma {:induction false} ClustersCut<S>(clusters: Slice<Cluster>, p: Path, s: S, f: Visitor<S>)
    ensures EachCluster(clusters, p, s, f) == EachCluster(clusters, CutLeaf(p), s, f)
    decreases |clusters.items|
  {
    hide EachAttribute;
    if clusters.items != [] {
      var c := clusters.items[0];
      var q := p.(cluster := Some(c.id));
      assert CutLeaf(p).(cluster := Some(c.id)) == CutLeaf(q);
      assert AttributesOf(c, p.leaf) == AttributesOf(c, CutLeaf(p).leaf);
      if AttributesOf(c, p.leaf).Ok? {
        AttributesCut(AttributesOf(c, p.leaf).value, q, c, s, f);
      }
      ClustersCut(clusters.(items := clusters.items[1..]), p, InCluster(c, q, s, f).0, f);
    }
  }

  lemma {:induction false} EndpointsCut<S>(es: Slice<Option<Endpoint>>, id: nat, p: Path, s: S, f: Visitor<S>)
    ensures EachEndpoint(es, id, p, s, f) == EachEndpoint(es, id, CutLeaf(p), s, f)
    decreases |es.items|
  {
    hide EachCluster;
    if es.items != [] {
      var rest := es.(items := es.items[1..]);
      if es.items[0].None? {
        EndpointsCut(rest, id + 1, p, s, f);
      } else {
        var e := es.items[0].value;
        var q := p.(endpoint := Some(id));
        assert CutLeaf(p).(endpoint := Some(id)) == CutLeaf(q);
        if ClustersOf(e, p.cluster).Ok? {
          ClustersCut(ClustersOf(e, p.cluster).value, q, s, f);
        }
        EndpointsCut(rest, id + 1, p, InEndpoint(e, q, s, f).0, f);
      }
    }
  }

  /** A traversal goes where the leaf cut to 16 bits leads. */
  lemma CutAlike<S>(node: Tree, p: Path, s: S, f: Visitor<S>)
    ensures VisitAll(node, p, s, f) == VisitAll(node, CutLeaf(p), s, f)
  {
    hide EachEndpoint;
    if EndpointsOf(node, p.endpoint).Ok? {
      var (es, first) := EndpointsOf(node, p.endpoint).value;
      EndpointsCut(es, first, p, s, f);
    }
  }

  /** Attribute ids have 16 bits. */
  predicate ShortIds(node: Tree) {
    forall i, j, k :: 0 <= i < |node| && node[i].Some? && 0 <= j < |node[i].value| && 0 <= k < |node[i].value[j].attributes| ==>
      node[i].value[j].attributes[k].id < 0x1_0000
  }

  /** Some attribute on the endpoints and in the clusters of the path has this id. */
  predicate Reaches(node: Tree, p: Path, id: nat) {
    exists i, j, k :: 0 <= i < |node| && node[i].Some? && (p.endpoint.None? || p.endpoint.value == i)
      && 0 <= j < |node[i].value| && (p.cluster.None? || p.cluster.value == node[i].value[j].id)
      && 0 <= k < |node[i].value[j].attributes| && node[i].value[j].attributes[k].id == id
  }

  lemma {:induction false} AttributesMatch(attrs: seq<Attribute>, p: Path)
    requires p.leaf.Some?
    ensures MatchingAttributes(attrs, p) != [] <==> exists k :: 0 <= k < |attrs| && attrs[k].id == p.leaf.value
  {
    if attrs != [] {
      var rest := attrs[1..];
      AttributesMatch(rest, p);
      assert forall k :: 0 <= k < |rest| ==> rest[k] == attrs[k + 1];
      assert forall k :: 1 <= k < |attrs| ==> attrs[k] == rest[k - 1];
      if MatchingAttributes(rest, p) != [] {
        var k :| 0 <= k < |rest| && rest[k].id == p.leaf.value;
        assert attrs[k + 1].id == p.leaf.value;
      }
    }
  }

  predicate ClusterReaches(c: Cluster, p: Path)
    requires p.leaf.Some?
  {
    (p.cluster.None? || p.cluster.value == c.id)
    && exists k :: 0 <= k < |c.attributes| && c.attributes[k].id == p.leaf.value
  }

  predicate EndpointReaches(e: Endpoint, p: Path)
    requires p.leaf.Some?
  {
    exists j :: 0 <= j < |e| && ClusterReaches(e[j], p)
  }

  lemma {:induction false} ClustersMatch(e: Endpoint, p: Path)
    requires p.leaf.Some?
    ensures MatchingClusters(e, p) != [] <==> EndpointReaches(e, p)
  {
    hide ClusterReaches;
    if e != [] {
      var rest := e[1..];
      ClustersMatch(rest, p);
      OneClusterMatches(e[0], p);
      assert forall j :: 0 <= j < |rest| ==> rest[j] == e[j + 1];
      assert forall j :: 1 <= j < |e| ==> e[j] == rest[j - 1];
      if EndpointReaches(rest, p) {
        var j :| 0 <= j < |rest| && ClusterReaches(rest[j], p);
        assert ClusterReaches(e[j + 1], p);
      }
    }
  }

  lemma OneClusterMatches(c: Cluster, p: Path)
    requires p.leaf.Some?
    ensures (p.cluster.None? || c.id == p.cluster.value) && MatchingAttributes(c.attributes, p.(cluster := Some(c.id))) != []
       <==> ClusterReaches(c, p)
  {
    AttributesMatch(c.attributes, p.(cluster := Some(c.id)));
  }

  predicate SlotReaches(e: Option<Endpoint>, id: nat, p: Path)
    requires p.leaf.Some?
  {
    e.Some? && (p.endpoint.None? || p.endpoint.value == id) && EndpointReaches(e.value, p)
  }

  lemma {:induction false} EndpointsMatch(es: Tree, id: nat, p: Path)
    requires p.leaf.Some?
    ensures MatchingEndpoints(es, id, p) != [] <==> exists i :: 0 <= i < |es| && SlotReaches(es[i], id + i, p)
  {
    hide SlotReaches;
    if es != [] {
      var rest := es[1..];
      EndpointsMatch(rest, id + 1, p);
      OneSlotMatches(es[0], id, p);
      assert forall i :: 0 <= i < |rest| ==> rest[i] == es[i + 1];
      assert forall i :: 1 <= i < |es| ==> es[i] == rest[i - 1];
      if i :| 0 <= i < |rest| && SlotReaches(rest[i], id + 1 + i, p) {
        assert SlotReaches(es[i + 1], id + (i + 1), p);
      }
      if i :| 0 <= i < |es| && SlotReaches(es[i], id + i, p) {
        assert i > 0 ==> SlotReaches(rest[i - 1], id + 1 + (i - 1), p);
      }
    }
  }

  lemma OneSlotMatches(e: Option<Endpoint>, id: nat, p: Path)
    requires p.leaf.Some?
    ensures e.Some? && (p.endpoint.None? || p.endpoint.value == id) && MatchingClusters(e.value, p.(endpoint := Some(id))) != []
       <==> SlotReaches(e, id, p)
  {
    if e.Some? {
      ClustersMatch(e.value, p.(endpoint := Some(id)));
      forall c | c in e.value
        ensures ClusterReaches(c, p.(endpoint := Some(id))) == ClusterReaches(c, p)
      {
      }
    }
  }

  /** The path leads to some attribute exactly if one has its id. */
  lemma MatchesIffReaches(node: Tree, p: Path)
    requires p.leaf.Some?
    ensures Matching(node, p) != [] <==> Reaches(node, p, p.leaf.value)
  {
    EndpointsMatch(node, 0, p);
    if i :| 0 <= i < |node| && SlotReaches(node[i], 0 + i, p) {
      var j :| 0 <= j < |node[i].value| && ClusterReaches(node[i].value[j], p);
    }
    if Reaches(node, p, p.leaf.value) {
      var i, j, k :| 0 <= i < |node| && node[i].Some? && (p.endpoint.None? || p.endpoint.value == i)
        && 0 <= j < |node[i].value| && (p.cluster.None? || p.cluster.value == node[i].value[j].id)
        && 0 <= k < |node[i].value[j].attributes| && node[i].value[j].attributes[k].id == p.leaf.value;
      assert ClusterReaches(node[i].value[j], p);
      assert SlotReaches(node[i], 0 + i, p);
    }
  }

  /** For a path of any leaf, a traversal visits exactly the matches if and only if the
      leaf is missing or below 65536, or no attribute on the path has the id that is
      left when it is cut. Paths of requests meet the condition. */
  lemma VisitsMatchesIff(node: Tree, p: Path, g: (seq<Path>, Path) -> Option<Code>)
    requires Unique(node) && ShortIds(node)
    ensures VisitAll(node, p, [], Noting(g)).0 == Matching(node, p)
       <==> ShortLeaf(p) || !Reaches(node, p, p.leaf.value % 0x1_0000)
  {
    hide VisitAll, Unique, ShortIds, Reaches, Matching;
    CutAlike(node, p, [], Noting(g));
    VisitsExactlyTheMatches(node, CutLeaf(p), g);
    if ShortLeaf(p) {
      assert CutLeaf(p) == p;
    } else {
      MatchesIffReaches(node, CutLeaf(p));
      MatchesIffReaches(node, p);
      LongLeafReachesNothing(node, p);
      ReachesCut(node, p);
    }
  }

  /** The failing family at its first member: leaf 65536 visits attribute 0. */
  lemma LeafIsCut(a: Attribute, dataVer: nat, g: (seq<Path>, Path) -> Option<Code>)
    requires a.id == 0
    ensures var node: Tree := [Some([Cluster(6, [a], dataVer)])];
            var p := Path(Some(0), Some(6), Some(0x1_0000));
            VisitAll(node, p, [], Noting(g)).0 == [Path(Some(0), Some(6), Some(0))] && Matching(node, p) == []
  {
    var c := Cluster(6, [a], dataVer);
    var node: Tree := [Some([c])];
    var p := Path(Some(0), Some(6), Some(0x1_0000));
    var q := CutLeaf(p);
    CutAlike(node, p, [], Noting(g));
    VisitsExactlyTheMatches(node, q, g);
    MatchesIffReaches(node, p);
    assert [a][1..] == [] && [c][1..] == [] && node[1..] == [];
    assert MatchingAttributes([a], q) == [q] + MatchingAttributes([], q);
    assert MatchingClusters([c], q) == MatchingAttributes([a], q) + MatchingClusters([], q);
    assert MatchingEndpoints(node, 0, q) == MatchingClusters([c], q) + MatchingEndpoints([], 1, q);
  }

  lemma LongLeafReachesNothing(node: Tree, p: Path)
    requires ShortIds(node) && !ShortLeaf(p)
    ensures !Reaches(node, p, p.leaf.value)
  {
  }

  lemma ReachesCut(node: Tree, p: Path)
    requires p.leaf.Some?
    ensures Reaches(node, CutLeaf(p), p.leaf.value % 0x1_0000) == Reaches(node, p, p.leaf.value % 0x1_0000)
  {
  }

  // ---------------------------------------------------------------- the loops of the source

  class Node {
    const endpoints: array<Option<Endpoint>>

    ghost predicate Valid()
      reads this
    {
      endpoints.Length == ENDPTS_PER_ACC
    }

    constructor ()
      ensures Valid() && fresh(endpoints) && endpoints[..] == seq(ENDPTS_PER_ACC, i => None)
    {
      endpoints := new Option<Endpoint>[ENDPTS_PER_ACC](i => None);
    }

    method ForEachAttribute<S>(path: Path, s0: S, f: Visitor<S>) returns (s: S, r: Option<Code>)
      requires Valid()
      ensures (s, r) == VisitAll(endpoints[..], path, s0, f)
    {
      hide InEndpoint;
      s := s0;
      var slice := EndpointsOf(endpoints[..], path.endpoint);
      if slice.Err? {
        return s, Some(slice.error);
      }
      var (es, endpointId) := slice.value;
      var currentPath := path;
      for i := 0 to |es.items|
        invariant endpointId == slice.value.1 + i && currentPath.(endpoint := path.endpoint) == path
        invariant EachEndpoint(es, slice.value.1, path, s0, f)
               == EachEndpoint(es.(items := es.items[i..]), endpointId, path, s, f)
      {
        ghost var rest := es.items[i..];
        assert rest[1..] == es.items[i + 1..];
        if es.items[i].Some? {
          currentPath := currentPath.(endpoint := Some(endpointId));
          assert currentPath == path.(endpoint := Some(endpointId));
          var e;
          s, e := ForEachCluster(es.items[i].value, currentPath, s, f);
          if e.Some? && !es.wildcard {
            return s, e;
          }
        }
        endpointId := endpointId + 1;
      }
      return s, None;
    }

    method ForEachCluster<S>(endpoint: Endpoint, path: Path, s0: S, f: Visitor<S>) returns (s: S, r: Option<Code>)
      ensures (s, r) == InEndpoint(endpoint, path, s0, f)
    {
      hide InCluster;
      s := s0;
      var slice := ClustersOf(endpoint, path.cluster);
      if slice.Err? {
        return s, Some(slice.error);
      }
      var clusters := slice.value;
      var currentPath := path;
      for i := 0 to |clusters.items|
        invariant currentPath.(cluster := path.cluster) == path
        invariant EachCluster(clusters, path, s0, f) == EachCluster(clusters.(items := clusters.items[i..]), path, s, f)
      {
        ghost var rest := clusters.items[i..];
        assert rest[1..] == clusters.items[i + 1..];
        currentPath := currentPath.(cluster := Some(clusters.items[i].id));
        assert currentPath == path.(cluster := Some(clusters.items[i].id));
        var e;
        s, e := ForEachLeaf(clusters.items[i], currentPath, s, f);
        if e.Some? && !clusters.wildcard {
          return s, e;
        }
      }
      return s, None;
    }

    method ForEachLeaf<S>(cluster: Cluster, path: Path, s0: S, f: Visitor<S>) returns (s: S, r: Option<Code>)
      ensures (s, r) == InCluster(cluster, path, s0, f)
    {
      s := s0;
      var slice := AttributesOf(cluster, path.leaf);
      if slice.Err? {
        return s, Some(slice.error);
      }
      var attributes := slice.value;
      var currentPath := path;
      for i := 0 to |attributes.items|
        invariant currentPath.(leaf := path.leaf) == path
        invariant EachAttribute(attributes, path, cluster, s0, f)
               == EachAttribute(attributes.(items := attributes.items[i..]), path, cluster, s, f)
      {
        ghost var rest := attributes.items[i..];
        assert rest[1..] == attributes.items[i + 1..];
        currentPath := currentPath.(leaf := Some(attributes.items[i].id));
        assert currentPath == path.(leaf := Some(attributes.items[i].id));
        var (s', e) := f(s, currentPath, cluster);
        s := s';
        if e.Some? && !attributes.wildcard {
          return s, e;
        }
      }
      return s, None;
    }
  }
}
