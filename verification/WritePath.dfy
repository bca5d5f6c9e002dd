/**
 Write requests on clusters that use the default write: path expansion, conditional
 writes against a data version, and the statuses that answer them. Access is decided
 by the access control list.
 */
module WritePaths {
  import opened Bytes
  import Tlv
  import TlvParser
  import Acls
  import opened Nodes

  const VERSIONS := 0x1_0000_0000
  const FIXED: bv8 := 0x03

  /** The answer to one write; no code means success. */
  datatype Status = Status(path: Path, code: Option<Code>)

  /** `AttrWriteEncoder`: the path it reports under, whether it keeps errors to
      itself, and what it has written. */
  datatype Encoder = Encoder(path: Path, skipError: bool, out: seq<Status>) {
    function EncodeStatus(code: Option<Code>): Encoder {
      if skipError && code.Some? then this else this.(out := out + [Status(path, code)])
    }
  }

  /** One write of a request: the path, the data version it depends on, and the data. */
  datatype AttrData = AttrData(path: Path, dataVer: Option<nat>, data: Tlv.Element)

  /** Who writes, and the list that says what is allowed. */
  datatype Context = Context(acl: Acls.Entries, accessor: Acls.Accessor)

  // ---------------------------------------------------------------- one cluster

  function UpdateFromTlv(v: AttrValue, e: Tlv.Element): Result<AttrValue, Error> {
    match v
    case BoolValue(_) => (match TlvParser.GetBool(e) case Ok(b) => Ok(BoolValue(b)) case Err(err) => Err(err))
    case Uint(k, _) => (match TlvParser.GetUnsigned(e, k) case Ok(u) => Ok(Uint(k, u)) case Err(err) => Err(err))
    case _ => Err(AttributeNotFound)
  }

  function Changed(c: Cluster): Cluster {
    c.(dataVer := (c.dataVer + 1) % VERSIONS)
  }

  datatype Wrote = Wrote(c: Cluster, code: Option<Code>)

  /** `write_attribute_from_tlv`, for an attribute that is there. */
  function WriteFromTlv(c: Cluster, i: nat, data: Tlv.Element): Wrote
    requires i < |c.attributes|
  {
    var a := c.attributes[i];
    if a.value.Custom? then Wrote(c, Some(UnsupportedAttribute))
    else
      var v := UpdateFromTlv(a.value, data);
      if v.Err? then Wrote(c, Some(Failure))
      else if a.quality & FIXED == FIXED then Wrote(c, Some(UnsupportedWrite))
      else Wrote(Changed(c.(attributes := c.attributes[i := a.(value := v.value)])), None)
  }

  /** `Cluster::write_attribute` with the default write. */
  function WriteAttribute(c: Cluster, p: Path, data: Tlv.Element, x: Context): Wrote {
    var attrId := (if p.leaf.Some? then p.leaf.value else 0) % 0x1_0000;
    match AttributeAt(c.attributes, attrId)
    case None => Wrote(c, Some(UnsupportedAttribute))
    case Some(i) =>
      var access := c.attributes[i].access;
      if access & Acls.WRITE != Acls.WRITE then Wrote(c, Some(UnsupportedWrite))
      else if !Acls.Allow(x.acl, x.accessor, Acls.AccessDesc(p.endpoint, p.cluster, Some(access), Acls.WRITE))
      then Wrote(c, Some(UnsupportedAccess))
      else WriteFromTlv(c, i, data)
  }

  /** The closure that runs for a cluster on the path. */
  function VisitCluster(c: Cluster, p: Path, w: AttrData, x: Context, enc: Encoder): (Cluster, Encoder) {
    if w.dataVer.Some? && w.dataVer.value != c.dataVer then (c, enc.EncodeStatus(Some(DataVersionMismatch)))
    else
      var r := WriteAttribute(c, p, w.data, x);
      (r.c, enc.(path := p).EncodeStatus(r.code))
  }

  // ---------------------------------------------------------------- one path

  datatype Ran<T> = Ran(t: T, enc: Encoder, error: Option<Code>)

  /** A path reaches this with a concrete cluster. */
  function WriteEndpoint(e: Endpoint, p: Path, w: AttrData, x: Context, enc: Encoder): Ran<Endpoint>
    requires p.cluster.Some?
  {
    match ClusterAt(e, p.cluster.value)
    case None => Ran(e, enc, Some(UnsupportedCluster))
    case Some(j) =>
      var (c, enc') := VisitCluster(e[j], p, w, x, enc);
      Ran(e[j := c], enc', None)
  }

  /** All endpoints from `id` on, errors of single ones ignored. */
  function WriteEndpoints(node: Tree, id: nat, p: Path, w: AttrData, x: Context, enc: Encoder): (r: (Tree, Encoder))
    requires p.cluster.Some? && id <= |node|
    ensures |r.0| == |node|
    decreases |node| - id
  {
    if id == |node| then (node, enc)
    else if node[id].None? then WriteEndpoints(node, id + 1, p, w, x, enc)
    else
      var r := WriteEndpoint(node[id].value, p.(endpoint := Some(id)), w, x, enc);
      WriteEndpoints(node[id := Some(r.t)], id + 1, p, w, x, r.enc)
  }

  /** `for_each_cluster_mut` with that closure. */
  function WriteNode(node: Tree, p: Path, w: AttrData, x: Context, enc: Encoder): Ran<Tree>
    requires p.cluster.Some?
  {
    match p.endpoint
    case None =>
      var (node', enc') := WriteEndpoints(node, 0, p, w, x, enc);
      Ran(node', enc', None)
    case Some(i) =>
      if i >= |node| || node[i].None? then Ran(node, enc, Some(UnsupportedEndpoint))
      else
        var r := WriteEndpoint(node[i].value, p, w, x, enc);
        Ran(node[i := Some(r.t)], r.enc, r.error)
  }

  /** `handle_write_attr_path`. */
  function HandleWrite(node: Tree, w: AttrData, x: Context): (Tree, seq<Status>) {
    var enc := Encoder(w.path, false, []);
    if w.path.cluster.None? then (node, enc.EncodeStatus(Some(UnsupportedCluster)).out)
    else if w.path.leaf.None? then (node, enc.EncodeStatus(Some(UnsupportedAttribute)).out)
    else
      var r := WriteNode(node, w.path, w, x, enc.(skipError := w.path.IsWildcard()));
      (r.t, (if r.error.Some? then r.enc.EncodeStatus(r.error) else r.enc).out)
  }

  /** A whole write request. */
  function HandleAll(node: Tree, ws: seq<AttrData>, x: Context): (Tree, seq<Status>)
    decreases |ws|
  {
    if ws == [] then (node, [])
    else
      var (node', out) := HandleWrite(node, ws[0], x);
      var (node'', rest) := HandleAll(node', ws[1..], x);
      (node'', out + rest)
  }

  // ---------------------------------------------------------------- versions count successes

  /** The successes among the answers for one cluster of one endpoint. */
  function Successes(out: seq<Status>, endpoint: nat, cluster: nat): (n: nat)
    ensures n <= |out|
  {
    if out == [] then 0
    else
      (if out[0].code.None? && out[0].path.endpoint == Some(endpoint) && out[0].path.cluster == Some(cluster) then 1 else 0)
      + Successes(out[1..], endpoint, cluster)
  }

  lemma {:induction false} SuccessesConcat(a: seq<Status>, b: seq<Status>, endpoint: nat, cluster: nat)
    ensures Successes(a + b, endpoint, cluster) == Successes(a, endpoint, cluster) + Successes(b, endpoint, cluster)
  {
    if a == [] {
      assert a + b == b;
    } else {
      assert (a + b)[1..] == a[1..] + b;
      SuccessesConcat(a[1..], b, endpoint, cluster);
    }
  }

  /** `n` changes: none leaves the cluster as it is, and each counts once. */
  predicate Advanced(c: Cluster, d: Cluster, n: nat) {
    d.id == c.id && (if n == 0 then d == c else d.dataVer == (c.dataVer + n) % VERSIONS)
  }

  lemma AdvancedThen(c: Cluster, d: Cluster, e: Cluster, m: nat, n: nat)
    requires Advanced(c, d, m) && Advanced(d, e, n)
    ensures Advanced(c, e, m + n)
  {
    if m > 0 && n > 0 {
      var q := (c.dataVer + m) / VERSIONS;
      assert c.dataVer + m == q * VERSIONS + d.dataVer;
      assert c.dataVer + m + n == q * VERSIONS + (d.dataVer + n);
      ModShift(q, d.dataVer + n);
    }
  }

  lemma ModShift(q: nat, n: nat)
    ensures (q * VERSIONS + n) % VERSIONS == n % VERSIONS
  {
  }

  /** Every cluster advanced by the successes that were reported for it. */
  ghost predicate Tracked(t: Tree, u: Tree, out: seq<Status>) {
    |u| == |t| && forall i :: 0 <= i < |t| ==> EndpointTracked(t[i], u[i], i, out)
  }

  ghost predicate EndpointTracked(e: Option<Endpoint>, f: Option<Endpoint>, i: nat, out: seq<Status>) {
    e.Some? == f.Some?
    && (e.Some? ==>
        |f.value| == |e.value|
        && forall j :: 0 <= j < |e.value| ==> Advanced(e.value[j], f.value[j], Successes(out, i, e.value[j].id)))
  }

  predicate UniqueIds(t: Tree) {
    forall i :: 0 <= i < |t| ==> t[i].Some? ==> DistinctIds(t[i].value)
  }

  predicate DistinctIds(e: Endpoint) {
    forall j, k :: 0 <= j < k < |e| ==> e[j].id != e[k].id
  }

  lemma TrackedThen(t: Tree, u: Tree, v: Tree, a: seq<Status>, b: seq<Status>)
    requires Tracked(t, u, a) && Tracked(u, v, b)
    ensures Tracked(t, v, a + b)
  {
    hide Advanced;
    forall i | 0 <= i < |t|
      ensures EndpointTracked(t[i], v[i], i, a + b)
    {
      assert EndpointTracked(t[i], u[i], i, a) && EndpointTracked(u[i], v[i], i, b);
      EndpointTrackedThen(t[i], u[i], v[i], i, a, b);
    }
  }

  lemma EndpointTrackedThen(e: Option<Endpoint>, f: Option<Endpoint>, g: Option<Endpoint>, i: nat, a: seq<Status>, b: seq<Status>)
    requires EndpointTracked(e, f, i, a) && EndpointTracked(f, g, i, b)
    ensures EndpointTracked(e, g, i, a + b)
  {
    if e.Some? {
      forall j | 0 <= j < |e.value|
        ensures Advanced(e.value[j], g.value[j], Successes(a + b, i, e.value[j].id))
      {
        var c := e.value[j];
        assert f.value[j].id == c.id;
        SuccessesConcat(a, b, i, c.id);
        AdvancedThen(c, f.value[j], g.value[j], Successes(a, i, c.id), Successes(b, i, c.id));
      }
    }
  }

  lemma TrackedKeepsIds(t: Tree, u: Tree, out: seq<Status>)
    requires Tracked(t, u, out) && UniqueIds(t)
    ensures UniqueIds(u)
  {
    forall i | 0 <= i < |u| && u[i].Some?
      ensures DistinctIds(u[i].value)
    {
      assert EndpointTracked(t[i], u[i], i, out);
    }
  }

  /** A write that succeeds changes the version by one; one that fails changes nothing. */
  lemma WriteCounts(c: Cluster, p: Path, data: Tlv.Element, x: Context)
    ensures var r := WriteAttribute(c, p, data, x);
            Advanced(c, r.c, if r.code.None? then 1 else 0)
  {
    hide Acls.Allow, UpdateFromTlv;
  }

  /** The attribute may be written: it is there, takes writes, the access control
      list lets this accessor write it, it holds a value of a supported type, and
      its quality is not FIXED. */
  predicate Writable(c: Cluster, p: Path, x: Context) {
    p.leaf.Some? &&
    var at := AttributeAt(c.attributes, p.leaf.value % 0x1_0000);
    at.Some? &&
    var a := c.attributes[at.value];
    a.access & Acls.WRITE == Acls.WRITE
    && Acls.Allow(x.acl, x.accessor, Acls.AccessDesc(p.endpoint, p.cluster, Some(a.access), Acls.WRITE))
    && (a.value.Uint? || a.value.BoolValue?) && a.quality & FIXED != FIXED
  }

  /** A write succeeds exactly if the attribute may be written and the data is of its
      type, and then it stores that data in the attribute and nowhere else. */
  lemma WriteStores(c: Cluster, p: Path, data: Tlv.Element, x: Context)
    requires p.leaf.Some?
    ensures var r := WriteAttribute(c, p, data, x);
            (r.code.None? <==>
              Writable(c, p, x)
              && match c.attributes[AttributeAt(c.attributes, p.leaf.value % 0x1_0000).value].value
                 case Uint(k, _) => data.val.UInt? && data.val.k <= k
                 case _ => data.val.Bool?)
            && (r.code.None? ==>
              var i := AttributeAt(c.attributes, p.leaf.value % 0x1_0000).value;
              var a := c.attributes[i];
              r.c.attributes[i] == a.(value := if a.value.Uint? then Uint(a.value.k, data.val.u) else BoolValue(data.val.b))
              && |r.c.attributes| == |c.attributes|
              && forall j :: 0 <= j < |c.attributes| && j != i ==> r.c.attributes[j] == c.attributes[j])
  {
    hide Acls.Allow;
  }

  /** What a visit adds to the answers. */
  lemma VisitCounts(c: Cluster, p: Path, w: AttrData, x: Context, enc: Encoder)
    requires p.cluster == Some(c.id)
    ensures var (d, enc') := VisitCluster(c, p, w, x, enc);
            enc.out <= enc'.out && enc'.skipError == enc.skipError
            && var added := enc'.out[|enc.out|..];
            |added| <= 1 && (!enc.skipError ==> |added| == 1) && (enc.skipError ==> forall s :: s in added ==> s.code.None?)
            && Advanced(c, d, if added != [] && added[0].code.None? then 1 else 0)
            && (added != [] && added[0].code.None? ==> added[0].path == p)
            && (w.dataVer.Some? && w.dataVer.value != c.dataVer ==> d == c && forall s :: s in added ==> s.code == Some(DataVersionMismatch))
  {
    hide WriteAttribute, Advanced;
    WriteCounts(c, p, w.data, x);
    NothingAdvanced(c);
    var (d, enc') := VisitCluster(c, p, w, x, enc);
    assert enc'.out[|enc.out|..] == if enc'.out == enc.out then [] else [enc'.out[|enc.out|]];
  }

  lemma NothingAdvanced(c: Cluster)
    ensures Advanced(c, c, 0)
  {
  }

  /** What one endpoint adds to the answers: nothing, or one answer under its path. */
  predicate Answered(enc: Encoder, after: Encoder, added: seq<Status>, p: Path) {
    after.out == enc.out + added && after.skipError == enc.skipError && |added| <= 1
    && (enc.skipError ==> forall s :: s in added ==> s.code.None?)
    && forall s :: s in added ==> s.code.None? ==> s.path == p
  }

  lemma EndpointAnswers(e: Endpoint, i: nat, p: Path, w: AttrData, x: Context, enc: Encoder) returns (added: seq<Status>)
    requires p.endpoint == Some(i) && p.cluster.Some? && DistinctIds(e)
    ensures var r := WriteEndpoint(e, p, w, x, enc);
            Answered(enc, r.enc, added, p) && EndpointTracked(Some(e), Some(r.t), i, added)
            && (r.error.Some? ==> added == []) && (r.error.None? && !enc.skipError ==> |added| == 1)
            && (forall j :: 0 <= j < |e| && w.dataVer.Some? && w.dataVer.value != e[j].dataVer ==> r.t[j] == e[j])
  {
    hide VisitCluster, Advanced;
    var r := WriteEndpoint(e, p, w, x, enc);
    var at := ClusterAt(e, p.cluster.value);
    forall c: Cluster
      ensures Advanced(c, c, 0)
    {
      NothingAdvanced(c);
    }
    if at.None? {
      added := [];
      assert enc.out + [] == enc.out;
    } else {
      var j := at.value;
      VisitCounts(e[j], p, w, x, enc);
      added := r.enc.out[|enc.out|..];
      assert enc.out + added == r.enc.out;
      forall k | 0 <= k < |e|
        ensures Advanced(e[k], r.t[k], Successes(added, i, e[k].id))
      {
        OneSuccess(added, i, p, e[k].id);
      }
    }
  }

  lemma OneSuccess(added: seq<Status>, i: nat, p: Path, id: nat)
    requires |added| <= 1 && p.endpoint == Some(i) && (added != [] && added[0].code.None? ==> added[0].path == p)
    ensures Successes(added, i, id) == if added != [] && added[0].code.None? && p.cluster == Some(id) then 1 else 0
  {
    assert added != [] ==> added[1..] == [];
  }

  /** The answers for one endpoint do not count for another. */
  lemma NoSuccessElsewhere(added: seq<Status>, i: nat, k: nat, p: Path, id: nat)
    requires |added| <= 1 && p.endpoint == Some(i) && k != i && forall s :: s in added ==> s.code.None? ==> s.path == p
    ensures Successes(added, k, id) == 0
  {
    if added != [] {
      assert added[0] in added && added[1..] == [];
    }
  }

  lemma EndpointTracks(node: Tree, i: nat, p: Path, w: AttrData, x: Context, enc: Encoder) returns (added: seq<Status>)
    requires p.endpoint == Some(i) && p.cluster.Some? && i < |node| && node[i].Some? && UniqueIds(node)
    ensures var r := WriteEndpoint(node[i].value, p, w, x, enc);
            Answered(enc, r.enc, added, p) && Tracked(node, node[i := Some(r.t)], added)
            && (r.error.Some? ==> added == []) && (r.error.None? && !enc.skipError ==> |added| == 1)
            && StaleKept(node, node[i := Some(r.t)], w)
  {
    hide WriteEndpoint, Advanced;
    added := EndpointAnswers(node[i].value, i, p, w, x, enc);
    var r := WriteEndpoint(node[i].value, p, w, x, enc);
    var u := node[i := Some(r.t)];
    forall k | 0 <= k < |node|
      ensures EndpointTracked(node[k], u[k], k, added)
    {
      if k != i && node[k].Some? {
        forall j | 0 <= j < |node[k].value|
          ensures Advanced(node[k].value[j], u[k].value[j], Successes(added, k, node[k].value[j].id))
        {
          NoSuccessElsewhere(added, i, k, p, node[k].value[j].id);
          NothingAdvanced(node[k].value[j]);
        }
      }
    }
    forall k, j | 0 <= k < |node| && node[k].Some? && 0 <= j < |node[k].value| && Stale(node[k].value[j], w)
      ensures u[k].value[j] == node[k].value[j]
    {
    }
  }

  predicate Stale(c: Cluster, w: AttrData) {
    w.dataVer.Some? && w.dataVer.value != c.dataVer
  }

  /** Clusters of another version than the write depends on are not changed. */
  ghost predicate StaleKept(t: Tree, u: Tree, w: AttrData) {
    |u| == |t| && forall k :: 0 <= k < |t| ==> EndpointStaleKept(t[k], u[k], w)
  }

  ghost predicate EndpointStaleKept(e: Option<Endpoint>, f: Option<Endpoint>, w: AttrData) {
    e.Some? ==> f.Some? && |f.value| == |e.value|
                && forall j :: 0 <= j < |e.value| && Stale(e.value[j], w) ==> f.value[j] == e.value[j]
  }

  lemma StaleKeptThen(t: Tree, u: Tree, v: Tree, w: AttrData)
    requires StaleKept(t, u, w) && StaleKept(u, v, w)
    ensures StaleKept(t, v, w)
  {
    forall k | 0 <= k < |t|
      ensures EndpointStaleKept(t[k], v[k], w)
    {
      assert EndpointStaleKept(t[k], u[k], w) && EndpointStaleKept(u[k], v[k], w);
    }
  }

  lemma Unchanged(t: Tree, w: AttrData)
    ensures Tracked(t, t, []) && StaleKept(t, t, w)
  {
  }

  /** What a run over the endpoints adds to the answers, when errors are skipped. */
  predicate Grown(enc: Encoder, after: Encoder, added: seq<Status>) {
    after.out == enc.out + added && after.skipError == enc.skipError
    && (enc.skipError ==> forall s :: s in added ==> s.code.None?)
  }

  lemma {:induction false} EndpointsTrack(node: Tree, id: nat, p: Path, w: AttrData, x: Context, enc: Encoder) returns (added: seq<Status>)
    requires p.cluster.Some? && id <= |node| && UniqueIds(node)
    ensures var (u, after) := WriteEndpoints(node, id, p, w, x, enc);
            Grown(enc, after, added) && Tracked(node, u, added) && StaleKept(node, u, w)
    decreases |node| - id
  {
    hide WriteEndpoint, Tracked, StaleKept, UniqueIds;
    if id == |node| {
      added := [];
      assert enc.out + [] == enc.out;
      Unchanged(node, w);
    } else if node[id].None? {
      added := EndpointsTrack(node, id + 1, p, w, x, enc);
    } else {
      var q := p.(endpoint := Some(id));
      var first := EndpointTracks(node, id, q, w, x, enc);
      var r := WriteEndpoint(node[id].value, q, w, x, enc);
      var u := node[id := Some(r.t)];
      TrackedKeepsIds(node, u, first);
      var rest := EndpointsTrack(u, id + 1, p, w, x, r.enc);
      added := first + rest;
      var v := WriteEndpoints(u, id + 1, p, w, x, r.enc).0;
      TrackedThen(node, u, v, first, rest);
      StaleKeptThen(node, u, v, w);
      assert enc.out + first + rest == enc.out + (first + rest);
    }
  }

  /** One path: each cluster's version rises by the successes reported for it, a
      concrete path is answered exactly once, and a path that leaves out only the
      endpoint is answered by successes only. */
  lemma HandleWriteTracks(node: Tree, w: AttrData, x: Context)
    requires UniqueIds(node)
    ensures var (u, out) := HandleWrite(node, w, x);
            Tracked(node, u, out) && StaleKept(node, u, w)
            && (!w.path.IsWildcard() ==> |out| == 1)
            && (w.path.endpoint.None? && w.path.cluster.Some? && w.path.leaf.Some? ==>
                forall s :: s in out ==> s.code.None?)
            && (w.path.cluster.None? || w.path.leaf.None? ==> |out| == 1 && out[0].code.Some? && u == node)
  {
    hide WriteEndpoint, WriteEndpoints, Tracked, StaleKept, UniqueIds;
    Unchanged(node, w);
    var p := w.path;
    if p.cluster.None? || p.leaf.None? {
      var s := Status(p, Some(if p.cluster.None? then UnsupportedCluster else UnsupportedAttribute));
      FailureCounts(node, s);
      assert [] + [s] == [s];
    } else {
      var enc := Encoder(p, p.IsWildcard(), []);
      if p.endpoint.None? {
        var added := EndpointsTrack(node, 0, p, w, x, enc);
        assert [] + added == added;
      } else {
        var i := p.endpoint.value;
        if i >= |node| || node[i].None? {
          var s := Status(p, Some(UnsupportedEndpoint));
          FailureCounts(node, s);
          assert [] + [s] == [s];
        } else {
          var added := EndpointTracks(node, i, p, w, x, enc);
          assert [] + added == added;
          var r := WriteEndpoint(node[i].value, p, w, x, enc);
          if r.error.Some? {
            var s := Status(r.enc.path, r.error);
            var u := node[i := Some(r.t)];
            FailureCounts(u, s);
            TrackedThen(node, u, u, [], [s]);
            assert [] + [s] == [s];
          }
        }
      }
    }
  }

  lemma FailureCounts(node: Tree, s: Status)
    requires s.code.Some?
    ensures Tracked(node, node, [s])
  {
    forall i | 0 <= i < |node|
      ensures EndpointTracked(node[i], node[i], i, [s])
    {
      if node[i].Some? {
        forall j | 0 <= j < |node[i].value|
          ensures Advanced(node[i].value[j], node[i].value[j], Successes([s], i, node[i].value[j].id))
        {
          assert [s][1..] == [];
        }
      }
    }
  }

  /** Over a whole write request each cluster's data version rises, modulo 2^32, by
      exactly the number of successes reported for it; a cluster with none is unchanged. */
  lemma {:induction false} RequestTracks(node: Tree, ws: seq<AttrData>, x: Context)
    requires UniqueIds(node)
    ensures Tracked(node, HandleAll(node, ws, x).0, HandleAll(node, ws, x).1)
    decreases |ws|
  {
    hide HandleWrite, Tracked, UniqueIds, StaleKept;
    if ws == [] {
      Unchanged(node, AttrData(Path(None, None, None), None, Tlv.Element(Tlv.Anonymous, Tlv.Null)));
    } else {
      HandleWriteTracks(node, ws[0], x);
      var (u, out) := HandleWrite(node, ws[0], x);
      TrackedKeepsIds(node, u, out);
      RequestTracks(u, ws[1..], x);
      TrackedThen(node, u, HandleAll(u, ws[1..], x).0, out, HandleAll(u, ws[1..], x).1);
    }
  }

  // ---------------------------------------------------------------- what a write answers and changes, exactly

  /** The data is of the attribute's type, in no more bytes than it has. */
  predicate FitsType(v: AttrValue, data: Tlv.Element) {
    (v.Uint? && data.val.UInt? && data.val.k <= v.k) || (v.BoolValue? && data.val.Bool?)
  }

  /** The code a write to a cluster ends with: the first of these that applies. */
  lemma WriteCodes(c: Cluster, p: Path, data: Tlv.Element, x: Context)
    requires p.leaf.Some?
    ensures var code := WriteAttribute(c, p, data, x).code; var at := AttributeAt(c.attributes, p.leaf.value % 0x1_0000);
            if at == None then code == Some(UnsupportedAttribute)
            else
              var a := c.attributes[at.value];
              if a.access & 0x0020 == 0 then code == Some(UnsupportedWrite)
              else if !Acls.Allow(x.acl, x.accessor, Acls.AccessDesc(p.endpoint, p.cluster, Some(a.access), 0x0020)) then
                code == Some(UnsupportedAccess)
              else if a.value == Custom then code == Some(UnsupportedAttribute)
              else if !FitsType(a.value, data) then code == Some(Failure)
              else if a.quality & 0x03 == 0x03 then code == Some(UnsupportedWrite)
              else code == None
  {
    hide Acls.Allow;
    if AttributeAt(c.attributes, p.leaf.value % 0x1_0000).Some? {
      WriteBit(c.attributes[AttributeAt(c.attributes, p.leaf.value % 0x1_0000).value].access);
    }
  }

  lemma WriteBit(access: bv16)
    ensures access & Acls.WRITE == Acls.WRITE <==> access & 0x0020 != 0
  {
  }

  /** A write to this cluster of endpoint `i` goes through: the version it depends on is
      the cluster's, or none is given, the attribute may be written, and the data is of
      its type. */
  predicate Goes(c: Cluster, i: nat, w: AttrData, x: Context) {
    (w.dataVer == None || w.dataVer == Some(c.dataVer))
    && var p := w.path.(endpoint := Some(i));
       Writable(c, p, x) && FitsType(c.attributes[AttributeAt(c.attributes, p.leaf.value % 0x1_0000).value].value, w.data)
  }

  /** The cluster with the data in the attribute of that id, one version further. */
  function Stored(c: Cluster, leaf: nat, data: Tlv.Element): Cluster {
    match AttributeAt(c.attributes, leaf)
    case None => c
    case Some(k) =>
      var a := c.attributes[k];
      var v := if a.value.Uint? && data.val.UInt? then Uint(a.value.k, data.val.u)
               else if data.val.Bool? then BoolValue(data.val.b)
               else a.value;
      c.(attributes := c.attributes[k := a.(value := v)], dataVer := (c.dataVer + 1) % 0x1_0000_0000)
  }

  lemma WriteExact(c: Cluster, p: Path, data: Tlv.Element, x: Context)
    requires p.leaf.Some?
    ensures var r := WriteAttribute(c, p, data, x);
            (r.code == None
             <==> Writable(c, p, x) && FitsType(c.attributes[AttributeAt(c.attributes, p.leaf.value % 0x1_0000).value].value, data))
            && r.code != Some(DataVersionMismatch)
            && r.c == if r.code == None then Stored(c, p.leaf.value % 0x1_0000, data) else c
  {
    hide Acls.Allow;
  }

  predicate StaleFor(c: Cluster, w: AttrData) {
    w.dataVer != None && w.dataVer != Some(c.dataVer)
  }

  /** What a visit of a cluster adds to the answers, exactly. */
  lemma VisitExact(c: Cluster, i: nat, w: AttrData, x: Context, enc: Encoder)
    requires w.path.leaf.Some?
    ensures var p := w.path.(endpoint := Some(i)); var (d, enc') := VisitCluster(c, p, w, x, enc);
            var code := if StaleFor(c, w) then Some(DataVersionMismatch) else WriteAttribute(c, p, w.data, x).code;
            d == (if Goes(c, i, w, x) then Stored(c, p.leaf.value % 0x1_0000, w.data) else c)
            && (code == None <==> Goes(c, i, w, x)) && (code == Some(DataVersionMismatch) <==> StaleFor(c, w))
            && enc'.out == (if enc.skipError && code != None then enc.out
                            else enc.out + [Status(if StaleFor(c, w) then enc.path else p, code)])
            && enc'.skipError == enc.skipError
  {
    hide WriteAttribute, Writable, Stored;
    WriteExact(c, w.path.(endpoint := Some(i)), w.data, x);
  }

  /** The position of a cluster, whose id is its own. */
  lemma FoundAt(e: Endpoint, j: nat)
    requires DistinctIds(e) && j < |e|
    ensures ClusterAt(e, e[j].id) == Some(j)
  {
  }

  /** A path that names an endpoint, a cluster and an attribute gets one answer. It is
      `DataVersionMismatch` exactly if a version is given and is not the cluster's, and
      success exactly if it is missing or equal, the attribute may be written and the
      data is of its type. Then the data is in the attribute, the version is one higher,
      and nothing else has changed; otherwise nothing has. */
  lemma ConcretePathExact(node: Tree, w: AttrData, x: Context, i: nat, j: nat)
    requires i < |node| && node[i].Some? && DistinctIds(node[i].value) && j < |node[i].value|
    requires w.path.endpoint == Some(i) && w.path.cluster == Some(node[i].value[j].id) && w.path.leaf.Some?
    ensures var c := node[i].value[j]; var (u, out) := HandleWrite(node, w, x);
            |out| == 1 && out[0].path == w.path
            && (out[0].code == Some(DataVersionMismatch) <==> w.dataVer != None && w.dataVer != Some(c.dataVer))
            && (out[0].code == None <==>
                  (w.dataVer == None || w.dataVer == Some(c.dataVer)) && Writable(c, w.path, x)
                  && FitsType(c.attributes[AttributeAt(c.attributes, w.path.leaf.value % 0x1_0000).value].value, w.data))
            && (!StaleFor(c, w) ==> out[0].code == WriteAttribute(c, w.path, w.data, x).code)
            && u == if out[0].code == None
                    then node[i := Some(node[i].value[j := Stored(c, w.path.leaf.value % 0x1_0000, w.data)])]
                    else node
  {
    hide VisitCluster, WriteAttribute, Writable, Stored;
    var e := node[i].value;
    var c := e[j];
    var enc := Encoder(w.path, false, []);
    FoundAt(e, j);
    assert w.path.(endpoint := Some(i)) == w.path;
    VisitExact(c, i, w, x, enc);
    assert e[j := c] == e && node[i := Some(e)] == node;
  }

  /** A path that names what is not there, or leaves out more than the endpoint, gets one
      error and changes nothing. */
  lemma MissingPathExact(node: Tree, w: AttrData, x: Context)
    ensures var p := w.path;
            (p.cluster == None ==> HandleWrite(node, w, x) == (node, [Status(p, Some(UnsupportedCluster))]))
            && (p.cluster != None && p.leaf == None ==> HandleWrite(node, w, x) == (node, [Status(p, Some(UnsupportedAttribute))]))
            && (p.cluster != None && p.leaf != None && p.endpoint != None ==>
                (p.endpoint.value >= |node| || node[p.endpoint.value] == None ==>
                  HandleWrite(node, w, x) == (node, [Status(p, Some(UnsupportedEndpoint))]))
                && (p.endpoint.value < |node| && node[p.endpoint.value] != None
                    && (forall j :: 0 <= j < |node[p.endpoint.value].value| ==> Some(node[p.endpoint.value].value[j].id) != p.cluster) ==>
                  HandleWrite(node, w, x) == (node, [Status(p, Some(UnsupportedCluster))])))
  {
    hide VisitCluster;
    var p := w.path;
    assert forall s: Status {:trigger [s]} :: [] + [s] == [s];
    if p.cluster.Some? && p.leaf.Some? && p.endpoint.Some? && p.endpoint.value < |node| && node[p.endpoint.value].Some? {
      var e := node[p.endpoint.value].value;
      assert node[p.endpoint.value := Some(e)] == node;
    }
  }

  /** The write goes through in the endpoint: in its cluster of the path's id. */
  predicate GoesIn(slot: Option<Endpoint>, i: nat, w: AttrData, x: Context) {
    slot.Some? && exists j :: 0 <= j < |slot.value| && Some(slot.value[j].id) == w.path.cluster && Goes(slot.value[j], i, w, x)
  }

  /** The endpoint with the data in that cluster. */
  function StoredIn(e: Endpoint, w: AttrData): (f: Endpoint)
    requires w.path.leaf.Some?
    ensures |f| == |e|
    ensures forall j :: 0 <= j < |e| ==>
              f[j] == if Some(e[j].id) == w.path.cluster then Stored(e[j], w.path.leaf.value % 0x1_0000, w.data) else e[j]
  {
    seq(|e|, j requires 0 <= j < |e| =>
      if Some(e[j].id) == w.path.cluster then Stored(e[j], w.path.leaf.value % 0x1_0000, w.data) else e[j])
  }

  /** One success for every endpoint where the write goes through, in order. */
  function SuccessesOf(slots: Tree, i: nat, w: AttrData, x: Context): seq<Status> {
    if slots == [] then []
    else
      (if GoesIn(slots[0], i, w, x) then [Status(w.path.(endpoint := Some(i)), None)] else [])
      + SuccessesOf(slots[1..], i + 1, w, x)
  }

  lemma EndpointExact(e: Endpoint, i: nat, w: AttrData, x: Context, enc: Encoder)
    requires w.path.cluster.Some? && w.path.leaf.Some? && DistinctIds(e) && enc.skipError
    ensures var r := WriteEndpoint(e, w.path.(endpoint := Some(i)), w, x, enc);
            r.t == (if GoesIn(Some(e), i, w, x) then StoredIn(e, w) else e) && r.enc.skipError
            && r.enc.out == enc.out + if GoesIn(Some(e), i, w, x) then [Status(w.path.(endpoint := Some(i)), None)] else []
  {
    hide VisitCluster, Goes, Stored, WriteAttribute;
    assert enc.out + [] == enc.out;
    var at := ClusterAt(e, w.path.cluster.value);
    if at.Some? {
      var j := at.value;
      VisitExact(e[j], i, w, x, enc);
      assert forall k :: 0 <= k < |e| && k != j ==> e[k].id != e[j].id;
      assert GoesIn(Some(e), i, w, x) <==> Goes(e[j], i, w, x);
      if Goes(e[j], i, w, x) {
        assert e[j := Stored(e[j], w.path.leaf.value % 0x1_0000, w.data)] == StoredIn(e, w);
      } else {
        assert e[j := e[j]] == e;
      }
    }
  }

  lemma NextSuccesses(node: Tree, id: nat, w: AttrData, x: Context)
    requires id < |node|
    ensures SuccessesOf(node[id..], id, w, x)
         == (if GoesIn(node[id], id, w, x) then [Status(w.path.(endpoint := Some(id)), None)] else [])
            + SuccessesOf(node[id + 1..], id + 1, w, x)
  {
    hide GoesIn;
    assert node[id..][0] == node[id] && node[id..][1..] == node[id + 1..];
  }

  lemma Joined(a: seq<Status>, b: seq<Status>, c: seq<Status>)
    ensures a + b + c == a + (b + c) && a + ([] + c) == a + c
  {
  }

  lemma {:induction false} EndpointsExact(node: Tree, id: nat, w: AttrData, x: Context, enc: Encoder)
    requires w.path.cluster.Some? && w.path.leaf.Some? && id <= |node| && UniqueIds(node) && enc.skipError
    ensures var (u, after) := WriteEndpoints(node, id, w.path, w, x, enc);
            after.out == enc.out + SuccessesOf(node[id..], id, w, x) && |u| == |node|
            && forall i :: 0 <= i < |node| ==>
                 u[i] == if i >= id && GoesIn(node[i], i, w, x) then Some(StoredIn(node[i].value, w)) else node[i]
    decreases |node| - id
  {
    hide WriteEndpoint, GoesIn, StoredIn, SuccessesOf, UniqueIds;
    if id == |node| {
      NoSuccesses(node[id..], id, w, x);
      assert enc.out + [] == enc.out;
    } else {
      NextSuccesses(node, id, w, x);
      if node[id].None? {
        EmptySlot(node[id], id, w, x);
        EndpointsExact(node, id + 1, w, x, enc);
        Joined(enc.out, [], SuccessesOf(node[id + 1..], id + 1, w, x));
      } else {
        var e := node[id].value;
        UniqueIn(node, id);
        EndpointExact(e, id, w, x, enc);
        var r := WriteEndpoint(e, w.path.(endpoint := Some(id)), w, x, enc);
        var next := node[id := Some(r.t)];
        SameIds(node, id, w, x, r.t);
        EndpointsExact(next, id + 1, w, x, r.enc);
        assert next[id + 1..] == node[id + 1..];
        Joined(enc.out, if GoesIn(node[id], id, w, x) then [Status(w.path.(endpoint := Some(id)), None)] else [],
               SuccessesOf(node[id + 1..], id + 1, w, x));
      }
    }
  }

  lemma NoSuccesses(slots: Tree, i: nat, w: AttrData, x: Context)
    requires slots == []
    ensures SuccessesOf(slots, i, w, x) == []
  {
  }

  lemma UniqueIn(node: Tree, id: nat)
    requires UniqueIds(node) && id < |node| && node[id].Some?
    ensures DistinctIds(node[id].value)
  {
  }

  lemma EmptySlot(slot: Option<Endpoint>, i: nat, w: AttrData, x: Context)
    requires slot.None?
    ensures !GoesIn(slot, i, w, x)
  {
  }

  lemma SameIds(node: Tree, id: nat, w: AttrData, x: Context, f: Endpoint)
    requires UniqueIds(node) && id < |node| && node[id].Some? && w.path.leaf.Some?
    requires f == node[id].value || f == StoredIn(node[id].value, w)
    ensures UniqueIds(node[id := Some(f)])
  {
    assert DistinctIds(node[id].value);
    assert forall j :: 0 <= j < |f| ==> f[j].id == node[id].value[j].id;
  }

  /** A path that leaves out the endpoint is answered by one success for every endpoint,
      in order, where the write goes through; there the data is stored, and everything
      else is as it was. */
  lemma WildcardExact(node: Tree, w: AttrData, x: Context)
    requires UniqueIds(node) && w.path.endpoint.None? && w.path.cluster.Some? && w.path.leaf.Some?
    ensures var (u, out) := HandleWrite(node, w, x);
            out == SuccessesOf(node, 0, w, x) && |u| == |node|
            && forall i :: 0 <= i < |node| ==> u[i] == if GoesIn(node[i], i, w, x) then Some(StoredIn(node[i].value, w)) else node[i]
  {
    hide WriteEndpoints, GoesIn, StoredIn, UniqueIds;
    EndpointsExact(node, 0, w, x, Encoder(w.path, true, []));
    assert node[0..] == node && [] + SuccessesOf(node, 0, w, x) == SuccessesOf(node, 0, w, x);
  }

  // ---------------------------------------------------------------- the loops of the source

  /** `handle_write_attr_path`: the traversal changes the node in place. */
  method HandleWriteAttrPath(node: Node, w: AttrData, x: Context) returns (out: seq<Status>)
    requires node.Valid()
    modifies node.endpoints
    ensures (node.endpoints[..], out) == HandleWrite(old(node.endpoints[..]), w, x)
  {
    hide WriteEndpoint;
    var encoder := Encoder(w.path, false, []);
    if w.path.cluster.None? {
      return encoder.EncodeStatus(Some(UnsupportedCluster)).out;
    }
    if w.path.leaf.None? {
      return encoder.EncodeStatus(Some(UnsupportedAttribute)).out;
    }
    if w.path.IsWildcard() {
      encoder := encoder.(skipError := true);
    }
    var result: Option<Code>;
    encoder, result := ForEachClusterMut(node, w, x, encoder);
    if result.Some? {
      encoder := encoder.EncodeStatus(result);
    }
    return encoder.out;
  }

  method ForEachClusterMut(node: Node, w: AttrData, x: Context, enc: Encoder) returns (encoder: Encoder, r: Option<Code>)
    requires node.Valid() && w.path.cluster.Some?
    modifies node.endpoints
    ensures Ran(node.endpoints[..], encoder, r) == WriteNode(old(node.endpoints[..]), w.path, w, x, enc)
  {
    hide WriteEndpoint;
    encoder := enc;
    var slice := EndpointsOf(node.endpoints[..], w.path.endpoint);
    if slice.Err? {
      return encoder, Some(slice.error);
    }
    var first, wildcard := slice.value.1, slice.value.0.wildcard;
    var end := first + |slice.value.0.items|;
    ghost var before := node.endpoints[..];
    for i := first to end
      invariant !wildcard ==> node.endpoints[..] == (if i == first then before else WriteNode(before, w.path, w, x, enc).t)
      invariant !wildcard ==> encoder == (if i == first then enc else WriteNode(before, w.path, w, x, enc).enc)
      invariant !wildcard && i > first ==> WriteNode(before, w.path, w, x, enc).error.None?
      invariant wildcard ==>
                  WriteEndpoints(before, 0, w.path, w, x, enc) == WriteEndpoints(node.endpoints[..], i, w.path, w, x, encoder)
    {
      ghost var now := node.endpoints[..];
      if node.endpoints[i].Some? {
        var ran := WriteEndpoint(node.endpoints[i].value, w.path.(endpoint := Some(i)), w, x, encoder);
        assert !wildcard ==> w.path.(endpoint := Some(i)) == w.path;
        encoder := ran.enc;
        node.endpoints[i] := Some(ran.t);
        assert node.endpoints[..] == now[i := Some(ran.t)];
        if ran.error.Some? && !wildcard {
          return encoder, ran.error;
        }
      }
    }
    return encoder, None;
  }

  /** `consume_write_attr`: the answers to all writes of a request, in order. */
  method ConsumeWriteAttr(node: Node, ws: seq<AttrData>, x: Context) returns (out: seq<Status>)
    requires node.Valid()
    modifies node.endpoints
    ensures (node.endpoints[..], out) == HandleAll(old(node.endpoints[..]), ws, x)
  {
    hide HandleWrite;
    out := [];
    ghost var before := node.endpoints[..];
    assert ws[0..] == ws && [] + HandleAll(before, ws, x).1 == HandleAll(before, ws, x).1;
    for i := 0 to |ws|
      invariant var rest := HandleAll(node.endpoints[..], ws[i..], x);
                HandleAll(before, ws, x) == (rest.0, out + rest.1)
    {
      assert ws[i..][1..] == ws[i + 1..];
      ghost var now := node.endpoints[..];
      var answers := HandleWriteAttrPath(node, ws[i], x);
      ghost var rest := HandleAll(node.endpoints[..], ws[i + 1..], x);
      assert out + (answers + rest.1) == out + answers + rest.1;
      out := out + answers;
    }
    assert ws[|ws|..] == [] && out + [] == out;
  }
}
