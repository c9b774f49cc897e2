/** Planning and executing the removal of stub organizations and synthetic data. */
module StubCleanup {
  import opened EdgeRecords
  import opened Options

  // ---------------------------------------------------------------------------
  // The graph
  // ---------------------------------------------------------------------------

  /** `marked`: the record's extra_json contains one of the synthetic markers. */
  datatype Payload = Payload(sourceTable: string, marked: bool)

  type TagKey = (string, string) // tag name and VID

  datatype Graph = Graph(vids: set<string>, tags: map<TagKey, Payload>, edges: map<EdgeKey, Payload>)

  ghost predicate NoDangling(g: Graph) {
    forall k | k in g.edges :: k.source in g.vids && k.target in g.vids
  }

  // ---------------------------------------------------------------------------
  // What belongs to the organization domain
  // ---------------------------------------------------------------------------

  const STUB_PREFIXES := ["org_stub_", "organization_stub_", "virtual_org_", "mock_org_", "placeholder_org_"]
  const SYNTHETIC_TABLES := {"mock", "stub", "virtual", "placeholder", "test"}
  const SYNTHETIC_TABLES_UPPER := {"MOCK", "STUB", "VIRTUAL", "PLACEHOLDER", "TEST"}
  const TAGS := ["Organization", "organization_base", "Person", "News", "Event", "Product"]

  /** The foreign clean_text and casefold, the organization source tables, the relation edge types. */
  datatype Domain = Domain(clean: string -> Option<string>, fold: string -> string,
                           tables: set<string>, edgeTypes: set<string>)

  predicate StartsWith(s: string, prefix: string) { prefix <= s }

  predicate IsStubVid(vid: string) {
    exists i | 0 <= i < |STUB_PREFIXES| :: StartsWith(vid, STUB_PREFIXES[i])
  }

  predicate IsStub(g: Graph, vid: string) {
    vid in g.vids && ("Organization", vid) in g.tags && IsStubVid(vid)
  }

  predicate Owned(d: Domain, p: Payload) {
    var cleaned := d.clean(p.sourceTable);
    var source := d.fold(if cleaned.None? then "" else cleaned.value);
    source in d.tables || source in SYNTHETIC_TABLES
  }

  predicate SyntheticTag(g: Graph, t: TagKey) {
    t in g.tags && t.0 in TAGS && g.tags[t].marked
  }

  predicate SyntheticEdge(d: Domain, k: EdgeKey, p: Payload) {
    && k.edgeType in d.edgeTypes
    && (p.sourceTable in SYNTHETIC_TABLES + SYNTHETIC_TABLES_UPPER || p.marked)
  }

  predicate Touches(k: EdgeKey, vids: set<string>) { k.source in vids || k.target in vids }

  // ---------------------------------------------------------------------------
  // The plan
  // ---------------------------------------------------------------------------

  datatype Plan = Plan(edges: set<EdgeKey>, tags: set<TagKey>, vertices: set<string>, blocked: set<string>)

  function Stubs(g: Graph): set<string> { set v | v in g.vids && IsStub(g, v) }

  function Incident(g: Graph, vids: set<string>): map<EdgeKey, Payload> {
    map k | k in g.edges && Touches(k, vids) :: g.edges[k]
  }

  function Synthetic(d: Domain, g: Graph): map<EdgeKey, Payload> {
    map k | k in g.edges && SyntheticEdge(d, k, g.edges[k]) :: g.edges[k]
  }

  /** Endpoints of the edges that the organization domain does not own. */
  function Endpoints(d: Domain, edges: map<EdgeKey, Payload>): set<string> {
    (set k | k in edges && !Owned(d, edges[k]) :: k.source) + (set k | k in edges && !Owned(d, edges[k]) :: k.target)
  }

  function CleanupPlan(d: Domain, g: Graph): Plan {
    var stubs, incident := Stubs(g), Incident(g, Stubs(g));
    var blocking, all := Endpoints(d, incident), incident + Synthetic(d, g);
    Plan((set k | k in all && Owned(d, all[k])), (set t | t in g.tags && SyntheticTag(g, t)),
         stubs - blocking, stubs * blocking)
  }

  // ---------------------------------------------------------------------------
  // Collecting it
  // ---------------------------------------------------------------------------

  class OrganizationGraph {
    var graph: Graph

    /** DELETE EDGE on one exact key, DELETE TAG, DELETE VERTEX. A call that fails may have taken effect.
        DELETE VERTEX does not look at edges. */
    method DeleteEdge(k: EdgeKey) returns (ok: bool)
      modifies this
      ensures graph == old(graph).(edges := old(graph).edges - {k}) || (!ok && graph == old(graph))
    {
      var applied: bool := *;
      ok := *;
      if ok || applied { graph := graph.(edges := graph.edges - {k}); }
    }

    method DeleteTag(t: TagKey) returns (ok: bool)
      modifies this
      ensures graph == old(graph).(tags := old(graph).tags - {t}) || (!ok && graph == old(graph))
    {
      var applied: bool := *;
      ok := *;
      if ok || applied { graph := graph.(tags := graph.tags - {t}); }
    }

    method DeleteVertex(v: string) returns (ok: bool)
      modifies this
      ensures graph == WithoutVertices(old(graph), {v}) || (!ok && graph == old(graph))
    {
      var applied: bool := *;
      ok := *;
      if ok || applied { graph := WithoutVertices(graph, {v}); }
    }
  }

  function WithoutVertices(g: Graph, vs: set<string>): Graph {
    g.(vids := g.vids - vs, tags := map t | t in g.tags && t.1 !in vs :: g.tags[t])
  }

  lemma NothingIncident(g: Graph)
    ensures Incident(g, {}) == map[]
  {
  }

  lemma IncidentUnion(g: Graph, a: set<string>, b: set<string>)
    ensures Incident(g, a + b) == Incident(g, a) + Incident(g, b)
  {
  }

  /** The edges at the given vertices, collected one batch of vertices at a time. */
  method CollectIncidentEdges(store: OrganizationGraph, vertices: seq<string>, batchSize: int)
    returns (edges: map<EdgeKey, Payload>)
    requires batchSize > 0
    ensures edges == Incident(store.graph, set v | v in vertices)
  {
    hide Incident;
    edges := map[];
    NothingIncident(store.graph);
    assert (set v | v in vertices[..0]) == {};
    var start := 0;
    while start < |vertices|
      invariant 0 <= start <= |vertices|
      invariant edges == Incident(store.graph, set v | v in vertices[..start])
    {
      var stop := if start + batchSize <= |vertices| then start + batchSize else |vertices|;
      var batch := set v | v in vertices[start..stop];
      assert vertices[..stop] == vertices[..start] + vertices[start..stop];
      assert (set v | v in vertices[..stop]) == (set v | v in vertices[..start]) + batch;
      IncidentUnion(store.graph, (set v | v in vertices[..start]), batch);
      edges := edges + Incident(store.graph, batch);
      start := stop;
    }
    assert vertices[..|vertices|] == vertices;
  }

  /** Some order of the stub vertices. */
  method CollectStubVertices(store: OrganizationGraph) returns (vertices: seq<string>)
    ensures (set v | v in vertices) == Stubs(store.graph)
  {
    vertices := [];
    var left := Stubs(store.graph);
    while left != {}
      invariant (set v | v in vertices) + left == Stubs(store.graph)
      decreases left
    {
      var v :| v in left;
      vertices := vertices + [v];
      left := left - {v};
    }
  }

  method CollectSyntheticTags(store: OrganizationGraph) returns (tags: set<TagKey>)
    ensures tags == set t | t in store.graph.tags && SyntheticTag(store.graph, t)
  {
    tags := {};
    for i := 0 to |TAGS|
      invariant tags == set t | t in store.graph.tags && t.0 in TAGS[..i] && store.graph.tags[t].marked
    {
      assert TAGS[..i + 1] == TAGS[..i] + [TAGS[i]];
      tags := tags + set t | t in store.graph.tags && t.0 == TAGS[i] && store.graph.tags[t].marked;
    }
    assert TAGS[..|TAGS|] == TAGS;
  }

  method CollectSyntheticEdges(d: Domain, store: OrganizationGraph) returns (edges: map<EdgeKey, Payload>)
    ensures edges == Synthetic(d, store.graph)
  {
    edges := map[];
    var left := d.edgeTypes;
    while left != {}
      invariant left <= d.edgeTypes
      invariant edges == map k | k in store.graph.edges && SyntheticEdge(d, k, store.graph.edges[k]) && k.edgeType !in left
                           :: store.graph.edges[k]
      decreases left
    {
      var edgeType :| edgeType in left;
      edges := edges + map k | k in store.graph.edges && SyntheticEdge(d, k, store.graph.edges[k]) && k.edgeType == edgeType
                         :: store.graph.edges[k];
      left := left - {edgeType};
    }
  }

  /** The plan does not depend on the batch size. */
  method BuildCleanupPlan(d: Domain, store: OrganizationGraph, batchSize: int) returns (plan: Plan)
    requires batchSize > 0
    ensures plan == CleanupPlan(d, store.graph)
  {
    var vertices := CollectStubVertices(store);
    var tags := CollectSyntheticTags(store);
    var incident := CollectIncidentEdges(store, vertices, batchSize);
    var synthetic := CollectSyntheticEdges(d, store);
    var all := incident + synthetic;
    var blocking := Endpoints(d, incident);
    var stubs := set v | v in vertices;
    plan := Plan((set k | k in all && Owned(d, all[k])), tags, stubs - blocking, stubs * blocking);
  }

  // ---------------------------------------------------------------------------
  // Safety of every prefix of the execution
  // ---------------------------------------------------------------------------

  /** Nothing shared is lost: no edge dangles, and every edge the domain does not own is still there,
      unchanged, with both its endpoints. */
  ghost predicate Safe(d: Domain, before: Graph, now: Graph) {
    && NoDangling(now)
    && (forall k | k in now.edges :: k in before.edges && now.edges[k] == before.edges[k])
    && forall k | k in before.edges && !Owned(d, before.edges[k]) ::
         k in now.edges && k.source in now.vids && k.target in now.vids
  }

  /** The graph after some of the planned deletions, edges before tags before vertices. */
  function Deleted(g: Graph, edges: set<EdgeKey>, tags: set<TagKey>, vertices: set<string>): Graph {
    WithoutVertices(Graph(g.vids, g.tags - tags, g.edges - edges), vertices)
  }

  lemma PlannedEdgesAreOwned(d: Domain, g: Graph)
    ensures forall k | k in CleanupPlan(d, g).edges :: k in g.edges && Owned(d, g.edges[k])
    ensures forall k | k in g.edges && Touches(k, CleanupPlan(d, g).vertices) :: k in CleanupPlan(d, g).edges
  {
  }

  /** Deleting only edges and tags, or vertices once all planned edges are gone, is safe. */
  lemma PrefixIsSafe(d: Domain, g: Graph, edges: set<EdgeKey>, tags: set<TagKey>, vertices: set<string>)
    requires NoDangling(g)
    requires edges <= CleanupPlan(d, g).edges && vertices <= CleanupPlan(d, g).vertices
    requires vertices != {} ==> edges == CleanupPlan(d, g).edges
    ensures Safe(d, g, Deleted(g, edges, tags, vertices))
  {
    hide CleanupPlan, Owned;
    PlannedEdgesAreOwned(d, g);
  }

  /** The deletions come in phases: all edges before any tag, all tags before any vertex. */
  ghost predicate Phased(plan: Plan, edges: set<EdgeKey>, tags: set<TagKey>, vertices: set<string>) {
    && edges <= plan.edges && tags <= plan.tags && vertices <= plan.vertices
    && (tags != {} || vertices != {} ==> edges == plan.edges) && (vertices != {} ==> tags == plan.tags)
  }

  /** A graph that the execution of the plan can stop at. */
  ghost predicate StopsAt(plan: Plan, before: Graph, now: Graph) {
    exists edges, tags, vertices :: Phased(plan, edges, tags, vertices) && now == Deleted(before, edges, tags, vertices)
  }

  lemma SafeStop(d: Domain, g: Graph, edges: set<EdgeKey>, tags: set<TagKey>, vertices: set<string>)
    requires NoDangling(g) && Phased(CleanupPlan(d, g), edges, tags, vertices)
    ensures Safe(d, g, Deleted(g, edges, tags, vertices))
    ensures StopsAt(CleanupPlan(d, g), g, Deleted(g, edges, tags, vertices))
  {
    hide CleanupPlan, Deleted, Safe;
    PrefixIsSafe(d, g, edges, tags, vertices);
  }

  /** Executes a plan made on the current graph. Whether it runs to the end or raises anywhere, the
      graph is then a safe prefix of the planned deletions. */
  method ExecuteCleanup(ghost d: Domain, store: OrganizationGraph, plan: Plan)
    returns (ok: bool, deletedEdges: nat, deletedTags: nat, deletedVertices: nat)
    requires plan == CleanupPlan(d, store.graph) && NoDangling(store.graph)
    modifies store
    ensures Safe(d, old(store.graph), store.graph) && StopsAt(plan, old(store.graph), store.graph)
    ensures ok ==> store.graph == Deleted(old(store.graph), plan.edges, plan.tags, plan.vertices)
    ensures ok ==> deletedEdges == |plan.edges| && deletedTags == |plan.tags| && deletedVertices == |plan.vertices|
  {
    deletedTags, deletedVertices := 0, 0;
    ok, deletedEdges := DeleteEdges(d, store, plan);
    if !ok { return; }
    ok, deletedTags := DeleteTags(d, store, plan, old(store.graph));
    if !ok { return; }
    ok, deletedVertices := DeleteVertices(d, store, plan, old(store.graph));
  }

  method DeleteEdges(ghost d: Domain, store: OrganizationGraph, plan: Plan) returns (ok: bool, deleted: nat)
    requires plan == CleanupPlan(d, store.graph) && NoDangling(store.graph)
    modifies store
    ensures Safe(d, old(store.graph), store.graph) && StopsAt(plan, old(store.graph), store.graph)
    ensures ok ==> store.graph == Deleted(old(store.graph), plan.edges, {}, {}) && deleted == |plan.edges|
  {
    hide CleanupPlan, Deleted;
    ghost var before := store.graph;
    ok, deleted := true, 0;
    var edges := plan.edges;
    DeletedNothing(before);
    assert plan.edges - edges == {};
    while edges != {}
      invariant ok && edges <= plan.edges && deleted + |edges| == |plan.edges|
      invariant store.graph == Deleted(before, plan.edges - edges, {}, {})
      decreases edges
    {
      var k :| k in edges;
      SafeStop(d, before, plan.edges - edges, {}, {});
      DeletedEdge(before, plan.edges - edges, k);
      assert plan.edges - (edges - {k}) == plan.edges - edges + {k};
      SafeStop(d, before, plan.edges - (edges - {k}), {}, {});
      ok := store.DeleteEdge(k);
      if !ok { return; }
      edges, deleted := edges - {k}, deleted + 1;
    }
    assert plan.edges - edges == plan.edges;
    SafeStop(d, before, plan.edges, {}, {});
  }

  method DeleteTags(ghost d: Domain, store: OrganizationGraph, plan: Plan, ghost before: Graph)
    returns (ok: bool, deleted: nat)
    requires plan == CleanupPlan(d, before) && NoDangling(before)
    requires store.graph == Deleted(before, plan.edges, {}, {})
    modifies store
    ensures Safe(d, before, store.graph) && StopsAt(plan, before, store.graph)
    ensures ok ==> store.graph == Deleted(before, plan.edges, plan.tags, {}) && deleted == |plan.tags|
  {
    hide CleanupPlan, Deleted;
    ok, deleted := true, 0;
    var tags := plan.tags;
    assert plan.tags - tags == {};
    while tags != {}
      invariant ok && tags <= plan.tags && deleted + |tags| == |plan.tags|
      invariant store.graph == Deleted(before, plan.edges, plan.tags - tags, {})
      decreases tags
    {
      var t :| t in tags;
      SafeStop(d, before, plan.edges, plan.tags - tags, {});
      DeletedTag(before, plan.edges, plan.tags - tags, t);
      assert plan.tags - (tags - {t}) == plan.tags - tags + {t};
      SafeStop(d, before, plan.edges, plan.tags - (tags - {t}), {});
      ok := store.DeleteTag(t);
      if !ok { return; }
      tags, deleted := tags - {t}, deleted + 1;
    }
    assert plan.tags - tags == plan.tags;
    SafeStop(d, before, plan.edges, plan.tags, {});
  }

  method DeleteVertices(ghost d: Domain, store: OrganizationGraph, plan: Plan, ghost before: Graph)
    returns (ok: bool, deleted: nat)
    requires plan == CleanupPlan(d, before) && NoDangling(before)
    requires store.graph == Deleted(before, plan.edges, plan.tags, {})
    modifies store
    ensures Safe(d, before, store.graph) && StopsAt(plan, before, store.graph)
    ensures ok ==> store.graph == Deleted(before, plan.edges, plan.tags, plan.vertices) && deleted == |plan.vertices|
  {
    hide CleanupPlan, Deleted;
    ok, deleted := true, 0;
    var vertices := plan.vertices;
    assert plan.vertices - vertices == {};
    while vertices != {}
      invariant ok && vertices <= plan.vertices && deleted + |vertices| == |plan.vertices|
      invariant store.graph == Deleted(before, plan.edges, plan.tags, plan.vertices - vertices)
      decreases vertices
    {
      var v :| v in vertices;
      SafeStop(d, before, plan.edges, plan.tags, plan.vertices - vertices);
      DeletedVertex(before, plan.edges, plan.tags, plan.vertices - vertices, v);
      assert plan.vertices - (vertices - {v}) == plan.vertices - vertices + {v};
      SafeStop(d, before, plan.edges, plan.tags, plan.vertices - (vertices - {v}));
      ok := store.DeleteVertex(v);
      if !ok { return; }
      vertices, deleted := vertices - {v}, deleted + 1;
    }
    assert plan.vertices - vertices == plan.vertices;
    SafeStop(d, before, plan.edges, plan.tags, plan.vertices);
  }

  lemma DeletedNothing(g: Graph)
    ensures Deleted(g, {}, {}, {}) == g
  {
    assert g.edges - {} == g.edges && g.tags - {} == g.tags;
  }

  lemma DeletedEdge(g: Graph, edges: set<EdgeKey>, k: EdgeKey)
    ensures var now := Deleted(g, edges, {}, {});
            now.(edges := now.edges - {k}) == Deleted(g, edges + {k}, {}, {})
  {
    assert g.edges - edges - {k} == g.edges - (edges + {k});
  }

  lemma DeletedTag(g: Graph, edges: set<EdgeKey>, tags: set<TagKey>, t: TagKey)
    ensures var now := Deleted(g, edges, tags, {});
            now.(tags := now.tags - {t}) == Deleted(g, edges, tags + {t}, {})
  {
  }

  lemma DeletedVertex(g: Graph, edges: set<EdgeKey>, tags: set<TagKey>, vs: set<string>, v: string)
    ensures WithoutVertices(Deleted(g, edges, tags, vs), {v}) == Deleted(g, edges, tags, vs + {v})
  {
  }

  // ---------------------------------------------------------------------------
  // Convergence
  // ---------------------------------------------------------------------------

  function AfterCleanup(d: Domain, g: Graph): Graph {
    var plan := CleanupPlan(d, g);
    Deleted(g, plan.edges, plan.tags, plan.vertices)
  }

  /** Deletable and blocked vertices partition the stubs; the blocked ones are those at a shared edge. */
  lemma StubsArePartitioned(d: Domain, g: Graph)
    ensures CleanupPlan(d, g).vertices + CleanupPlan(d, g).blocked == Stubs(g)
    ensures CleanupPlan(d, g).vertices !! CleanupPlan(d, g).blocked
    ensures forall v | v in Stubs(g) ::
              v in CleanupPlan(d, g).blocked <==> exists k | k in g.edges :: Touches(k, {v}) && !Owned(d, g.edges[k])
  {
    var incident := Incident(g, Stubs(g));
    forall v | v in Stubs(g)
      ensures v in Endpoints(d, incident) <==> exists k | k in g.edges :: Touches(k, {v}) && !Owned(d, g.edges[k])
    {
      if k :| k in g.edges && Touches(k, {v}) && !Owned(d, g.edges[k]) {
        assert k in incident;
      }
      if v in Endpoints(d, incident) {
        var k :| k in incident && !Owned(d, incident[k]) && (k.source == v || k.target == v);
        assert Touches(k, {v});
      }
    }
  }

  lemma SharedEdgesStay(d: Domain, g: Graph)
    ensures forall k | k in g.edges && !Owned(d, g.edges[k]) ::
              k in AfterCleanup(d, g).edges && AfterCleanup(d, g).edges[k] == g.edges[k]
    ensures Stubs(AfterCleanup(d, g)) <= CleanupPlan(d, g).blocked
  {
    var after := AfterCleanup(d, g);
    forall v | v in Stubs(after)
      ensures v in CleanupPlan(d, g).blocked
    {
      assert ("Organization", v) in g.tags;
      assert v in Stubs(g);
    }
  }

  lemma RemainingStubsAreBlocked(d: Domain, g: Graph)
    ensures CleanupPlan(d, AfterCleanup(d, g)).vertices == {}
  {
    hide CleanupPlan, AfterCleanup, Owned;
    var after := AfterCleanup(d, g);
    StubsArePartitioned(d, g);
    StubsArePartitioned(d, after);
    SharedEdgesStay(d, g);
    forall v | v in Stubs(after)
      ensures v in CleanupPlan(d, after).blocked
    {
      var k :| k in g.edges && Touches(k, {v}) && !Owned(d, g.edges[k]);
      assert k in after.edges;
    }
  }

  lemma NothingOwnedRemains(d: Domain, g: Graph)
    ensures CleanupPlan(d, AfterCleanup(d, g)).edges == {}
  {
    hide Owned, IsStub, SyntheticTag;
    var plan, after := CleanupPlan(d, g), AfterCleanup(d, g);
    assert after.edges == g.edges - plan.edges && Stubs(after) <= Stubs(g) by {
      SharedEdgesStay(d, g);
      StubsArePartitioned(d, g);
    }
    var incident, synthetic := Incident(after, Stubs(after)), Synthetic(d, after);
    forall k | k in incident || k in synthetic
      ensures !Owned(d, after.edges[k])
    {
      assert k in Incident(g, Stubs(g)) || k in Synthetic(d, g);
    }
  }

  lemma NoSyntheticTagRemains(d: Domain, g: Graph)
    ensures CleanupPlan(d, AfterCleanup(d, g)).tags == {}
  {
    hide Stubs, Incident, Synthetic, Endpoints;
  }

  /** Planning again after a complete run finds nothing more to delete. */
  lemma CleanupConverges(d: Domain, g: Graph)
    ensures var again := CleanupPlan(d, AfterCleanup(d, g));
            again.edges == {} && again.tags == {} && again.vertices == {} && again.blocked <= CleanupPlan(d, g).blocked
  {
    hide CleanupPlan, AfterCleanup;
    NothingOwnedRemains(d, g);
    NoSyntheticTagRemains(d, g);
    RemainingStubsAreBlocked(d, g);
    StubsArePartitioned(d, AfterCleanup(d, g));
    SharedEdgesStay(d, g);
  }

  // ---------------------------------------------------------------------------
  // Planning again after a crash
  // ---------------------------------------------------------------------------

  /** Deletable stubs that are still there but have lost the tag by which a plan finds them. */
  function Stranded(d: Domain, g: Graph, tags: set<TagKey>, vertices: set<string>): set<string> {
    set v | v in CleanupPlan(d, g).vertices && v !in vertices && ("Organization", v) in tags
  }

  lemma StubsAfterCrash(d: Domain, g: Graph, edges: set<EdgeKey>, tags: set<TagKey>, vertices: set<string>, v: string)
    ensures v in Stubs(Deleted(g, edges, tags, vertices)) <==>
              v in Stubs(g) && v !in vertices && ("Organization", v) !in tags
  {
  }

  lemma BlockedAfterCrash(d: Domain, g: Graph, edges: set<EdgeKey>, tags: set<TagKey>, vertices: set<string>, v: string)
    requires Phased(CleanupPlan(d, g), edges, tags, vertices) && v in Stubs(Deleted(g, edges, tags, vertices))
    ensures v in CleanupPlan(d, Deleted(g, edges, tags, vertices)).vertices <==> v in CleanupPlan(d, g).vertices
  {
    hide CleanupPlan, Stubs, Owned;
    var now := Deleted(g, edges, tags, vertices);
    StubsAfterCrash(d, g, edges, tags, vertices, v);
    StubsArePartitioned(d, g);
    StubsArePartitioned(d, now);
    PlannedEdgesAreOwned(d, g);
    if k :| k in g.edges && Touches(k, {v}) && !Owned(d, g.edges[k]) {
      assert k in now.edges && now.edges[k] == g.edges[k];
    }
  }

  lemma VerticesAfterCrash(d: Domain, g: Graph, edges: set<EdgeKey>, tags: set<TagKey>, vertices: set<string>)
    requires Phased(CleanupPlan(d, g), edges, tags, vertices)
    ensures CleanupPlan(d, Deleted(g, edges, tags, vertices)).vertices
         == CleanupPlan(d, g).vertices - vertices - Stranded(d, g, tags, vertices)
  {
    hide CleanupPlan, Stubs, Deleted, Phased;
    var now := Deleted(g, edges, tags, vertices);
    StubsArePartitioned(d, g);
    StubsArePartitioned(d, now);
    forall v
      ensures v in CleanupPlan(d, now).vertices <==> v in CleanupPlan(d, g).vertices - vertices - Stranded(d, g, tags, vertices)
    {
      StubsAfterCrash(d, g, edges, tags, vertices, v);
      if v in Stubs(now) {
        BlockedAfterCrash(d, g, edges, tags, vertices, v);
      }
    }
  }

  /** A planned edge is an owned one that is incident to a stub or synthetic. */
  lemma PlannedEdge(d: Domain, g: Graph, k: EdgeKey)
    ensures k in CleanupPlan(d, g).edges <==>
              k in g.edges && Owned(d, g.edges[k]) && (Touches(k, Stubs(g)) || SyntheticEdge(d, k, g.edges[k]))
  {
    hide Owned, Stubs, SyntheticEdge, Endpoints;
  }

  lemma EdgesAfterCrash(d: Domain, g: Graph, edges: set<EdgeKey>, tags: set<TagKey>, vertices: set<string>)
    requires Phased(CleanupPlan(d, g), edges, tags, vertices)
    ensures CleanupPlan(d, Deleted(g, edges, tags, vertices)).edges == CleanupPlan(d, g).edges - edges
  {
    hide CleanupPlan, Stubs, Owned, SyntheticEdge;
    var now := Deleted(g, edges, tags, vertices);
    forall v
      ensures v in Stubs(now) ==> v in Stubs(g)
      ensures tags == {} && vertices == {} && v in Stubs(g) ==> v in Stubs(now)
    {
      StubsAfterCrash(d, g, edges, tags, vertices, v);
    }
    forall k
      ensures k in CleanupPlan(d, now).edges <==> k in CleanupPlan(d, g).edges - edges
    {
      PlannedEdge(d, g, k);
      PlannedEdge(d, now, k);
    }
  }

  lemma TagsAfterCrash(d: Domain, g: Graph, edges: set<EdgeKey>, tags: set<TagKey>, vertices: set<string>, t: TagKey)
    ensures t in CleanupPlan(d, Deleted(g, edges, tags, vertices)).tags <==>
              t in CleanupPlan(d, g).tags && t !in tags && t.1 !in vertices
  {
    hide Stubs, Incident, Synthetic, Endpoints;
  }

  lemma TagsLeft(g: Graph, edges: set<EdgeKey>, tags: set<TagKey>, vertices: set<string>, t: TagKey)
    ensures var now := Deleted(g, edges, tags, vertices);
            && (t in now.tags <==> t in g.tags && t !in tags && t.1 !in vertices)
            && (t in now.tags ==> now.tags[t] == g.tags[t])
  {
  }

  /** Wherever an execution stopped, planning again and executing completely ends in the graph of one
      complete run, but for the stranded stubs: those stay, with their unmarked tags. */
  lemma ReplanAfterCrash(d: Domain, g: Graph, edges: set<EdgeKey>, tags: set<TagKey>, vertices: set<string>)
    requires Phased(CleanupPlan(d, g), edges, tags, vertices)
    ensures var plan := CleanupPlan(d, g);
            AfterCleanup(d, Deleted(g, edges, tags, vertices))
            == Deleted(g, plan.edges, plan.tags, plan.vertices - Stranded(d, g, tags, vertices))
  {
    hide CleanupPlan, Phased;
    var plan, now := CleanupPlan(d, g), Deleted(g, edges, tags, vertices);
    var again, stranded := CleanupPlan(d, now), Stranded(d, g, tags, vertices);
    VerticesAfterCrash(d, g, edges, tags, vertices);
    EdgesAfterCrash(d, g, edges, tags, vertices);
    PhasedIsPlanned(plan, edges, tags, vertices);
    SameRest(g, plan, edges, vertices, stranded);
    forall t
      ensures var a, b := Deleted(now, again.edges, again.tags, again.vertices).tags,
                          Deleted(g, plan.edges, plan.tags, plan.vertices - stranded).tags;
              (t in a <==> t in b) && (t in a ==> a[t] == b[t])
    {
      TagsAfterCrash(d, g, edges, tags, vertices, t);
      TagsLeft(now, again.edges, again.tags, again.vertices, t);
      TagsLeft(g, edges, tags, vertices, t);
      TagsLeft(g, plan.edges, plan.tags, plan.vertices - stranded, t);
    }
  }

  lemma PhasedIsPlanned(plan: Plan, edges: set<EdgeKey>, tags: set<TagKey>, vertices: set<string>)
    requires Phased(plan, edges, tags, vertices)
    ensures edges <= plan.edges && tags <= plan.tags && vertices <= plan.vertices
  {
  }

  lemma SameRest(g: Graph, plan: Plan, edges: set<EdgeKey>, vertices: set<string>, stranded: set<string>)
    requires edges <= plan.edges && vertices <= plan.vertices && stranded !! vertices
    ensures g.edges - edges - (plan.edges - edges) == g.edges - plan.edges
    ensures g.vids - vertices - (plan.vertices - vertices - stranded) == g.vids - (plan.vertices - stranded)
  {
  }

  /** So a crash does no lasting harm iff it strands no stub: iff no deletable stub that is still there has
      lost its Organization tag. In particular none does before the tag phase. */
  lemma ReplanConvergesIff(d: Domain, g: Graph, edges: set<EdgeKey>, tags: set<TagKey>, vertices: set<string>)
    requires Phased(CleanupPlan(d, g), edges, tags, vertices)
    ensures AfterCleanup(d, Deleted(g, edges, tags, vertices)) == AfterCleanup(d, g) <==> Stranded(d, g, tags, vertices) == {}
  {
    hide CleanupPlan;
    var plan, stranded := CleanupPlan(d, g), Stranded(d, g, tags, vertices);
    ReplanAfterCrash(d, g, edges, tags, vertices);
    StubsArePartitioned(d, g);
    if v :| v in stranded {
      assert v in plan.vertices && v in g.vids;
      assert v in Deleted(g, plan.edges, plan.tags, plan.vertices - stranded).vids && v !in AfterCleanup(d, g).vids;
    } else {
      assert plan.vertices - stranded == plan.vertices;
    }
  }

  /** What can be known beforehand: every stop can be repaired iff no deletable stub's Organization tag is
      itself to be deleted. */
  lemma EveryStopConvergesIff(d: Domain, g: Graph)
    ensures (forall edges, tags, vertices | Phased(CleanupPlan(d, g), edges, tags, vertices) ::
               AfterCleanup(d, Deleted(g, edges, tags, vertices)) == AfterCleanup(d, g))
            <==> forall v | v in CleanupPlan(d, g).vertices :: ("Organization", v) !in CleanupPlan(d, g).tags
  {
    hide CleanupPlan, AfterCleanup, Deleted;
    var plan := CleanupPlan(d, g);
    if v :| v in plan.vertices && ("Organization", v) in plan.tags {
      assert Phased(plan, plan.edges, plan.tags, {}) && v in Stranded(d, g, plan.tags, {});
      ReplanConvergesIff(d, g, plan.edges, plan.tags, {});
    } else {
      forall edges, tags, vertices | Phased(plan, edges, tags, vertices)
        ensures AfterCleanup(d, Deleted(g, edges, tags, vertices)) == AfterCleanup(d, g)
      {
        assert Stranded(d, g, tags, vertices) == {};
        ReplanConvergesIff(d, g, edges, tags, vertices);
      }
    }
  }

  /** A stub with a marked Organization tag: a crash between the tag and the vertex phase strands it. */
  lemma CrashStrandsAStub(d: Domain, v: string)
    requires IsStubVid(v)
    ensures var t := ("Organization", v);
            var g := Graph({v}, map[t := Payload("", true)], map[]);
            && Phased(CleanupPlan(d, g), {}, {t}, {}) && v !in AfterCleanup(d, g).vids
            && v in AfterCleanup(d, Deleted(g, {}, {t}, {})).vids
  {
    hide IsStubVid, Owned;
    var t := ("Organization", v);
    var g := Graph({v}, map[t := Payload("", true)], map[]);
    assert SyntheticTag(g, t) && v in Stubs(g);
    assert CleanupPlan(d, g).edges == {} && CleanupPlan(d, g).tags == {t} && CleanupPlan(d, g).vertices == {v};
  }

  // ---------------------------------------------------------------------------
  // What is deleted, said of the graph
  // ---------------------------------------------------------------------------

  /** The source table of an edge, cleaned and folded; the empty string if there is none. */
  function SourceOf(d: Domain, p: Payload): string {
    match d.clean(p.sourceTable)
    case Some(table) => d.fold(table)
    case None => d.fold("")
  }

  /** The vertex is an Organization and its VID begins with one of the five stub prefixes. */
  ghost predicate LooksLikeStub(g: Graph, v: string) {
    && v in g.vids && ("Organization", v) in g.tags
    && exists rest :: v in {"org_stub_" + rest, "organization_stub_" + rest, "virtual_org_" + rest,
                            "mock_org_" + rest, "placeholder_org_" + rest}
  }

  lemma StubPrefix(v: string)
    ensures IsStubVid(v) <==> exists rest :: v in {"org_stub_" + rest, "organization_stub_" + rest, "virtual_org_" + rest,
                                                   "mock_org_" + rest, "placeholder_org_" + rest}
  {
    if i :| 0 <= i < |STUB_PREFIXES| && StartsWith(v, STUB_PREFIXES[i]) {
      var rest := v[|STUB_PREFIXES[i]|..];
      assert v == STUB_PREFIXES[i] + rest;
    }
    if rest :| v in {"org_stub_" + rest, "organization_stub_" + rest, "virtual_org_" + rest,
                     "mock_org_" + rest, "placeholder_org_" + rest} {
      if v == "org_stub_" + rest {
        assert StartsWith(v, STUB_PREFIXES[0]);
      } else if v == "organization_stub_" + rest {
        assert StartsWith(v, STUB_PREFIXES[1]);
      } else if v == "virtual_org_" + rest {
        assert StartsWith(v, STUB_PREFIXES[2]);
      } else if v == "mock_org_" + rest {
        assert StartsWith(v, STUB_PREFIXES[3]);
      } else {
        assert StartsWith(v, STUB_PREFIXES[4]);
      }
    }
  }

  lemma StubIff(g: Graph, v: string)
    ensures v in Stubs(g) <==> LooksLikeStub(g, v)
  {
    hide IsStubVid;
    StubPrefix(v);
  }

  /** An edge is deleted iff its source table is an organization table or one of the five synthetic names,
      and it is at a stub, or is a relation edge that is marked or whose raw source table is a synthetic name
      in lower or upper case. */
  lemma DeletedEdgeIff(d: Domain, g: Graph, k: EdgeKey)
    requires k in g.edges
    ensures k !in AfterCleanup(d, g).edges <==>
              && (SourceOf(d, g.edges[k]) in d.tables
                  || SourceOf(d, g.edges[k]) in {"mock", "stub", "virtual", "placeholder", "test"})
              && (LooksLikeStub(g, k.source) || LooksLikeStub(g, k.target)
                  || (k.edgeType in d.edgeTypes
                      && (g.edges[k].marked
                          || g.edges[k].sourceTable in {"mock", "stub", "virtual", "placeholder", "test",
                                                        "MOCK", "STUB", "VIRTUAL", "PLACEHOLDER", "TEST"})))
    ensures k in AfterCleanup(d, g).edges ==> AfterCleanup(d, g).edges[k] == g.edges[k]
  {
    hide CleanupPlan, Stubs, LooksLikeStub;
    PlannedEdge(d, g, k);
    StubIff(g, k.source);
    StubIff(g, k.target);
  }

  /** A tag is deleted iff its vertex is, or it is one of the six organization tags and is marked. */
  lemma DeletedTagIff(d: Domain, g: Graph, t: TagKey)
    requires t in g.tags && t.1 in g.vids
    ensures t !in AfterCleanup(d, g).tags <==>
              || t.1 !in AfterCleanup(d, g).vids
              || (t.0 in {"Organization", "organization_base", "Person", "News", "Event", "Product"} && g.tags[t].marked)
    ensures t in AfterCleanup(d, g).tags ==> AfterCleanup(d, g).tags[t] == g.tags[t]
  {
    hide Stubs, Incident, Synthetic, Endpoints;
    assert t.0 in {"Organization", "organization_base", "Person", "News", "Event", "Product"} <==> t.0 in TAGS by {
      SixTags(t.0);
    }
  }

  lemma SixTags(name: string)
    ensures name in {"Organization", "organization_base", "Person", "News", "Event", "Product"} <==> name in TAGS
  {
    assert TAGS[0] == "Organization" && TAGS[1] == "organization_base" && TAGS[2] == "Person";
    assert TAGS[3] == "News" && TAGS[4] == "Event" && TAGS[5] == "Product";
  }

  /** An edge without a source table is never deleted, nor are its endpoints, unless the empty string is an
      organization table. */
  lemma UnsourcedEdgeStays(d: Domain, g: Graph, k: EdgeKey)
    requires NoDangling(g) && k in g.edges && d.clean(g.edges[k].sourceTable).None?
    requires d.fold("") == "" && "" !in d.tables
    ensures var after := AfterCleanup(d, g);
            k in after.edges && after.edges[k] == g.edges[k] && k.source in after.vids && k.target in after.vids
  {
    hide AfterCleanup, LooksLikeStub;
    DeletedEdgeIff(d, g, k);
    SafeAtEnd(d, g);
  }

  // ---------------------------------------------------------------------------
  // What shared vertices can lose
  // ---------------------------------------------------------------------------

  /** The vertex is at an edge that the organization domain does not own. */
  ghost predicate AtSharedEdge(d: Domain, g: Graph, v: string) {
    exists k | k in g.edges :: Touches(k, {v}) && !Owned(d, g.edges[k])
  }

  /** A vertex is deleted iff it is a stub at no shared edge. Where its Organization tag comes from, and
      which other tags it has, plays no part. */
  lemma DeletedVertexIff(d: Domain, g: Graph, v: string)
    requires v in g.vids
    ensures v !in AfterCleanup(d, g).vids <==> LooksLikeStub(g, v) && !AtSharedEdge(d, g, v)
  {
    hide CleanupPlan, IsStub, Owned, LooksLikeStub;
    StubsArePartitioned(d, g);
    StubIff(g, v);
  }

  /** A shared edge is one whose source table is neither an organization table nor a synthetic name. */
  lemma AtSharedEdgeIff(d: Domain, g: Graph, v: string)
    ensures AtSharedEdge(d, g, v) <==>
              exists k | k in g.edges :: v in {k.source, k.target} && SourceOf(d, g.edges[k]) !in d.tables
                && SourceOf(d, g.edges[k]) !in {"mock", "stub", "virtual", "placeholder", "test"}
  {
    if k :| k in g.edges && Touches(k, {v}) && !Owned(d, g.edges[k]) {
      assert v in {k.source, k.target};
    }
  }

  /** A stub vertex whose Organization tag has no organization provenance. */
  predicate Foreign(d: Domain, g: Graph, v: string) {
    IsStub(g, v) && !Owned(d, g.tags[("Organization", v)])
  }

  /** So vertices without organization provenance are never deleted iff all such stubs are at shared edges. */
  lemma ForeignVerticesStayIff(d: Domain, g: Graph)
    ensures (forall v | Foreign(d, g, v) :: v in AfterCleanup(d, g).vids)
            <==> forall v | Foreign(d, g, v) :: AtSharedEdge(d, g, v)
  {
    hide AfterCleanup, AtSharedEdge, Owned, LooksLikeStub;
    forall v | Foreign(d, g, v)
      ensures v in AfterCleanup(d, g).vids <==> AtSharedEdge(d, g, v)
    {
      DeletedVertexIff(d, g, v);
      StubIff(g, v);
    }
  }

  /** Whatever its tags say of their source, a person whose VID looks like a stub's and that also is an
      Organization is deleted when it has no edge. */
  lemma ForeignVertexIsDeleted(d: Domain, v: string, organization: Payload, person: Payload)
    requires IsStubVid(v)
    ensures var g := Graph({v}, map[("Organization", v) := organization, ("Person", v) := person], map[]);
            v !in AfterCleanup(d, g).vids && ("Person", v) !in AfterCleanup(d, g).tags
  {
    hide IsStubVid, Owned;
    var g := Graph({v}, map[("Organization", v) := organization, ("Person", v) := person], map[]);
    assert v in Stubs(g) && CleanupPlan(d, g).vertices == {v};
  }

  /** A surviving vertex keeps exactly its tags without a synthetic marker. */
  lemma SurvivingTags(d: Domain, g: Graph, v: string, name: string)
    requires v in AfterCleanup(d, g).vids
    ensures (name, v) in AfterCleanup(d, g).tags <==> (name, v) in g.tags && !SyntheticTag(g, (name, v))
  {
  }

  /** So the endpoint of a shared edge ends without any tag iff all of its tags are synthetic. */
  lemma SharedEndpointTagless(d: Domain, g: Graph, k: EdgeKey, v: string)
    requires NoDangling(g) && k in g.edges && !Owned(d, g.edges[k]) && Touches(k, {v})
    ensures var after := AfterCleanup(d, g);
            && v in after.vids
            && ((forall name :: (name, v) !in after.tags) <==>
                forall name | (name, v) in g.tags :: SyntheticTag(g, (name, v)))
  {
    hide AfterCleanup, SyntheticTag;
    var plan := CleanupPlan(d, g);
    SafeAtEnd(d, g);
    forall name
      ensures (name, v) in AfterCleanup(d, g).tags <==> (name, v) in g.tags && !SyntheticTag(g, (name, v))
    {
      SurvivingTags(d, g, v, name);
    }
  }

  /** One marked tag at a shared edge is enough. */
  lemma SharedEndpointLosesItsTag(d: Domain, k: EdgeKey, shared: Payload)
    requires !Owned(d, shared)
    ensures var g := Graph({k.source, k.target}, map[("Person", k.source) := Payload("", true)], map[k := shared]);
            k in AfterCleanup(d, g).edges && forall name :: (name, k.source) !in AfterCleanup(d, g).tags
  {
    hide AfterCleanup, Owned;
    var g := Graph({k.source, k.target}, map[("Person", k.source) := Payload("", true)], map[k := shared]);
    assert "Person" == TAGS[2] && SyntheticTag(g, ("Person", k.source));
    SharedEdgesStay(d, g);
    SharedEndpointTagless(d, g, k, k.source);
  }

  lemma SafeAtEnd(d: Domain, g: Graph)
    requires NoDangling(g)
    ensures Safe(d, g, AfterCleanup(d, g))
  {
    var plan := CleanupPlan(d, g);
    PrefixIsSafe(d, g, plan.edges, plan.tags, plan.vertices);
  }
}
