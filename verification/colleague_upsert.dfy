/** Persisting the symmetric COLLEAGUE relation, and reading a subgraph page by page. */
module ColleagueUpsert {
  import opened Dicts
  import opened Options
  import opened Paging
  import opened TextOps

  // ---------------------------------------------------------------------------
  // COLLEAGUE edges
  // ---------------------------------------------------------------------------

  datatype EdgeId = EdgeId(source: string, target: string, rank: int)

  /** The edges of this type; both writing calls set the complete properties. */
  type Edges = map<EdgeId, string>

  datatype Relation = Relation(target: string, properties: string)

  /** The edge a pair is created as: smaller VID first, rank 0. */
  function PairEdge(a: string, b: string): EdgeId {
    if Less(b, a) then EdgeId(b, a, 0) else EdgeId(a, b, 0)
  }

  predicate Joins(id: EdgeId, a: string, b: string) {
    (id.source == a && id.target == b) || (id.source == b && id.target == a)
  }

  predicate IncidentTo(id: EdgeId, expert: string) { id.source == expert || id.target == expert }

  /** The endpoint the existing-edge index files an edge under. */
  function Other(id: EdgeId, expert: string): string {
    if id.source == expert then id.target else id.source
  }

  /** Every edge has its endpoints sorted and rank 0. */
  ghost predicate Normal(edges: Edges) {
    forall id | id in edges :: id == PairEdge(id.source, id.target)
  }

  ghost predicate OnePerPair(edges: Edges) {
    forall x, y | x in edges && y in edges && Joins(y, x.source, x.target) :: x == y
  }

  lemma PairEdgeSymmetric(a: string, b: string)
    ensures PairEdge(a, b) == PairEdge(b, a) && Joins(PairEdge(a, b), a, b)
    ensures PairEdge(PairEdge(a, b).source, PairEdge(a, b).target) == PairEdge(a, b)
  {
    LessIsTotal(a, b);
  }

  lemma NormalIsOnePerPair(edges: Edges)
    requires Normal(edges)
    ensures OnePerPair(edges)
  {
    forall x, y | x in edges && y in edges && Joins(y, x.source, x.target)
      ensures x == y
    {
      PairEdgeSymmetric(x.source, x.target);
    }
  }

  // ---------------------------------------------------------------------------
  // One call
  // ---------------------------------------------------------------------------

  /** The edges after upserting the relations in order. */
  function Upserted(edges: Edges, expert: string, relations: seq<Relation>): Edges {
    if relations == [] then edges
    else
      var r := relations[|relations| - 1];
      Upserted(edges, expert, relations[..|relations| - 1])[PairEdge(expert, r.target) := r.properties]
  }

  /** Existing edges by the other endpoint; a later one overwrites an earlier one. */
  function ByOther(ids: seq<EdgeId>, expert: string): map<string, EdgeId> {
    if ids == [] then map[]
    else
      var id := ids[|ids| - 1];
      ByOther(ids[..|ids| - 1], expert)[Other(id, expert) := id]
  }

  function CreatedCount(existing: map<string, EdgeId>, relations: seq<Relation>): (n: nat)
    ensures n <= |relations|
  {
    if relations == [] then 0
    else CreatedCount(existing, relations[..|relations| - 1]) + if relations[|relations| - 1].target in existing then 0 else 1
  }

  class ColleagueGraph {
    var edges: Edges

    /** Upsert at rank 0. A call that fails may have taken effect. */
    method CreateEdge(source: string, target: string, properties: string) returns (ok: bool)
      modifies this
      ensures edges == old(edges)[EdgeId(source, target, 0) := properties] || (!ok && edges == old(edges))
    {
      var applied: bool := *;
      ok := *;
      if ok || applied { edges := edges[EdgeId(source, target, 0) := properties]; }
    }

    method UpdateEdge(id: EdgeId, properties: string) returns (ok: bool)
      requires id in edges
      modifies this
      ensures edges == old(edges)[id := properties] || (!ok && edges == old(edges))
    {
      var applied: bool := *;
      ok := *;
      if ok || applied { edges := edges[id := properties]; }
    }
  }

  /** A read of the expert's edges: it may fail, or return only some of them. */
  ghost predicate IsRead(edges: Edges, expert: string, ids: seq<EdgeId>) {
    forall id | id in ids :: id in edges && IncidentTo(id, expert)
  }

  lemma {:induction false} ByOtherIsPairEdge(edges: Edges, expert: string, ids: seq<EdgeId>)
    requires Normal(edges) && IsRead(edges, expert, ids)
    ensures forall t | t in ByOther(ids, expert) :: ByOther(ids, expert)[t] == PairEdge(expert, t) && ByOther(ids, expert)[t] in edges
  {
    if ids != [] {
      var before, id := ids[..|ids| - 1], ids[|ids| - 1];
      assert ids == before + [id];
      ByOtherIsPairEdge(edges, expert, before);
      assert id in ids && id == PairEdge(id.source, id.target);
      PairEdgeSymmetric(id.source, id.target);
      assert PairEdge(expert, Other(id, expert)) == id;
    }
  }

  ghost predicate CompleteRead(edges: Edges, expert: string, ids: seq<EdgeId>) {
    IsRead(edges, expert, ids) && forall id | id in edges && IncidentTo(id, expert) :: id in ids
  }

  lemma {:induction false} ByOtherCovers(ids: seq<EdgeId>, expert: string, id: EdgeId)
    requires id in ids
    ensures Other(id, expert) in ByOther(ids, expert)
  {
    var before, last := ids[..|ids| - 1], ids[|ids| - 1];
    assert ids == before + [last];
    if id != last {
      ByOtherCovers(before, expert, id);
    }
  }

  /** The expert's edge to a colleague, however oriented; if the read returns several, the last of them. */
  lemma {:induction false} ByOtherIs(edges: Edges, expert: string, ids: seq<EdgeId>, colleague: string, j: nat)
    requires IsRead(edges, expert, ids) && j < |ids| && Joins(ids[j], expert, colleague)
    requires forall k | j < k < |ids| :: !Joins(ids[k], expert, colleague)
    ensures colleague in ByOther(ids, expert) && ByOther(ids, expert)[colleague] == ids[j]
  {
    var before, last := ids[..|ids| - 1], ids[|ids| - 1];
    assert last in ids && forall id | id in before :: id in ids;
    if j < |ids| - 1 {
      ByOtherIs(edges, expert, before, colleague, j);
    }
  }

  /** The edge a relation is written to: the existing one of the pair that the read found, or else the
      sorted one. */
  function EdgeFor(existing: map<string, EdgeId>, expert: string, target: string): EdgeId {
    if target in existing then existing[target] else PairEdge(expert, target)
  }

  /** The edges after writing the relations in order. */
  function Persisted(edges: Edges, existing: map<string, EdgeId>, expert: string, relations: seq<Relation>): Edges {
    if relations == [] then edges
    else
      var r := relations[|relations| - 1];
      Persisted(edges, existing, expert, relations[..|relations| - 1])[EdgeFor(existing, expert, r.target) := r.properties]
  }

  function Found(read: Option<seq<EdgeId>>): seq<EdgeId> { if read.Some? then read.value else [] }

  lemma {:induction false} ByOtherIsRead(ids: seq<EdgeId>, expert: string)
    ensures forall t | t in ByOther(ids, expert) :: ByOther(ids, expert)[t] in ids && Other(ByOther(ids, expert)[t], expert) == t
  {
    if ids != [] {
      ByOtherIsRead(ids[..|ids| - 1], expert);
    }
  }

  /** Writes the relations of one expert, to the edges that the read found (`None`: it failed) or to the
      sorted ones. */
  method PersistRelations(g: ColleagueGraph, expert: string, relations: seq<Relation>, read: Option<seq<EdgeId>>)
    returns (ok: bool, created: nat, updated: nat, ghost n: nat)
    requires IsRead(g.edges, expert, Found(read))
    modifies g
    ensures n <= |relations| && g.edges == Persisted(old(g.edges), ByOther(Found(read), expert), expert, relations[..n])
    ensures ok ==> n == |relations| && created + updated == |relations|
    ensures ok ==> created == CreatedCount(ByOther(Found(read), expert), relations)
  {
    hide ByOther, PairEdge;
    ok, created, updated, n := true, 0, 0, 0;
    var existing := ByOther(Found(read), expert);
    ByOtherIsRead(Found(read), expert);
    for i := 0 to |relations|
      invariant ok && n == i && g.edges == Persisted(old(g.edges), existing, expert, relations[..i])
      invariant forall t | t in existing :: existing[t] in g.edges
      invariant created + updated == i && created == CreatedCount(existing, relations[..i])
    {
      assert relations[..i + 1][..i] == relations[..i];
      var target, properties := relations[i].target, relations[i].properties;
      ghost var before := g.edges;
      if target !in existing {
        SortedEdge(expert, target);
        var id := PairEdge(expert, target);
        ok := g.CreateEdge(id.source, id.target, properties);
        if !ok {
          n := if g.edges == before then i else i + 1;
          return;
        }
        created := created + 1;
      } else {
        ok := g.UpdateEdge(existing[target], properties);
        if !ok {
          n := if g.edges == before then i else i + 1;
          return;
        }
        updated := updated + 1;
      }
      n := i + 1;
    }
    assert relations[..|relations|] == relations;
  }

  lemma SortedEdge(a: string, b: string)
    ensures PairEdge(a, b).rank == 0
  {
  }

  /** On sorted edges the graph afterwards depends neither on what the read returned nor on whether it
      failed: only the counts do. */
  lemma {:induction false} ReadDoesNotMatter(edges: Edges, expert: string, ids: seq<EdgeId>, relations: seq<Relation>)
    requires Normal(edges) && IsRead(edges, expert, ids)
    ensures Persisted(edges, ByOther(ids, expert), expert, relations) == Upserted(edges, expert, relations)
  {
    hide ByOther, PairEdge;
    if relations != [] {
      ReadDoesNotMatter(edges, expert, ids, relations[..|relations| - 1]);
      ByOtherIsPairEdge(edges, expert, ids);
    }
  }

  // ---------------------------------------------------------------------------
  // One edge per pair, whatever the orientation and rank of the existing edges
  // ---------------------------------------------------------------------------

  /** Every existing edge between the expert and a target of the relations is the one that is written. */
  ghost predicate FindsEdges(edges: Edges, existing: map<string, EdgeId>, expert: string, relations: seq<Relation>) {
    forall r, id | r in relations && id in edges && Joins(id, expert, r.target) :: id == EdgeFor(existing, expert, r.target)
  }

  lemma EdgeForJoins(ids: seq<EdgeId>, expert: string, target: string)
    requires forall id | id in ids :: IncidentTo(id, expert)
    ensures Joins(EdgeFor(ByOther(ids, expert), expert, target), expert, target)
  {
    hide ByOther;
    ByOtherIsRead(ids, expert);
    PairEdgeSymmetric(expert, target);
  }

  lemma {:induction false} PersistedKeys(edges: Edges, existing: map<string, EdgeId>, expert: string, relations: seq<Relation>)
    ensures forall id :: id in Persisted(edges, existing, expert, relations) <==>
              id in edges || exists r | r in relations :: id == EdgeFor(existing, expert, r.target)
  {
    hide EdgeFor;
    if relations != [] {
      PersistedKeys(edges, existing, expert, relations[..|relations| - 1]);
      assert relations == relations[..|relations| - 1] + [relations[|relations| - 1]];
    }
  }

  lemma SamePair(x: EdgeId, y: EdgeId, expert: string, s: string, t: string)
    requires Joins(x, expert, s) && Joins(y, expert, t) && Joins(y, x.source, x.target)
    ensures s == t && Joins(x, expert, t)
  {
  }

  lemma OneWritten(edges: Edges, ids: seq<EdgeId>, expert: string, relations: seq<Relation>, x: EdgeId, y: EdgeId)
    requires IsRead(edges, expert, ids) && OnePerPair(edges) && FindsEdges(edges, ByOther(ids, expert), expert, relations)
    requires x in Persisted(edges, ByOther(ids, expert), expert, relations)
    requires y in Persisted(edges, ByOther(ids, expert), expert, relations) && Joins(y, x.source, x.target)
    ensures x == y
  {
    hide ByOther, EdgeFor, Persisted;
    var existing := ByOther(ids, expert);
    PersistedKeys(edges, existing, expert, relations);
    forall r | r in relations
      ensures Joins(EdgeFor(existing, expert, r.target), expert, r.target)
    {
      EdgeForJoins(ids, expert, r.target);
    }
    if q :| q in relations && y == EdgeFor(existing, expert, q.target) {
      if r :| r in relations && x == EdgeFor(existing, expert, r.target) {
        SamePair(x, y, expert, r.target, q.target);
      }
      assert Joins(x, expert, q.target);
    }
    if r :| r in relations && x == EdgeFor(existing, expert, r.target) {
      assert Joins(y, expert, r.target);
    }
  }

  /** Writing keeps at most one edge per pair iff it finds the existing edges of the pairs it writes. */
  lemma KeepsOneIff(edges: Edges, ids: seq<EdgeId>, expert: string, relations: seq<Relation>)
    requires OnePerPair(edges) && IsRead(edges, expert, ids)
    ensures OnePerPair(Persisted(edges, ByOther(ids, expert), expert, relations)) <==>
              FindsEdges(edges, ByOther(ids, expert), expert, relations)
  {
    hide ByOther, EdgeFor, Persisted;
    var existing := ByOther(ids, expert);
    var now := Persisted(edges, existing, expert, relations);
    PersistedKeys(edges, existing, expert, relations);
    if OnePerPair(now) {
      forall r, id | r in relations && id in edges && Joins(id, expert, r.target)
        ensures id == EdgeFor(existing, expert, r.target)
      {
        EdgeForJoins(ids, expert, r.target);
        assert EdgeFor(existing, expert, r.target) in now && id in now;
      }
    }
    if FindsEdges(edges, existing, expert, relations) {
      forall x, y | x in now && y in now && Joins(y, x.source, x.target)
        ensures x == y
      {
        OneWritten(edges, ids, expert, relations, x, y);
      }
    }
  }

  /** A complete read always finds them: on any graph with one edge per pair the call keeps it so. */
  lemma CompleteReadKeepsOne(edges: Edges, ids: seq<EdgeId>, expert: string, relations: seq<Relation>)
    requires OnePerPair(edges) && CompleteRead(edges, expert, ids)
    ensures OnePerPair(Persisted(edges, ByOther(ids, expert), expert, relations))
  {
    hide ByOther, Persisted, OnePerPair;
    forall r, id | r in relations && id in edges && Joins(id, expert, r.target)
      ensures id == EdgeFor(ByOther(ids, expert), expert, r.target)
    {
      ByOtherCovers(ids, expert, id);
      ByOtherIsRead(ids, expert);
      SameJoin(edges, id, ByOther(ids, expert)[r.target]);
    }
    KeepsOneIff(edges, ids, expert, relations);
  }

  lemma SameJoin(edges: Edges, x: EdgeId, y: EdgeId)
    requires OnePerPair(edges) && x in edges && y in edges && Joins(y, x.source, x.target)
    ensures x == y
  {
  }

  /** A failed read keeps it iff no pair that is written has any other edge than the sorted one. */
  lemma FailedReadKeepsOneIff(edges: Edges, expert: string, relations: seq<Relation>)
    requires OnePerPair(edges)
    ensures OnePerPair(Persisted(edges, map[], expert, relations)) <==>
              forall r, id | r in relations && id in edges && Joins(id, expert, r.target) :: id == PairEdge(expert, r.target)
  {
    KeepsOneIff(edges, [], expert, relations);
  }

  /** An edge stored in the other direction and a read that fails: the pair then has two edges. */
  lemma FailedReadDuplicates(properties: string)
    ensures var edges: Edges := map[EdgeId("b", "a", 0) := properties];
            OnePerPair(edges) && !OnePerPair(Persisted(edges, map[], "a", [Relation("b", properties)]))
  {
    var edges: Edges := map[EdgeId("b", "a", 0) := properties];
    var r, id := Relation("b", properties), EdgeId("b", "a", 0);
    assert Less("a", "b") && "a"[0] != "b"[0];
    assert PairEdge("a", "b") == EdgeId("a", "b", 0) != id;
    assert r in [r] && id in edges && Joins(id, "a", r.target);
    FailedReadKeepsOneIff(edges, "a", [r]);
  }

  // ---------------------------------------------------------------------------
  // Any sequence of calls
  // ---------------------------------------------------------------------------

  /** A call that wrote the first `n` of its relations. */
  datatype Call = Call(expert: string, relations: seq<Relation>, n: nat)

  function AfterCalls(edges: Edges, calls: seq<Call>): Edges {
    if calls == [] then edges
    else
      var call := calls[|calls| - 1];
      Upserted(AfterCalls(edges, calls[..|calls| - 1]), call.expert,
               call.relations[..if call.n <= |call.relations| then call.n else |call.relations|])
  }

  lemma {:induction false} UpsertedNormal(edges: Edges, expert: string, relations: seq<Relation>)
    requires Normal(edges)
    ensures Normal(Upserted(edges, expert, relations))
    ensures edges.Keys <= Upserted(edges, expert, relations).Keys
    ensures forall r | r in relations :: PairEdge(expert, r.target) in Upserted(edges, expert, relations)
  {
    if relations != [] {
      var before, r := relations[..|relations| - 1], relations[|relations| - 1];
      assert relations == before + [r];
      UpsertedNormal(edges, expert, before);
      PairEdgeSymmetric(expert, r.target);
    }
  }

  /** Whoever asks, and in whichever order, at most one COLLEAGUE edge joins two persons. */
  lemma {:induction false} CallsKeepOnePerPair(edges: Edges, calls: seq<Call>)
    requires Normal(edges)
    ensures Normal(AfterCalls(edges, calls)) && OnePerPair(AfterCalls(edges, calls))
  {
    hide Upserted;
    if calls != [] {
      var call := calls[|calls| - 1];
      var before := AfterCalls(edges, calls[..|calls| - 1]);
      CallsKeepOnePerPair(edges, calls[..|calls| - 1]);
      UpsertedNormal(before, call.expert, call.relations[..if call.n <= |call.relations| then call.n else |call.relations|]);
    }
    NormalIsOnePerPair(AfterCalls(edges, calls));
  }

  lemma {:induction false} NothingCreated(existing: map<string, EdgeId>, relations: seq<Relation>)
    requires forall r | r in relations :: r.target in existing
    ensures CreatedCount(existing, relations) == 0
  {
    if relations != [] {
      assert relations == relations[..|relations| - 1] + [relations[|relations| - 1]];
      NothingCreated(existing, relations[..|relations| - 1]);
    }
  }

  /** Repeating a call right away, with a complete read, creates nothing, whatever edges there were and
      whatever the first call has read. */
  lemma RepeatCreatesNothing(edges: Edges, expert: string, relations: seq<Relation>, first: seq<EdgeId>, ids: seq<EdgeId>)
    requires IsRead(edges, expert, first)
    requires CompleteRead(Persisted(edges, ByOther(first, expert), expert, relations), expert, ids)
    ensures CreatedCount(ByOther(ids, expert), relations) == 0
  {
    hide Persisted, ByOther, CreatedCount, EdgeFor;
    var existing := ByOther(first, expert);
    PersistedKeys(edges, existing, expert, relations);
    forall r | r in relations
      ensures r.target in ByOther(ids, expert)
    {
      EdgeForJoins(first, expert, r.target);
      ByOtherCovers(ids, expert, EdgeFor(existing, expert, r.target));
    }
    NothingCreated(ByOther(ids, expert), relations);
  }

  // ---------------------------------------------------------------------------
  // Reading a subgraph
  // ---------------------------------------------------------------------------

  datatype Node = Node(id: string, properties: string)

  datatype Edge = Edge(key: string, source: string, target: string, properties: string)

  /** Why the paging stops: enough edges, no more items, or a last page without any new key. */
  ghost predicate Stops(items: seq<Edge>, limit: int, n: nat, count: nat) {
    || count >= limit || n == |items|
    || exists k: nat :: k < n <= |items| && |Dict(items[..k], EdgeKeyOf)| == count
  }

  function EdgeKeyOf(e: Edge): string { e.key }

  function NodeId(n: Node): string { n.id }

  /** The nodes that come with a page contain the endpoints of its edges. */
  ghost predicate ClosedPages(items: seq<Edge>, nodesOf: (nat, nat) -> seq<Node>) {
    forall offset: nat, size: nat, e | e in Page(items, offset, size) :: HasEnds(nodesOf(offset, size), e)
  }

  ghost predicate HasEnds(nodes: seq<Node>, e: Edge) {
    && (exists x :: x in nodes && x.id == e.source)
    && exists x :: x in nodes && x.id == e.target
  }

  ghost predicate Closed(nodes: seq<Node>, edges: seq<Edge>) {
    forall e | e in edges :: HasEnds(nodes, e)
  }

  /** Pages through the service's edge list until `limit` edges are known; `nodesOf` are the nodes that it
      sends with a page. `n` items have been read then, and the nodes `seen`. */
  method Subgraph(items: seq<Edge>, nodesOf: (nat, nat) -> seq<Node>, limit: int)
    returns (nodes: seq<Node>, edges: seq<Edge>, ghost n: nat, ghost seen: seq<Node>)
    ensures limit > 0 ==> |edges| <= limit
    ensures n <= |items| && edges == Dict(items[..n], EdgeKeyOf) && Stops(items, limit, n, |edges|)
    ensures (forall i, j | 0 <= i < j < |items| :: items[i].key != items[j].key) && limit > 0 ==>
              edges == items[..if limit < |items| then limit else |items|]
    ensures nodes == Dict(seen, NodeId) && (ClosedPages(items, nodesOf) ==> Closed(nodes, edges))
  {
    hide Dict, ClosedPages, Closed, HasEnds, Stops;
    nodes, edges, n, seen := [], [], 0, [];
    var pageSize := if limit < 200 then limit else 200;
    var offset: nat := 0;
    NothingSeen(items);
    while |edges| < limit
      invariant limit > 0 ==> |edges| <= limit
      invariant n == offset <= |items| && edges == Dict(items[..n], EdgeKeyOf) && nodes == Dict(seen, NodeId)
      invariant ClosedPages(items, nodesOf) ==> Closed(seen, items[..n])
      decreases limit - |edges|
    {
      var remaining := limit - |edges|;
      var size: nat := if pageSize < remaining then pageSize else remaining;
      var page := Page(items, offset, size);
      var before := |edges|;
      SeenMore(items, nodesOf, offset, size, seen);
      nodes := PutAll(seen, nodes, nodesOf(offset, size), NodeId);
      seen := seen + nodesOf(offset, size);
      edges := PutAll(items[..offset], edges, page, EdgeKeyOf);
      n := offset + |page|;
      if |page| < size || |edges| == before {
        StopsEarly(items, limit, offset, n, before);
        break;
      }
      offset := offset + size;
    }
    EnoughStops(items, limit, n, |edges|);
    DistinctStops(items, limit, n, edges);
    if ClosedPages(items, nodesOf) {
      ClosedDict(seen, items[..n]);
    }
  }

  lemma NothingSeen(items: seq<Edge>)
    ensures Dict<Edge>([], EdgeKeyOf) == [] && Dict<Node>([], NodeId) == [] && items[..0] == []
    ensures Closed([], [])
  {
  }

  lemma SeenMore(items: seq<Edge>, nodesOf: (nat, nat) -> seq<Node>, offset: nat, size: nat, seen: seq<Node>)
    requires offset <= |items|
    ensures var page := Page(items, offset, size);
            && offset + |page| <= |items| && items[..offset + |page|] == items[..offset] + page
            && (|page| < size ==> offset + |page| == |items|)
            && (ClosedPages(items, nodesOf) && Closed(seen, items[..offset]) ==>
                  Closed(seen + nodesOf(offset, size), items[..offset + |page|]))
  {
    var page, more := Page(items, offset, size), nodesOf(offset, size);
    assert items[..offset + |page|] == items[..offset] + page;
    if ClosedPages(items, nodesOf) && Closed(seen, items[..offset]) {
      forall e | e in items[..offset + |page|]
        ensures HasEnds(seen + more, e)
      {
        assert e in items[..offset] || e in page;
      }
    }
  }

  lemma StopsEarly(items: seq<Edge>, limit: int, offset: nat, n: nat, count: nat)
    requires offset <= n <= |items| && count == |Dict(items[..offset], EdgeKeyOf)|
    ensures offset < n ==> Stops(items, limit, n, count)
  {
  }

  lemma EnoughStops(items: seq<Edge>, limit: int, n: nat, count: nat)
    ensures count >= limit || n == |items| ==> Stops(items, limit, n, count)
  {
  }

  lemma ClosedDict(seen: seq<Node>, items: seq<Edge>)
    requires Closed(seen, items)
    ensures Closed(Dict(seen, NodeId), Dict(items, EdgeKeyOf))
  {
    hide Dict;
    DictMembers(items, EdgeKeyOf);
    DictMembers(seen, NodeId);
    forall e | e in Dict(items, EdgeKeyOf)
      ensures HasEnds(Dict(seen, NodeId), e)
    {
      assert HasEnds(seen, e);
      assert HasKey(seen, NodeId, e.source) && HasKey(seen, NodeId, e.target);
    }
  }

  /** The edge dictionary of what was read: the last edge sent under each key, each key once. */
  lemma EdgesAre(items: seq<Edge>, e: Edge)
    ensures e in Dict(items, EdgeKeyOf) <==>
              exists i | 0 <= i < |items| && items[i] == e :: forall j | i < j < |items| :: items[j].key != e.key
    ensures var edges := Dict(items, EdgeKeyOf); forall i, j | 0 <= i < j < |edges| :: edges[i].key != edges[j].key
  {
    hide Dict;
    DictIff(items, EdgeKeyOf, e);
    var edges := Dict(items, EdgeKeyOf);
    assert forall i, j | 0 <= i < j < |edges| :: EdgeKeyOf(edges[i]) != EdgeKeyOf(edges[j]);
    if i :| 0 <= i < |items| && items[i] == e && forall j | i < j < |items| :: items[j].key != e.key {
      assert LastOfKey(items, EdgeKeyOf, i);
    }
  }

  /** And the last node sent under each id, each id once. */
  lemma NodesAre(seen: seq<Node>, x: Node)
    ensures x in Dict(seen, NodeId) <==>
              exists i | 0 <= i < |seen| && seen[i] == x :: forall j | i < j < |seen| :: seen[j].id != x.id
    ensures var nodes := Dict(seen, NodeId); forall i, j | 0 <= i < j < |nodes| :: nodes[i].id != nodes[j].id
  {
    hide Dict;
    DictIff(seen, NodeId, x);
    var nodes := Dict(seen, NodeId);
    assert forall i, j | 0 <= i < j < |nodes| :: NodeId(nodes[i]) != NodeId(nodes[j]);
    if i :| 0 <= i < |seen| && seen[i] == x && forall j | i < j < |seen| :: seen[j].id != x.id {
      assert LastOfKey(seen, NodeId, i);
    }
  }

  lemma DistinctStops(items: seq<Edge>, limit: int, n: nat, edges: seq<Edge>)
    requires n <= |items| && edges == Dict(items[..n], EdgeKeyOf) && Stops(items, limit, n, |edges|)
    ensures DistinctKeys(items, EdgeKeyOf) && |edges| <= limit ==> edges == items[..if limit < |items| then limit else |items|]
  {
    hide Dict;
    if DistinctKeys(items, EdgeKeyOf) {
      DictOfDistinct(items[..n], EdgeKeyOf);
      if k: nat :| k < n <= |items| && |Dict(items[..k], EdgeKeyOf)| == |edges| {
        DictOfDistinct(items[..k], EdgeKeyOf);
      }
    }
  }

  /** Assigns a page's items to the dictionary. */
  method PutAll<T>(ghost done: seq<T>, start: seq<T>, page: seq<T>, key: T -> string) returns (values: seq<T>)
    requires start == Dict(done, key)
    ensures values == Dict(done + page, key)
    ensures |start| <= |values| <= |start| + |page|
  {
    hide Position;
    values := start;
    assert done + page[..0] == done;
    for i := 0 to |page|
      invariant |start| <= |values| <= |start| + i
      invariant values == Dict(done + page[..i], key)
    {
      assert (done + page[..i + 1])[..|done| + i] == done + page[..i];
      values := Put(values, key, page[i]);
    }
    assert page[..|page|] == page;
  }
}
