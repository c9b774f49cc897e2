/** Writing patent relations: bisecting batches, replacement of the edges written earlier. */
module RelationWriter {
  import opened EdgeRecords
  import opened MapFacts

  const ALL_EDGE_TYPES := ["INVENTED_BY", "APPLIED_BY", "OWNED_BY", "CITES", "OUTPUT_OF"]

  type Edges = map<EdgeKey, Properties>

  function EdgeCell(r: EdgeRecord): Edges { map[r.Cell() := r.properties] }

  /** The edges after inserting the records in order into an empty graph. */
  function Cells(rows: seq<EdgeRecord>): Edges { LastWins(rows, EdgeCell) }

  /** `after` differs from `before` on keys of `touched` at most. */
  ghost predicate OnlyTouches(before: Edges, after: Edges, touched: set<EdgeKey>) {
    forall k | k !in touched ::
      && (k in after <==> k in before)
      && (k in before ==> after[k] == before[k])
  }

  class RelationGraph {
    /** VIDs that carry the Patent tag. */
    const patents: set<string>
    var edges: Edges
    /** Records of the accepted INSERT statements, and how many INSERT statements were sent. */
    ghost var applied: seq<EdgeRecord>
    ghost var sent: nat

    /** One INSERT EDGE statement; a rejected one may have been applied in part. */
    method ExecuteInsert(batch: seq<EdgeRecord>) returns (ok: bool)
      modifies this
      ensures sent == old(sent) + 1
      ensures applied == old(applied) + if ok then batch else []
      ensures ok ==> edges == old(edges) + Cells(batch)
      ensures OnlyTouches(old(edges), edges, Cells(batch).Keys)
    {
      ok := *;
      var mask: set<EdgeKey> := *;
      var cells := Cells(batch);
      edges := edges + if ok then cells else map k | k in cells && k in mask :: cells[k];
      sent := sent + 1;
      applied := applied + if ok then batch else [];
    }

    /** One DELETE EDGE statement over exact keys. */
    method ExecuteDelete(keys: seq<EdgeKey>) returns (ok: bool)
      modifies this`edges
      ensures ok ==> edges == old(edges) - set k | k in keys
      ensures OnlyTouches(old(edges), edges, set k | k in keys)
    {
      ok := *;
      var mask: set<EdgeKey> := *;
      edges := edges - set k | k in keys && (ok || k in mask);
    }
  }

  lemma CellsConcat(a: seq<EdgeRecord>, b: seq<EdgeRecord>)
    ensures Cells(a + b) == Cells(a) + Cells(b)
  {
    LastWinsConcat(a, b, EdgeCell);
  }

  lemma OnlyTouchesTrans(a: Edges, b: Edges, c: Edges, ks: set<EdgeKey>, ls: set<EdgeKey>, all: set<EdgeKey>)
    requires OnlyTouches(a, b, ks) && OnlyTouches(b, c, ls) && ks <= all && ls <= all
    ensures OnlyTouches(a, c, all)
  {
  }

  // ---------------------------------------------------------------------------
  // execute_batched
  // ---------------------------------------------------------------------------

  /** The accepted statements carry, in order and without repetition, the first `n` records:
      all of them exactly when the call returns normally. */
  method WriteBatch(g: RelationGraph, batch: seq<EdgeRecord>) returns (ok: bool, ghost n: nat)
    modifies g
    ensures n <= |batch| && g.applied == old(g.applied) + batch[..n]
    ensures ok <==> n == |batch|
    ensures g.sent <= old(g.sent) + if batch == [] then 0 else 2 * |batch| - 1
    ensures ok ==> g.edges == old(g.edges) + Cells(batch)
    ensures OnlyTouches(old(g.edges), g.edges, Cells(batch).Keys)
    decreases |batch|
  {
    hide LastWins;
    n := 0;
    if batch == [] {
      UnionEmpty(g.edges);
      CellsOfNone();
      return true, 0;
    }
    ok := g.ExecuteInsert(batch);
    if ok {
      assert batch[..|batch|] == batch;
      n := |batch|;
      return;
    }
    if |batch| == 1 {
      return false, 0;
    }
    var middle := |batch| / 2;
    ghost var left, right := batch[..middle], batch[middle..];
    ghost var before, spoiled, applied := old(g.edges), g.edges, old(g.applied);
    assert left + right == batch;
    CellsConcat(left, right);
    ok, n := WriteBatch(g, batch[..middle]);
    assert left[..n] == batch[..n];
    OnlyTouchesTrans(before, spoiled, g.edges, Cells(batch).Keys, Cells(left).Keys, Cells(batch).Keys);
    if !ok {
      return;
    }
    ghost var between, m := g.edges, 0;
    ok, m := WriteBatch(g, batch[middle..]);
    assert batch[..middle + m] == left + right[..m];
    n := middle + m;
    OnlyTouchesTrans(before, between, g.edges, Cells(batch).Keys, Cells(right).Keys, Cells(batch).Keys);
    if ok {
      RewrittenHalves(before, spoiled, left, right);
    }
  }

  lemma CellsOfNone()
    ensures Cells([]) == map[]
  {
  }

  lemma RewrittenHalves(before: Edges, spoiled: Edges, left: seq<EdgeRecord>, right: seq<EdgeRecord>)
    requires OnlyTouches(before, spoiled, Cells(left + right).Keys)
    ensures spoiled + Cells(left) + Cells(right) == before + Cells(left + right)
  {
    hide LastWins;
    CellsConcat(left, right);
    UnionAssociative(spoiled, Cells(left), Cells(right));
    assert spoiled + Cells(left + right) == before + Cells(left + right);
  }

  method ExecuteBatched(g: RelationGraph, rows: seq<EdgeRecord>, batchSize: nat) returns (ok: bool, ghost n: nat)
    requires batchSize > 0
    modifies g
    ensures n <= |rows| && g.applied == old(g.applied) + rows[..n]
    ensures ok <==> n == |rows|
    ensures g.sent <= old(g.sent) + 2 * |rows|
    ensures ok ==> g.edges == old(g.edges) + Cells(rows)
    ensures OnlyTouches(old(g.edges), g.edges, Cells(rows).Keys)
  {
    hide LastWins;
    ok, n := true, 0;
    var start := 0;
    CellsOfNone();
    UnionEmpty(g.edges);
    assert rows[..0] == [];
    assert OnlyTouches(g.edges, g.edges, Cells(rows).Keys);
    while start < |rows|
      invariant n == start <= |rows| && ok
      invariant g.applied == old(g.applied) + rows[..start]
      invariant g.sent <= old(g.sent) + 2 * start
      invariant g.edges == old(g.edges) + Cells(rows[..start])
      invariant OnlyTouches(old(g.edges), g.edges, Cells(rows).Keys)
    {
      var stop := if start + batchSize <= |rows| then start + batchSize else |rows|;
      ghost var done, batch, before, m := rows[..start], rows[start..stop], g.edges, 0;
      SliceOfRows(rows, start, stop);
      ok, m := WriteBatch(g, rows[start..stop]);
      assert rows[..start + m] == done + batch[..m];
      n := start + m;
      OnlyTouchesTrans(old(g.edges), before, g.edges, Cells(rows).Keys, Cells(batch).Keys, Cells(rows).Keys);
      if !ok {
        return;
      }
      UnionAssociative(old(g.edges), Cells(done), Cells(batch));
      start := stop;
    }
    assert rows[..|rows|] == rows;
  }

  lemma SliceOfRows(rows: seq<EdgeRecord>, start: nat, stop: nat)
    requires start <= stop <= |rows|
    ensures Cells(rows[..stop]) == Cells(rows[..start]) + Cells(rows[start..stop])
    ensures Cells(rows[start..stop]).Keys <= Cells(rows).Keys
  {
    assert rows[..start] + rows[start..stop] == rows[..stop];
    CellsConcat(rows[..start], rows[start..stop]);
    assert rows[..stop] + rows[stop..] == rows;
    CellsConcat(rows[..stop], rows[stop..]);
  }

  // ---------------------------------------------------------------------------
  // Replacing what an earlier load wrote
  // ---------------------------------------------------------------------------

  /** Keys of one managed type whose source is a Patent, in the service's order. */
  method ExistingEdgeKeys(g: RelationGraph, edgeType: string) returns (keys: seq<EdgeKey>)
    ensures (set k | k in keys) == set k | k in g.edges && k.edgeType == edgeType && k.source in g.patents
    ensures forall i, j | 0 <= i < j < |keys| :: keys[i] != keys[j]
  {
    keys := [];
    var matching := set k | k in g.edges && k.edgeType == edgeType && k.source in g.patents;
    var left := matching;
    while left != {}
      invariant left <= matching
      invariant forall k :: k in keys <==> k in matching && k !in left
      invariant forall i, j | 0 <= i < j < |keys| :: keys[i] != keys[j]
      decreases left
    {
      var k :| k in left;
      keys := keys + [k];
      left := left - {k};
    }
  }

  /** Deletes the keys ten at a time. */
  method DeleteKeys(g: RelationGraph, keys: seq<EdgeKey>) returns (ok: bool)
    modifies g`edges
    ensures ok ==> g.edges == old(g.edges) - set k | k in keys
    ensures OnlyTouches(old(g.edges), g.edges, set k | k in keys)
  {
    ok := true;
    var start := 0;
    while start < |keys|
      invariant start <= |keys| && ok
      invariant g.edges == old(g.edges) - set k | k in keys[..start]
    {
      var stop := if start + 10 <= |keys| then start + 10 else |keys|;
      ghost var before := g.edges;
      assert keys[..stop] == keys[..start] + keys[start..stop];
      ok := g.ExecuteDelete(keys[start..stop]);
      if !ok {
        return;
      }
      start := stop;
    }
    assert keys[..|keys|] == keys;
  }

  /** `edges` without the Patent-sourced edges of the given types. */
  function Without(edges: Edges, patents: set<string>, types: seq<string>): Edges {
    map k | k in edges && !(k.edgeType in types && k.source in patents) :: edges[k]
  }

  method ReplaceExistingEdges(g: RelationGraph) returns (ok: bool)
    modifies g`edges
    ensures ok ==> g.edges == Without(old(g.edges), g.patents, ALL_EDGE_TYPES)
    ensures KeepsOthers(g.patents, old(g.edges), g.edges)
  {
    ok := true;
    for i := 0 to |ALL_EDGE_TYPES|
      invariant ok && g.edges == Without(old(g.edges), g.patents, ALL_EDGE_TYPES[..i])
    {
      var keys := ExistingEdgeKeys(g, ALL_EDGE_TYPES[i]);
      assert forall k | k in keys :: k in set k | k in keys;
      assert ALL_EDGE_TYPES[..i + 1] == ALL_EDGE_TYPES[..i] + [ALL_EDGE_TYPES[i]];
      ok := DeleteKeys(g, keys);
      if !ok {
        return;
      }
    }
    assert ALL_EDGE_TYPES[..|ALL_EDGE_TYPES|] == ALL_EDGE_TYPES;
  }

  // ---------------------------------------------------------------------------
  // Writing type by type
  // ---------------------------------------------------------------------------

  function OfType(rows: seq<EdgeRecord>, edgeType: string): seq<EdgeRecord> {
    if rows == [] then []
    else
      var before, row := OfType(rows[..|rows| - 1], edgeType), rows[|rows| - 1];
      if row.edgeType == edgeType then before + [row] else before
  }

  /** The cells whose type is among `types`. */
  function Among(edges: Edges, types: seq<string>): Edges {
    map k | k in edges && k.edgeType in types :: edges[k]
  }

  lemma {:induction false} CellsOfType(rows: seq<EdgeRecord>, edgeType: string)
    ensures Cells(OfType(rows, edgeType)) == Among(Cells(rows), [edgeType])
  {
    hide LastWins;
    if rows == [] {
      CellsOfNone();
    } else {
      var before, row := rows[..|rows| - 1], rows[|rows| - 1];
      CellsOfType(before, edgeType);
      CellsConcat(OfType(before, edgeType), [row]);
      CellsConcat(before, [row]);
      CellsOfOne(row);
      AmongUnion(Cells(before), EdgeCell(row), [edgeType]);
      UnionEmpty(Cells(OfType(before, edgeType)));
      assert before + [row] == rows;
    }
  }

  lemma AmongUnion(a: Edges, b: Edges, types: seq<string>)
    ensures Among(a + b, types) == Among(a, types) + Among(b, types)
  {
  }

  lemma CellsOfOne(row: EdgeRecord)
    ensures Cells([row]) == EdgeCell(row)
  {
    assert [row][..0] == [];
    CellsOfNone();
    UnionEmpty(EdgeCell(row));
  }

  lemma {:induction false} CellKeys(rows: seq<EdgeRecord>, k: EdgeKey)
    ensures k in Cells(rows) <==> exists i :: 0 <= i < |rows| && rows[i].Cell() == k
  {
    if rows != [] {
      CellKeys(rows[..|rows| - 1], k);
    }
  }

  /** Groups of equal type, in order of first occurrence. */
  method GroupByType(rows: seq<EdgeRecord>) returns (grouped: map<string, seq<EdgeRecord>>, types: seq<string>)
    ensures forall t | t in types :: t in grouped && grouped[t] == OfType(rows, t)
    ensures forall i | 0 <= i < |rows| :: rows[i].edgeType in types
  {
    grouped, types := map[], [];
    for i := 0 to |rows|
      invariant grouped.Keys == set t | t in types
      invariant forall t | t in types :: grouped[t] == OfType(rows[..i], t)
      invariant forall t | t !in types :: OfType(rows[..i], t) == []
      invariant forall j | 0 <= j < i :: rows[j].edgeType in types
    {
      assert rows[..i + 1][..i] == rows[..i];
      var row := rows[i];
      if row.edgeType !in grouped {
        grouped, types := grouped[row.edgeType := []], types + [row.edgeType];
      }
      grouped := grouped[row.edgeType := grouped[row.edgeType] + [row]];
    }
    assert rows[..|rows|] == rows;
  }

  lemma AmongNext(edges: Edges, types: seq<string>, i: nat)
    requires i < |types|
    ensures Among(edges, types[..i + 1]) == Among(edges, types[..i]) + Among(edges, [types[i]])
  {
    assert types[..i + 1] == types[..i] + [types[i]];
  }

  /** Whatever the grouping, the graph ends as if the records had been written in their order. */
  method WriteGrouped(g: RelationGraph, rows: seq<EdgeRecord>) returns (ok: bool)
    modifies g
    ensures ok ==> g.edges == old(g.edges) + Cells(rows)
    ensures OnlyTouches(old(g.edges), g.edges, Cells(rows).Keys)
  {
    hide LastWins, OfType;
    ok := true;
    ghost var before, cells := g.edges, Cells(rows);
    var grouped, types := GroupByType(rows);
    assert before + Among(cells, types[..0]) == before;
    for i := 0 to |types|
      invariant ok && g.edges == before + Among(cells, types[..i])
      invariant OnlyTouches(before, g.edges, cells.Keys)
    {
      ghost var between, n := g.edges, 0;
      CellsOfType(rows, types[i]);
      AmongNext(cells, types, i);
      ok, n := ExecuteBatched(g, grouped[types[i]], 50);
      OnlyTouchesTrans(before, between, g.edges, cells.Keys, Among(cells, [types[i]]).Keys, cells.Keys);
      if !ok {
        return;
      }
      UnionAssociative(before, Among(cells, types[..i]), Among(cells, [types[i]]));
    }
    AllTypesWritten(rows, types);
  }

  lemma AllTypesWritten(rows: seq<EdgeRecord>, types: seq<string>)
    requires forall i | 0 <= i < |rows| :: rows[i].edgeType in types
    ensures Among(Cells(rows), types[..|types|]) == Cells(rows)
  {
    assert types[..|types|] == types;
    forall k | k in Cells(rows)
      ensures k.edgeType in types
    {
      CellKeys(rows, k);
    }
  }

  // ---------------------------------------------------------------------------
  // Exact replacement
  // ---------------------------------------------------------------------------

  /** The analysis only yields managed edges out of Patent vertices. */
  ghost predicate PatentRelations(patents: set<string>, rows: seq<EdgeRecord>) {
    forall i | 0 <= i < |rows| :: rows[i].edgeType in ALL_EDGE_TYPES && rows[i].source in patents
  }

  lemma KeptRecord(rows: seq<EdgeRecord>, i: nat) returns (j: nat)
    requires i < |Dedup(rows)|
    ensures j < |rows| && Dedup(rows)[i] == rows[j].Normal() && Dedup(rows)[i].Cell() == Keys(rows)[i]
  {
    KeysHaveBest(rows);
    j := BestIsEarliestMaximum(rows, Keys(rows)[i]);
  }

  lemma CellsOfLast(rows: seq<EdgeRecord>)
    requires rows != []
    ensures var row := rows[|rows| - 1];
            Cells(rows) == Cells(rows[..|rows| - 1])[row.Cell() := row.properties]
  {
    var row := rows[|rows| - 1];
    UnionSingleton(Cells(rows[..|rows| - 1]), row.Cell(), row.properties);
  }

  lemma {:induction false} DistinctCells(rows: seq<EdgeRecord>)
    requires forall i, j | 0 <= i < j < |rows| :: rows[i].Cell() != rows[j].Cell()
    ensures |Cells(rows)| == |rows|
    ensures forall i | 0 <= i < |rows| :: rows[i].Cell() in Cells(rows) && Cells(rows)[rows[i].Cell()] == rows[i].properties
  {
    hide Cells;
    if rows == [] {
      CellsOfNone();
    } else {
      var before, row := rows[..|rows| - 1], rows[|rows| - 1];
      DistinctCells(before);
      CellKeys(before, row.Cell());
      CellsOfLast(rows);
      assert row.Cell() !in Cells(before);
      assert forall i | 0 <= i < |before| :: rows[i] == before[i];
      PutNew(Cells(before), row.Cell(), row.properties);
    }
  }

  predicate IsManaged(patents: set<string>, k: EdgeKey) { k.edgeType in ALL_EDGE_TYPES && k.source in patents }

  /** The edges a replacing load answers for: those of the five relation types that leave a Patent vertex. */
  lemma ManagedIff(patents: set<string>, k: EdgeKey)
    ensures IsManaged(patents, k) <==>
              k.source in patents && k.edgeType in {"INVENTED_BY", "APPLIED_BY", "OWNED_BY", "CITES", "OUTPUT_OF"}
  {
    assert k.edgeType in ALL_EDGE_TYPES <==> exists i: nat | i < 5 :: ALL_EDGE_TYPES[i] == k.edgeType;
  }

  /** `after` has each of the records `kept`, once and with its own properties, as its only managed
      edges, and is otherwise like `before`. */
  ghost predicate Exactly(before: Edges, patents: set<string>, kept: seq<EdgeRecord>, after: Edges) {
    && (forall i | 0 <= i < |kept| :: kept[i].Cell() in after && after[kept[i].Cell()] == kept[i].properties)
    && (forall k | k in after && IsManaged(patents, k) :: exists i :: 0 <= i < |kept| && kept[i].Cell() == k)
    && (forall i, j | 0 <= i < j < |kept| :: kept[i].Cell() != kept[j].Cell())
    && KeepsOthers(patents, before, after)
  }

  lemma ManagedAreRemoved(before: Edges, patents: set<string>)
    ensures forall k | IsManaged(patents, k) :: k !in Without(before, patents, ALL_EDGE_TYPES)
    ensures forall k | !IsManaged(patents, k) ::
              && (k in Without(before, patents, ALL_EDGE_TYPES) <==> k in before)
              && (k in before ==> Without(before, patents, ALL_EDGE_TYPES)[k] == before[k])
  {
  }

  lemma CellsAreManaged(patents: set<string>, kept: seq<EdgeRecord>)
    requires PatentRelations(patents, kept)
    ensures forall k | k in Cells(kept) :: IsManaged(patents, k) && exists i :: 0 <= i < |kept| && kept[i].Cell() == k
  {
    hide Cells;
    forall k | k in Cells(kept)
      ensures IsManaged(patents, k) && exists i :: 0 <= i < |kept| && kept[i].Cell() == k
    {
      CellKeys(kept, k);
    }
  }

  /** Edges that are not managed are as before. */
  ghost predicate KeepsOthers(patents: set<string>, before: Edges, after: Edges) {
    forall k | !IsManaged(patents, k) :: (k in after <==> k in before) && (k in before ==> after[k] == before[k])
  }

  lemma OnlyManagedTouched(patents: set<string>, kept: seq<EdgeRecord>, before: Edges, after: Edges)
    requires PatentRelations(patents, kept) && OnlyTouches(before, after, Cells(kept).Keys)
    ensures KeepsOthers(patents, before, after)
  {
    hide Cells, IsManaged, PatentRelations;
    CellsAreManaged(patents, kept);
  }

  lemma ManagedAreKept(before: Edges, patents: set<string>, kept: seq<EdgeRecord>, k: EdgeKey)
    requires PatentRelations(patents, kept)
    requires k in Without(before, patents, ALL_EDGE_TYPES) + Cells(kept) && IsManaged(patents, k)
    ensures exists i :: 0 <= i < |kept| && kept[i].Cell() == k
  {
    hide Cells, Without, IsManaged, PatentRelations;
    ManagedAreRemoved(before, patents);
    CellsAreManaged(patents, kept);
  }

  lemma OthersAreKept(before: Edges, patents: set<string>, kept: seq<EdgeRecord>)
    requires PatentRelations(patents, kept)
    ensures KeepsOthers(patents, before, Without(before, patents, ALL_EDGE_TYPES) + Cells(kept))
  {
    hide Cells, Without, IsManaged, PatentRelations;
    ManagedAreRemoved(before, patents);
    CellsAreManaged(patents, kept);
  }

  lemma WrittenExactly(before: Edges, patents: set<string>, kept: seq<EdgeRecord>, after: Edges)
    requires PatentRelations(patents, kept)
    requires forall i, j | 0 <= i < j < |kept| :: kept[i].Cell() != kept[j].Cell()
    requires after == Without(before, patents, ALL_EDGE_TYPES) + Cells(kept)
    ensures Exactly(before, patents, kept, after)
  {
    hide Cells, Without, IsManaged, PatentRelations;
    OthersAreKept(before, patents, kept);
    DistinctCells(kept);
    forall k | k in after && IsManaged(patents, k)
      ensures exists i :: 0 <= i < |kept| && kept[i].Cell() == k
    {
      ManagedAreKept(before, patents, kept, k);
    }
  }

  /** What a replacing load leaves: the managed edges are exactly the deduplicated records. */
  lemma ExactReplacement(before: Edges, patents: set<string>, rows: seq<EdgeRecord>, after: Edges)
    requires PatentRelations(patents, rows)
    requires after == Without(before, patents, ALL_EDGE_TYPES) + Cells(Dedup(rows))
    ensures Exactly(before, patents, Dedup(rows), after)
  {
    hide Dedup, Keys, Cells, Without, Exactly;
    KeptCount(rows);
    KeptAreManaged(patents, rows);
    KeysAreTheKeys(rows);
    WrittenExactly(before, patents, Dedup(rows), after);
  }

  /** And each of them has the properties of the earliest record of greatest confidence for its key. */
  lemma ReplacedValue(before: Edges, patents: set<string>, rows: seq<EdgeRecord>, after: Edges, k: EdgeKey) returns (i: nat)
    requires Exactly(before, patents, Dedup(rows), after) && IsManaged(patents, k) && k in after
    ensures i < |rows| && rows[i].Key() == k && after[k] == rows[i].properties
    ensures forall j | 0 <= j < |rows| && rows[j].Key() == k :: rows[j].Confidence() <= rows[i].Confidence()
    ensures forall j | 0 <= j < i && rows[j].Key() == k :: rows[j].Confidence() < rows[i].Confidence()
  {
    hide Keys, Best, KeepsOthers, IsManaged, EdgeRecord.Confidence;
    var kept := Dedup(rows);
    var u :| 0 <= u < |kept| && kept[u].Cell() == k;
    KeysHaveBest(rows);
    KeysAreTheKeys(rows);
    assert Keys(rows)[u] in Keys(rows) && kept[u] == Best(rows, Keys(rows)[u]).value;
    i := BestIsEarliestMaximum(rows, k);
    assert kept[u] == rows[i].Normal();
  }

  lemma KeptAreManaged(patents: set<string>, rows: seq<EdgeRecord>)
    requires PatentRelations(patents, rows) && |Dedup(rows)| == |Keys(rows)|
    ensures PatentRelations(patents, Dedup(rows))
    ensures forall i | 0 <= i < |Dedup(rows)| :: Dedup(rows)[i].Cell() == Keys(rows)[i]
  {
    hide Dedup, Keys;
    forall i | 0 <= i < |Dedup(rows)|
      ensures var r := Dedup(rows)[i]; r.Cell() == Keys(rows)[i] && r.edgeType in ALL_EDGE_TYPES && r.source in patents
    {
      var j := KeptRecord(rows, i);
    }
  }

  lemma KeptCount(rows: seq<EdgeRecord>)
    ensures |Dedup(rows)| == |Keys(rows)|
  {
  }

  // ---------------------------------------------------------------------------
  // The whole load, from the records of one analysis
  // ---------------------------------------------------------------------------

  datatype Outcome = Invalid | Analysed | Raised | Loaded

  method Load(g: RelationGraph, apply: bool, replace: bool, rows: seq<EdgeRecord>)
    returns (outcome: Outcome, duplicates: nat)
    modifies g
    ensures outcome == Invalid <==> replace && !apply
    ensures outcome == Analysed <==> !replace && !apply
    ensures !apply ==> g.edges == old(g.edges)
    ensures PatentRelations(g.patents, rows) ==> KeepsOthers(g.patents, old(g.edges), g.edges)
    ensures outcome == Loaded ==>
              g.edges == (if replace then Without(old(g.edges), g.patents, ALL_EDGE_TYPES) else old(g.edges))
                       + Cells(Dedup(rows))
    ensures outcome != Invalid ==> duplicates == |rows| - |Dedup(rows)|
  {
    hide Dedup, Keys, Cells, Without, IsManaged, PatentRelations;
    duplicates := 0;
    if replace && !apply {
      return Invalid, 0;
    }
    var kept;
    kept, duplicates := DeduplicateEdges(rows);
    if !apply {
      return Analysed, duplicates;
    }
    var ok := true;
    if replace {
      ok := ReplaceExistingEdges(g);
      if !ok {
        return Raised, duplicates;
      }
    }
    ghost var between := g.edges;
    ok := WriteGrouped(g, kept);
    if PatentRelations(g.patents, rows) {
      KeptCount(rows);
      KeptAreManaged(g.patents, rows);
      OnlyManagedTouched(g.patents, kept, between, g.edges);
    }
    outcome := if ok then Loaded else Raised;
  }
}
