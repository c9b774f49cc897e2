/** The whole patent relation load: analysis, promotion, deduplication and writing. */
module PatentRelationLoad {
  import opened EdgeRecords
  import opened Options
  import opened RelationAnalysis
  import opened RelationWriter
  import opened VectorPromotion
  import Citations
  import NameIndex
  import PartyResolution
  import ProjectOutputs

  type Review = PartyResolution.Review

  // ---------------------------------------------------------------------------
  // Promoted edges are as well made as analysed ones
  // ---------------------------------------------------------------------------

  /** The review stems from a patent vertex; that of a party carries its column's role. */
  ghost predicate Reviewed(patents: set<string>, r: Review) {
    && r.patentVid in patents
    && (IsParty(r) ==> exists column: PartyResolution.Column ::
          r.relation == column.EdgeType() && r.role == column.Role() && r.isCurrent == column.IsCurrent())
  }

  ghost predicate AllReviewed(patents: set<string>, reviews: seq<Review>) {
    forall i | 0 <= i < |reviews| :: Reviewed(patents, reviews[i])
  }

  lemma {:induction false} FlatMapReviewed<A>(patents: set<string>, items: seq<A>, f: A -> seq<Review>)
    requires forall x, i | x in items && 0 <= i < |f(x)| :: Reviewed(patents, f(x)[i])
    ensures AllReviewed(patents, FlatMap(items, f))
  {
    if items != [] {
      FlatMapReviewed(patents, items[..|items| - 1], f);
      assert items[|items| - 1] in items;
      var last := f(items[|items| - 1]);
      assert forall i | 0 <= i < |last| :: Reviewed(patents, last[i]);
    }
  }

  lemma ColumnReviewed(c: Context, row: PatentRow, vid: string, patents: set<string>, column: PartyResolution.Column)
    requires vid in patents
    ensures AllReviewed(patents, FlatMap(column.Items(row), PartyResolution.PartyReview(c, row, vid, column)))
  {
    hide PartyResolution.PartyItems;
    var f := PartyResolution.PartyReview(c, row, vid, column);
    forall p, i | p in column.Items(row) && 0 <= i < |f(p)|
      ensures Reviewed(patents, f(p)[i])
    {
      var r := f(p)[i];
      assert r.relation == column.EdgeType() && r.role == column.Role() && r.isCurrent == column.IsCurrent();
    }
    FlatMapReviewed(patents, column.Items(row), f);
  }

  lemma InventorsReviewed(c: Context, row: PatentRow, vid: string, patents: set<string>)
    requires vid in patents
    ensures AllReviewed(patents, FlatMap(PartyResolution.PartyItems(row.inventors),
              PartyResolution.InventorReview(c, row, vid, PartyResolution.ConfirmedNames(c, row))))
  {
    hide PartyResolution.PartyItems, PartyResolution.ConfirmedNames, PartyResolution.Strong;
    FlatMapReviewed(patents, PartyResolution.PartyItems(row.inventors),
                    PartyResolution.InventorReview(c, row, vid, PartyResolution.ConfirmedNames(c, row)));
  }

  lemma RowReviewed(c: Context, row: PatentRow, vid: string, patents: set<string>)
    requires vid in patents
    ensures AllReviewed(patents, PartyResolution.RowReviews(c, row, vid))
  {
    hide Reviewed, FlatMap, PartyResolution.ConfirmedNames, PartyResolution.PartyItems;
    ColumnReviewed(c, row, vid, patents, PartyResolution.Column.Applicants);
    ColumnReviewed(c, row, vid, patents, PartyResolution.Column.Assignees);
    InventorsReviewed(c, row, vid, patents);
  }

  lemma ReviewsAreReviewed(c: Context, patents: seq<Citations.Patent>, rows: seq<PatentRow>)
    ensures AllReviewed(Vids(patents), FlatMap(rows, RowReviews(c, VidById(patents))))
  {
    hide Reviewed;
    var f := RowReviews(c, VidById(patents));
    forall row, i | row in rows && 0 <= i < |f(row)|
      ensures Reviewed(Vids(patents), f(row)[i])
    {
      VidByIdIsVertex(patents, row.patentId);
      RowReviewed(c, row, VidById(patents)[row.patentId], Vids(patents));
    }
    FlatMapReviewed(Vids(patents), rows, f);
  }

  lemma PromotedEdgeWellMade(patents: set<string>, r: Review, d: Decision)
    requires Reviewed(patents, r) && IsParty(r)
    ensures WellMade(patents, EdgeOf(r, d))
  {
    hide NgqlText.Fits, SchemaNames, SchemaKinds, PartyResolution.PartyProperties;
    var column: PartyResolution.Column :|
      r.relation == column.EdgeType() && r.role == column.Role() && r.isCurrent == column.IsCurrent();
    PartyFits(column, EdgeOf(r, d), r.name, d.confidence, "milvus_bm25_dense_hybrid", d.evidence, r.recordId);
  }

  lemma {:induction false} PromotedWellMade(patents: set<string>, n: NameIndex.Names, align: Matcher, entries: seq<Entry>, m: nat)
    requires m <= |entries| && forall i | 0 <= i < |entries| :: Reviewed(patents, entries[i].review)
    ensures AllWellMade(patents, Promoted(n, align, entries, m))
  {
    hide WellMade, Reviewed, EdgeOf, DecisionFor;
    if m > 0 {
      PromotedWellMade(patents, n, align, entries, m - 1);
      if IsPromoted(n, align, entries, m - 1) {
        PromotedEdgeWellMade(patents, entries[m - 1].review, DecisionFor(n, align, entries, m - 1));
      }
    }
  }

  // ---------------------------------------------------------------------------
  // The load
  // ---------------------------------------------------------------------------

  /** The evidence texts a review starts with. */
  function FirstEvidence(r: Review): seq<string> {
    if IsParty(r) then
      [if r.reason.SeveralOrganizations? then "机构名称精确匹配但不唯一" else "申请人/权利人源字段只有sequence和name"]
    else if r.candidates != [] then ["姓名精确匹配", "申请/权利机构和项目证据未能唯一确认"]
    else ["无姓名精确候选"]
  }

  function Entries(reviews: seq<Review>): seq<Entry> {
    seq(|reviews|, i requires 0 <= i < |reviews| => Entry(reviews[i], FirstEvidence(reviews[i])))
  }

  method MakeRecords(reviews: seq<Review>) returns (records: seq<ReviewRecord>)
    ensures Distinct(records) && fresh(records) && Snapshot(records) == Entries(reviews)
  {
    records := [];
    for i := 0 to |reviews|
      invariant |records| == i && Distinct(records) && fresh(records)
      invariant forall j | 0 <= j < i :: records[j].Value() == Entry(reviews[j], FirstEvidence(reviews[j]))
    {
      var record := new ReviewRecord(reviews[i], FirstEvidence(reviews[i]));
      records := records + [record];
    }
  }

  /** The tables and catalogues one analysis reads. */
  datatype Sources = Sources(
    patents: seq<Citations.Patent>, people: seq<NameIndex.Entity>, organizations: seq<NameIndex.Entity>,
    projects: seq<ProjectOutputs.Project>, zh: seq<ProjectRow>, en: seq<ProjectRow>,
    rows: seq<PatentRow>, citedRows: seq<Citations.CitedRow>)

  /** The matcher, and whether its index is there. */
  datatype Vector = Vector(align: Matcher, indexPresent: bool)

  /** What an analysis with these indexes yields: edges, then those of the promoted reviews. */
  ghost function AnalysedEdges(c: Context, fold: string -> string, s: Sources): seq<EdgeRecord> {
    OutputEdges(fold, s.patents, ProjectOutputs.VidBySource(s.projects), s.zh, s.en)
    + FlatMap(s.rows, RowEdges(c, VidById(s.patents))) + Citations.AllEdges(fold, s.patents, s.citedRows)
  }

  function PromotedEdges(c: Context, s: Sources, vector: Option<Vector>): seq<EdgeRecord> {
    var entries := Entries(FlatMap(s.rows, RowReviews(c, VidById(s.patents))));
    if vector.None? then [] else Promoted(c.names, vector.value.align, entries, |entries|)
  }

  /** The indexes of these sources. */
  ghost predicate ContextOf(c: Context, names: NameIndex.Names, fold: string -> string, s: Sources) {
    && c.names == names && VouchedBy(c, fold, s.patents, ProjectOutputs.VidBySource(s.projects), s.zh, s.en)
    && NameIndex.Indexes(names, s.people, c.people) && NameIndex.Indexes(names, s.organizations, c.organizations)
  }

  /** The promotion of the analysed reviews, unless it is switched off. */
  method PromoteReviews(ghost c: Context, ghost s: Sources, names: NameIndex.Names, vector: Option<Vector>, reviews: seq<Review>)
    returns (ok: bool, promoted: seq<EdgeRecord>)
    requires c.names == names && reviews == FlatMap(s.rows, RowReviews(c, VidById(s.patents)))
    ensures vector.None? ==> ok
    ensures ok ==> promoted == PromotedEdges(c, s, vector)
  {
    hide Promoted, FlatMap;
    if vector.None? {
      return true, [];
    }
    if reviews == [] {
      NothingToPromote(names, vector.value.align);
      return true, [];
    }
    var records := MakeRecords(reviews);
    var remaining;
    ghost var m: nat;
    ok, promoted, remaining, m := Promote(names, vector.value.align, vector.value.indexPresent, records);
  }

  lemma NothingToPromote(n: NameIndex.Names, align: Matcher)
    ensures Promoted(n, align, [], 0) == []
  {
  }

  /** A load from the sources to the graph. When it is to replace and returns normally, the managed
      edges of the graph are the deduplicated edges of this analysis, and nothing else has changed. */
  method LoadPatentRelations(g: RelationGraph, names: NameIndex.Names, fold: string -> string, s: Sources,
                             vector: Option<Vector>, apply: bool, replace: bool)
    returns (outcome: Outcome, ghost c: Context, ghost edges: seq<EdgeRecord>)
    requires Vids(s.patents) <= g.patents
    modifies g
    ensures outcome == Invalid <==> replace && !apply
    ensures !apply ==> g.edges == old(g.edges)
    ensures KeepsOthers(g.patents, old(g.edges), g.edges)
    ensures outcome == Loaded || outcome == Analysed ==>
              && ContextOf(c, names, fold, s)
              && edges == AnalysedEdges(c, fold, s) + PromotedEdges(c, s, vector)
              && AllWellMade(Vids(s.patents), edges)
    ensures outcome == Loaded && !replace ==> g.edges == old(g.edges) + Cells(Dedup(edges))
    ensures outcome == Loaded && replace ==> Exactly(old(g.edges), g.patents, Dedup(edges), g.edges)
  {
    hide FlatMap, Promoted, Dedup, Cells, WellMade, OutputEdges, Citations.AllEdges, VouchedBy, NameIndex.Indexes, Exactly;
    c, edges := PartyResolution.Context(names, map[], map[], map[]), [];
    if replace && !apply {
      return Invalid, c, edges;
    }
    var analysed, reviews;
    analysed, reviews, c := BuildRelations(names, fold, s.patents, s.people, s.organizations, s.projects, s.zh, s.en,
                                           s.rows, s.citedRows);
    var ok, promoted := PromoteReviews(c, s, names, vector, reviews);
    if !ok {
      return Raised, c, edges;
    }
    var all := analysed + promoted;
    edges := all;
    PromotedEdgesWellMade(c, s, vector);
    ManagedEdges(Vids(s.patents), g.patents, all);
    var duplicates;
    outcome, duplicates := Load(g, apply, replace, all);
    if outcome == Loaded && replace {
      ExactReplacement(old(g.edges), g.patents, all, g.edges);
    }
  }

  lemma PromotedEdgesWellMade(c: Context, s: Sources, vector: Option<Vector>)
    ensures AllWellMade(Vids(s.patents), PromotedEdges(c, s, vector))
  {
    hide Promoted, WellMade, Reviewed, FlatMap;
    if vector.Some? {
      ReviewsAreReviewed(c, s.patents, s.rows);
      var entries := Entries(FlatMap(s.rows, RowReviews(c, VidById(s.patents))));
      PromotedWellMade(Vids(s.patents), c.names, vector.value.align, entries, |entries|);
    }
  }

  lemma ManagedEdges(vids: set<string>, patents: set<string>, edges: seq<EdgeRecord>)
    requires vids <= patents && AllWellMade(vids, edges)
    ensures PatentRelations(patents, edges)
  {
    WellMadeIsManaged(vids, edges);
  }

  // ---------------------------------------------------------------------------
  // The citations and outputs of the final graph
  // ---------------------------------------------------------------------------

  ghost predicate OnlyTypes(edges: seq<EdgeRecord>, types: set<string>) {
    forall i | 0 <= i < |edges| :: edges[i].edgeType in types
  }

  lemma KeyNeedsType(edges: seq<EdgeRecord>, types: set<string>, k: EdgeKey)
    requires OnlyTypes(edges, types) && k in KeySet(edges)
    ensures k.edgeType in types
  {
    var e :| e in edges && e.Key() == k;
  }

  lemma {:induction false} FlatMapTypes<A>(items: seq<A>, f: A -> seq<EdgeRecord>, types: set<string>)
    requires forall x | x in items :: OnlyTypes(f(x), types)
    ensures OnlyTypes(FlatMap(items, f), types)
  {
    if items != [] {
      FlatMapTypes(items[..|items| - 1], f, types);
      assert items[|items| - 1] in items;
      var last := f(items[|items| - 1]);
      assert OnlyTypes(last, types);
    }
  }

  lemma PartyTypes(c: Context, rows: seq<PatentRow>, vids: map<string, string>)
    ensures OnlyTypes(FlatMap(rows, RowEdges(c, vids)), {"INVENTED_BY", "APPLIED_BY", "OWNED_BY"})
  {
    forall row | row in rows
      ensures OnlyTypes(RowEdges(c, vids)(row), {"INVENTED_BY", "APPLIED_BY", "OWNED_BY"})
    {
      if row.patentId in vids {
        RowTypes(c, row, vids[row.patentId]);
      }
    }
    FlatMapTypes(rows, RowEdges(c, vids), {"INVENTED_BY", "APPLIED_BY", "OWNED_BY"});
  }

  lemma RowTypes(c: Context, row: PatentRow, vid: string)
    ensures OnlyTypes(PartyResolution.RowEdges(c, row, vid), {"INVENTED_BY", "APPLIED_BY", "OWNED_BY"})
  {
    hide FlatMap, PartyResolution.PartyItems, PartyResolution.Cache, PartyResolution.ConfirmedNames, PartyResolution.InventorProperties,
         PartyResolution.PartyProperties, PartyResolution.Strong, PartyResolution.ProjectHit;
    var types := {"INVENTED_BY", "APPLIED_BY", "OWNED_BY"};
    var applicants, assignees := PartyResolution.Column.Applicants, PartyResolution.Column.Assignees;
    FlatMapTypes(PartyResolution.PartyItems(row.inventors),
                 PartyResolution.InventorEdge(c, row, vid, PartyResolution.ConfirmedNames(c, row)), types);
    FlatMapTypes(applicants.Items(row), PartyResolution.PartyEdge(PartyResolution.Cache(c, row), row, vid, applicants), types);
    FlatMapTypes(assignees.Items(row), PartyResolution.PartyEdge(PartyResolution.Cache(c, row), row, vid, assignees), types);
  }

  lemma {:induction false} CitationTypes(fold: string -> string, patents: seq<Citations.Patent>, rows: seq<Citations.CitedRow>)
    ensures OnlyTypes(Citations.AllEdges(fold, patents, rows), {"CITES"})
  {
    hide Citations.ColumnEdges, Citations.Denoted;
    if rows != [] {
      CitationTypes(fold, patents, rows[..|rows| - 1]);
      var row := rows[|rows| - 1];
      var current := Citations.Denoted(fold, patents, row.patentId);
      if current.Some? {
        ColumnTypes(fold, patents, row, Citations.PatentCitations, current.value, |row.citations|);
        ColumnTypes(fold, patents, row, Citations.CitedBy, current.value, |row.citedBy|);
      }
    }
  }

  lemma {:induction false} ColumnTypes(fold: string -> string, patents: seq<Citations.Patent>, row: Citations.CitedRow,
                                       column: Citations.Column, current: string, n: nat)
    requires n <= |column.Identifiers(row)|
    ensures OnlyTypes(Citations.ColumnEdges(fold, patents, row, column, current, n), {"CITES"})
  {
    hide Citations.Denoted;
    if n > 0 {
      ColumnTypes(fold, patents, row, column, current, n - 1);
    }
  }

  lemma {:induction false} OutputTypes(fold: string -> string, patents: seq<Citations.Patent>, vids: ProjectOutputs.Vids,
                                       language: ProjectOutputs.Language, rows: seq<ProjectRow>)
    ensures OnlyTypes(ProjectOutputs.TableEdges(fold, patents, vids, language, rows), {"OUTPUT_OF"})
  {
    hide ProjectOutputs.OutputEdges, ProjectOutputs.ProjectVid;
    if rows != [] {
      OutputTypes(fold, patents, vids, language, rows[..|rows| - 1]);
      var row := rows[|rows| - 1];
      var project := ProjectOutputs.ProjectVid(vids, language, row);
      if project.Some? {
        RowOutputTypes(fold, patents, language, row, project.value, |row.outputs|);
      }
    }
  }

  lemma {:induction false} RowOutputTypes(fold: string -> string, patents: seq<Citations.Patent>, language: ProjectOutputs.Language,
                                          row: ProjectRow, project: string, n: nat)
    requires n <= |row.outputs|
    ensures OnlyTypes(ProjectOutputs.OutputEdges(fold, patents, language, row, project, n), {"OUTPUT_OF"})
  {
    hide ProjectOutputs.OutputPatent;
    if n > 0 {
      RowOutputTypes(fold, patents, language, row, project, n - 1);
    }
  }

  lemma {:induction false} PromotedTypes(n: NameIndex.Names, align: Matcher, entries: seq<Entry>, m: nat)
    requires m <= |entries|
    ensures OnlyTypes(Promoted(n, align, entries, m), {"APPLIED_BY", "OWNED_BY"})
  {
    hide DecisionFor;
    if m > 0 {
      PromotedTypes(n, align, entries, m - 1);
    }
  }

  lemma PromotedEdgeTypes(c: Context, s: Sources, vector: Option<Vector>)
    ensures OnlyTypes(PromotedEdges(c, s, vector), {"APPLIED_BY", "OWNED_BY"})
  {
    hide Promoted, FlatMap;
    if vector.Some? {
      var entries := Entries(FlatMap(s.rows, RowReviews(c, VidById(s.patents))));
      PromotedTypes(c.names, vector.value.align, entries, |entries|);
    }
  }

  /** Only the citation loop yields CITES keys, and only the project tables yield OUTPUT_OF keys. */
  lemma KeysByType(c: Context, fold: string -> string, s: Sources, vector: Option<Vector>, k: EdgeKey)
    ensures var keys := KeySet(AnalysedEdges(c, fold, s) + PromotedEdges(c, s, vector));
            && (k.edgeType == "CITES" ==> (k in keys <==> k in KeySet(Citations.AllEdges(fold, s.patents, s.citedRows))))
            && (k.edgeType == "OUTPUT_OF" ==>
                  (k in keys <==> k in KeySet(OutputEdges(fold, s.patents, ProjectOutputs.VidBySource(s.projects), s.zh, s.en))))
  {
    hide KeySet, FlatMap, OutputEdges, Citations.AllEdges, PromotedEdges, OnlyTypes;
    var vids := ProjectOutputs.VidBySource(s.projects);
    var outputs, parties := OutputEdges(fold, s.patents, vids, s.zh, s.en), FlatMap(s.rows, RowEdges(c, VidById(s.patents)));
    var citations, promoted := Citations.AllEdges(fold, s.patents, s.citedRows), PromotedEdges(c, s, vector);
    KeySetConcat(outputs + parties + citations, promoted);
    KeySetConcat(outputs + parties, citations);
    KeySetConcat(outputs, parties);
    OutputEdgeTypes(fold, s.patents, vids, s.zh, s.en);
    PartyTypes(c, s.rows, VidById(s.patents));
    CitationTypes(fold, s.patents, s.citedRows);
    PromotedEdgeTypes(c, s, vector);
    if k in KeySet(outputs) { KeyNeedsType(outputs, {"OUTPUT_OF"}, k); }
    if k in KeySet(parties) { KeyNeedsType(parties, {"INVENTED_BY", "APPLIED_BY", "OWNED_BY"}, k); }
    if k in KeySet(citations) { KeyNeedsType(citations, {"CITES"}, k); }
    if k in KeySet(promoted) { KeyNeedsType(promoted, {"APPLIED_BY", "OWNED_BY"}, k); }
  }

  lemma OutputEdgeTypes(fold: string -> string, patents: seq<Citations.Patent>, vids: ProjectOutputs.Vids,
                        zh: seq<ProjectRow>, en: seq<ProjectRow>)
    ensures OnlyTypes(OutputEdges(fold, patents, vids, zh, en), {"OUTPUT_OF"})
  {
    hide ProjectOutputs.TableEdges;
    OutputTypes(fold, patents, vids, ProjectOutputs.Zh, zh);
    OutputTypes(fold, patents, vids, ProjectOutputs.En, en);
  }

  /** A managed key is in an exactly replaced graph iff it is a logical key of the records. */
  lemma ReplacedKey(before: Edges, patents: set<string>, edges: seq<EdgeRecord>, after: Edges, k: EdgeKey)
    requires Exactly(before, patents, Dedup(edges), after) && IsManaged(patents, k)
    ensures k in after <==> k in KeySet(edges)
  {
    hide Dedup, KeySet, KeepsOthers, IsManaged;
    KeptCells(edges, k);
  }

  lemma LogicalRankOfKey(edges: seq<EdgeRecord>, k: EdgeKey)
    requires k in KeySet(edges) && (k.edgeType == "CITES" || k.edgeType == "OUTPUT_OF")
    ensures k.rank == 0
  {
    var e :| e in edges && e.Key() == k;
  }

  /** After a replacing load the graph says that patent a cites b iff the patents differ and some row says
      so: in the citation list of a or in the cited-by list of b. */
  lemma CitesAfterLoad(c: Context, fold: string -> string, s: Sources, vector: Option<Vector>,
                       before: Edges, patents: set<string>, after: Edges, a: string, b: string, rank: int)
    requires Exactly(before, patents, Dedup(AnalysedEdges(c, fold, s) + PromotedEdges(c, s, vector)), after) && a in patents
    ensures EdgeKey("CITES", a, b, rank) in after <==>
              rank == 0 && a != b && exists row | row in s.citedRows :: Citations.RowCites(fold, s.patents, row, a, b)
  {
    hide Dedup, KeySet, AnalysedEdges, PromotedEdges, Citations.AllEdges, Citations.RowCites, Exactly, OutputEdges;
    var edges, k := AnalysedEdges(c, fold, s) + PromotedEdges(c, s, vector), EdgeKey("CITES", a, b, rank);
    ReplacedKey(before, patents, edges, after, k);
    KeysByType(c, fold, s, vector, k);
    Citations.AllKeys(fold, s.patents, s.citedRows, a, b);
    if k in KeySet(edges) {
      LogicalRankOfKey(edges, k);
    }
  }

  /** And that patent a is an output of a project iff some project row stands for that project and lists an
      identifier of a alone. */
  lemma OutputsAfterLoad(c: Context, fold: string -> string, s: Sources, vector: Option<Vector>,
                         before: Edges, patents: set<string>, after: Edges, a: string, project: string, rank: int)
    requires Exactly(before, patents, Dedup(AnalysedEdges(c, fold, s) + PromotedEdges(c, s, vector)), after) && a in patents
    ensures var vids := ProjectOutputs.VidBySource(s.projects);
            EdgeKey("OUTPUT_OF", a, project, rank) in after <==>
              rank == 0
              && ((exists row | row in s.zh :: ProjectOutputs.Links(fold, s.patents, vids, ProjectOutputs.Zh, row, a, project))
                  || (exists row | row in s.en :: ProjectOutputs.Links(fold, s.patents, vids, ProjectOutputs.En, row, a, project)))
  {
    hide Dedup, KeySet, AnalysedEdges, PromotedEdges, Citations.AllEdges, ProjectOutputs.TableEdges, ProjectOutputs.Links, Exactly;
    var vids := ProjectOutputs.VidBySource(s.projects);
    var edges, k := AnalysedEdges(c, fold, s) + PromotedEdges(c, s, vector), EdgeKey("OUTPUT_OF", a, project, rank);
    ReplacedKey(before, patents, edges, after, k);
    KeysByType(c, fold, s, vector, k);
    KeySetConcat(ProjectOutputs.TableEdges(fold, s.patents, vids, ProjectOutputs.Zh, s.zh),
                 ProjectOutputs.TableEdges(fold, s.patents, vids, ProjectOutputs.En, s.en));
    ProjectOutputs.TableKeys(fold, s.patents, vids, ProjectOutputs.Zh, s.zh, a, project);
    ProjectOutputs.TableKeys(fold, s.patents, vids, ProjectOutputs.En, s.en, a, project);
    if k in KeySet(edges) {
      LogicalRankOfKey(edges, k);
    }
  }

  // ---------------------------------------------------------------------------
  // The parties and inventors of the final graph
  // ---------------------------------------------------------------------------

  /** The row's patent id belongs to vertex `a`, by the last catalogue row with this id. */
  ghost predicate OfPatent(patents: seq<Citations.Patent>, row: PatentRow, a: string) {
    a != "" && exists j :: LastPatent(patents, row.patentId, j) && patents[j].vid == a
  }

  ghost predicate LastPatent(patents: seq<Citations.Patent>, id: string, j: int) {
    && 0 <= j < |patents| && patents[j].patentId == id
    && forall k | j < k < |patents| :: patents[k].patentId != id
  }

  lemma {:induction false} VidByIdIs(patents: seq<Citations.Patent>, id: string)
    ensures id in VidById(patents) <==> exists j :: LastPatent(patents, id, j)
    ensures forall j | LastPatent(patents, id, j) :: VidById(patents)[id] == patents[j].vid
  {
    if patents != [] {
      var before, last := patents[..|patents| - 1], |patents| - 1;
      VidByIdIs(before, id);
      if patents[last].patentId == id {
        assert LastPatent(patents, id, last);
      } else {
        assert forall j :: LastPatent(patents, id, j) <==> LastPatent(before, id, j);
      }
    }
  }

  lemma OfPatentIff(patents: seq<Citations.Patent>, row: PatentRow, a: string)
    ensures OfPatent(patents, row, a) <==> row.patentId in VidById(patents) && VidById(patents)[row.patentId] == a && a != ""
  {
    hide VidById, LastPatent;
    VidByIdIs(patents, row.patentId);
  }

  /** What the parties or inventors of a row say about a key. */
  ghost predicate RowSays(c: Context, patents: seq<Citations.Patent>, row: PatentRow, k: EdgeKey) {
    OfPatent(patents, row, k.source) && Says(c, row, k)
  }

  ghost predicate Says(c: Context, row: PatentRow, k: EdgeKey) {
    match k.edgeType
    case "INVENTED_BY" => PartyResolution.Identifies(c, row, k.rank, k.target)
    case "APPLIED_BY" => exists i :: PartyResolution.Decides(c, PartyResolution.PartyItems(row.applicants), i, k.rank, k.target)
    case "OWNED_BY" => exists i :: PartyResolution.Decides(c, PartyResolution.PartyItems(row.assignees), i, k.rank, k.target)
    case _ => false
  }

  lemma RowKey(c: Context, row: PatentRow, vid: string, k: EdgeKey)
    requires k.edgeType in {"INVENTED_BY", "APPLIED_BY", "OWNED_BY"}
    ensures k in KeySet(PartyResolution.RowEdges(c, row, vid)) <==> k.source == vid && Says(c, row, k)
  {
    hide KeySet, FlatMap, PartyResolution.PartyItems, PartyResolution.Cache, PartyResolution.ConfirmedNames,
         PartyResolution.Identifies, PartyResolution.Decides;
    var applicants, assignees := PartyResolution.Column.Applicants, PartyResolution.Column.Assignees;
    var cache := PartyResolution.Cache(c, row);
    var inventors := FlatMap(PartyResolution.PartyItems(row.inventors),
                             PartyResolution.InventorEdge(c, row, vid, PartyResolution.ConfirmedNames(c, row)));
    var applied := FlatMap(applicants.Items(row), PartyResolution.PartyEdge(cache, row, vid, applicants));
    var owned := FlatMap(assignees.Items(row), PartyResolution.PartyEdge(cache, row, vid, assignees));
    KeySetConcat(inventors + applied, owned);
    KeySetConcat(inventors, applied);
    ColumnTypesOf(c, row, vid);
    if k in KeySet(inventors) { KeyNeedsType(inventors, {"INVENTED_BY"}, k); }
    if k in KeySet(applied) { KeyNeedsType(applied, {"APPLIED_BY"}, k); }
    if k in KeySet(owned) { KeyNeedsType(owned, {"OWNED_BY"}, k); }
    match k.edgeType
    case "INVENTED_BY" => PartyResolution.InventorKeyIff(c, row, vid, k);
    case "APPLIED_BY" => PartyResolution.PartyKeyIff(c, row, vid, applicants, k);
    case _ => PartyResolution.PartyKeyIff(c, row, vid, assignees, k);
  }

  lemma ColumnTypesOf(c: Context, row: PatentRow, vid: string)
    ensures OnlyTypes(FlatMap(PartyResolution.PartyItems(row.inventors),
                              PartyResolution.InventorEdge(c, row, vid, PartyResolution.ConfirmedNames(c, row))), {"INVENTED_BY"})
    ensures OnlyTypes(FlatMap(PartyResolution.PartyItems(row.applicants),
                              PartyResolution.PartyEdge(PartyResolution.Cache(c, row), row, vid, PartyResolution.Column.Applicants)), {"APPLIED_BY"})
    ensures OnlyTypes(FlatMap(PartyResolution.PartyItems(row.assignees),
                              PartyResolution.PartyEdge(PartyResolution.Cache(c, row), row, vid, PartyResolution.Column.Assignees)), {"OWNED_BY"})
  {
    hide FlatMap, PartyResolution.PartyItems, PartyResolution.Cache, PartyResolution.ConfirmedNames, PartyResolution.InventorProperties,
         PartyResolution.PartyProperties, PartyResolution.Strong, PartyResolution.ProjectHit;
    FlatMapTypes(PartyResolution.PartyItems(row.inventors),
                 PartyResolution.InventorEdge(c, row, vid, PartyResolution.ConfirmedNames(c, row)), {"INVENTED_BY"});
    FlatMapTypes(PartyResolution.PartyItems(row.applicants),
                 PartyResolution.PartyEdge(PartyResolution.Cache(c, row), row, vid, PartyResolution.Column.Applicants), {"APPLIED_BY"});
    FlatMapTypes(PartyResolution.PartyItems(row.assignees),
                 PartyResolution.PartyEdge(PartyResolution.Cache(c, row), row, vid, PartyResolution.Column.Assignees), {"OWNED_BY"});
  }

  lemma PartyKeys(c: Context, patents: seq<Citations.Patent>, rows: seq<PatentRow>, k: EdgeKey)
    requires k.edgeType in {"INVENTED_BY", "APPLIED_BY", "OWNED_BY"}
    ensures k in KeySet(FlatMap(rows, RowEdges(c, VidById(patents)))) <==> exists row | row in rows :: RowSays(c, patents, row, k)
  {
    hide FlatMap, PartyResolution.RowEdges, VidById, OfPatent, PartyResolution.Identifies, PartyResolution.Decides;
    var vids, f := VidById(patents), RowEdges(c, VidById(patents));
    var edges := FlatMap(rows, f);
    if k in KeySet(edges) {
      var e :| e in edges && e.Key() == k;
      var row := FlatMapSource(rows, f, e);
      OfPatentIff(patents, row, vids[row.patentId]);
      RowKey(c, row, vids[row.patentId], k);
      assert k in KeySet(PartyResolution.RowEdges(c, row, vids[row.patentId]));
    }
    if row :| row in rows && RowSays(c, patents, row, k) {
      OfPatentIff(patents, row, k.source);
      RowKey(c, row, k.source, k);
      var e :| e in PartyResolution.RowEdges(c, row, k.source) && e.Key() == k;
      FlatMapHas(rows, f, row, e);
    }
  }

  /** Review `i` is promoted to the key: the matcher, asked for the first eligible review of its name, matched
      and selected the target. */
  ghost predicate PromotedTo(n: NameIndex.Names, align: Matcher, entries: seq<Entry>, i: nat, f: nat, k: EdgeKey) {
    && i < |entries| && Eligible(entries[i].review) && AsksFor(n, entries, i, f)
    && var r, answer := entries[i].review, align(entries[f].review.name, entries[f].review.recordId);
       && answer.Some? && answer.value.matched && answer.value.selected != ""
       && k == EdgeKey(r.relation, r.patentVid, answer.value.selected, r.sequence)
  }

  ghost predicate PromotedSays(n: NameIndex.Names, align: Matcher, entries: seq<Entry>, k: EdgeKey) {
    exists i: nat, f: nat :: i < |entries| && PromotedTo(n, align, entries, i, f, k)
  }

  lemma AskerOf(n: NameIndex.Names, entries: seq<Entry>, i: nat) returns (f: nat)
    requires i < |entries| && Eligible(entries[i].review)
    ensures f <= i && AsksFor(n, entries, i, f)
  {
    hide Eligible;
    f := FirstEligible(n, entries, n.normalize(entries[i].review.name));
  }

  lemma {:induction false} PromotedKeys(n: NameIndex.Names, align: Matcher, entries: seq<Entry>, m: nat, k: EdgeKey)
    requires m <= |entries|
    ensures k in KeySet(Promoted(n, align, entries, m)) <==>
              exists i: nat, f: nat :: i < m && PromotedTo(n, align, entries, i, f, k)
    ensures m == |entries| ==> (k in KeySet(Promoted(n, align, entries, m)) <==> PromotedSays(n, align, entries, k))
  {
    hide KeySet, Promoted, TellsPromotion, PromotedTo;
    PromotedNone(n, align, entries);
    if m == 0 {
      KeySetOfNone();
    } else {
      var i := m - 1;
      PromotedKeys(n, align, entries, i, k);
      PromotedStep(n, align, entries, i, k);
    }
  }

  lemma PromotedNone(n: NameIndex.Names, align: Matcher, entries: seq<Entry>)
    ensures Promoted(n, align, entries, 0) == []
  {
  }

  lemma PromotedStep(n: NameIndex.Names, align: Matcher, entries: seq<Entry>, i: nat, k: EdgeKey)
    requires i < |entries|
    ensures k in KeySet(Promoted(n, align, entries, i + 1)) <==>
              k in KeySet(Promoted(n, align, entries, i)) || exists f: nat :: PromotedTo(n, align, entries, i, f, k)
  {
    hide KeySet, Promoted, Eligible, AsksFor;
    if !Eligible(entries[i].review) {
      IneligibleStays(n, align, entries, i);
      assert forall f: nat :: !PromotedTo(n, align, entries, i, f, k);
    } else {
      var f := AskerOf(n, entries, i);
      PromotedTells(n, align, entries, i + 1, i, f);
      forall g: nat | AsksFor(n, entries, i, g)
        ensures g == f
      {
        AskerIs(n, entries, i, g);
        AskerIs(n, entries, i, f);
      }
      var answer := align(entries[f].review.name, entries[f].review.recordId);
      if answer.Some? && answer.value.matched && answer.value.selected != "" {
        var e := Promoted(n, align, entries, i + 1)[|Promoted(n, align, entries, i)|];
        KeySetConcat(Promoted(n, align, entries, i), [e]);
        KeySetOfOne(e);
        PartyRank(entries[i].review);
        assert e.Key() == EdgeKey(e.edgeType, e.source, e.target, e.rank);
        assert PromotedTo(n, align, entries, i, f, k) <==> k == e.Key();
      } else {
        assert !PromotedTo(n, align, entries, i, f, k);
      }
    }
  }

  lemma PartyRank(r: Review)
    requires Eligible(r)
    ensures r.relation != "CITES" && r.relation != "OUTPUT_OF"
  {
  }

  /** After a replacing load the graph joins a patent to an inventor, applicant or assignee iff a source row
      of the patent says so or a review of it was promoted. */
  lemma PartiesAfterLoad(c: Context, fold: string -> string, s: Sources, vector: Option<Vector>,
                         before: Edges, patents: set<string>, after: Edges, k: EdgeKey)
    requires Exactly(before, patents, Dedup(AnalysedEdges(c, fold, s) + PromotedEdges(c, s, vector)), after) && k.source in patents
    requires k.edgeType in {"INVENTED_BY", "APPLIED_BY", "OWNED_BY"}
    ensures var entries := Entries(FlatMap(s.rows, RowReviews(c, VidById(s.patents))));
            k in after <==>
              || (exists row | row in s.rows :: RowSays(c, s.patents, row, k))
              || (vector.Some? && PromotedSays(c.names, vector.value.align, entries, k))
  {
    hide Dedup, KeySet, FlatMap, OutputEdges, Citations.AllEdges, Exactly, RowSays, VidById, PromotedEdges;
    var edges := AnalysedEdges(c, fold, s) + PromotedEdges(c, s, vector);
    ReplacedKey(before, patents, edges, after, k);
    PartyTypeKeys(c, fold, s, vector, k);
    PartyKeys(c, s.patents, s.rows, k);
    PromotedEdgeKeys(c, s, vector, k);
  }

  lemma PromotedEdgeKeys(c: Context, s: Sources, vector: Option<Vector>, k: EdgeKey)
    ensures var entries := Entries(FlatMap(s.rows, RowReviews(c, VidById(s.patents))));
            k in KeySet(PromotedEdges(c, s, vector)) <==> vector.Some? && PromotedSays(c.names, vector.value.align, entries, k)
  {
    hide KeySet, FlatMap, Promoted, PromotedSays, VidById;
    if vector.Some? {
      var entries := Entries(FlatMap(s.rows, RowReviews(c, VidById(s.patents))));
      PromotedKeys(c.names, vector.value.align, entries, |entries|, k);
    } else {
      KeySetOfNone();
    }
  }

  lemma PartyTypeKeys(c: Context, fold: string -> string, s: Sources, vector: Option<Vector>, k: EdgeKey)
    requires k.edgeType in {"INVENTED_BY", "APPLIED_BY", "OWNED_BY"}
    ensures k in KeySet(AnalysedEdges(c, fold, s) + PromotedEdges(c, s, vector)) <==>
              k in KeySet(FlatMap(s.rows, RowEdges(c, VidById(s.patents)))) || k in KeySet(PromotedEdges(c, s, vector))
  {
    hide KeySet, FlatMap, OutputEdges, Citations.AllEdges, PromotedEdges, OnlyTypes, VidById;
    var vids := ProjectOutputs.VidBySource(s.projects);
    var outputs, parties := OutputEdges(fold, s.patents, vids, s.zh, s.en), FlatMap(s.rows, RowEdges(c, VidById(s.patents)));
    var citations, promoted := Citations.AllEdges(fold, s.patents, s.citedRows), PromotedEdges(c, s, vector);
    KeySetConcat(outputs + parties + citations, promoted);
    KeySetConcat(outputs + parties, citations);
    KeySetConcat(outputs, parties);
    OutputEdgeTypes(fold, s.patents, vids, s.zh, s.en);
    CitationTypes(fold, s.patents, s.citedRows);
    if k in KeySet(outputs) { KeyNeedsType(outputs, {"OUTPUT_OF"}, k); }
    if k in KeySet(citations) { KeyNeedsType(citations, {"CITES"}, k); }
  }

  // ---------------------------------------------------------------------------
  // Which reviews there are, and when a project confirms an inventor
  // ---------------------------------------------------------------------------

  /** The review is that of a party or inventor of the row. */
  ghost predicate OfRow(c: Context, row: PatentRow, r: Review) {
    || (exists p :: p in PartyResolution.PartyItems(row.applicants)
                    && r in PartyResolution.PartyReview(c, row, r.patentVid, PartyResolution.Column.Applicants)(p))
    || (exists p :: p in PartyResolution.PartyItems(row.assignees)
                    && r in PartyResolution.PartyReview(c, row, r.patentVid, PartyResolution.Column.Assignees)(p))
    || (exists p :: p in PartyResolution.PartyItems(row.inventors)
                    && r in PartyResolution.InventorReview(c, row, r.patentVid, PartyResolution.ConfirmedNames(c, row))(p))
  }

  lemma OfRowIff(c: Context, row: PatentRow, vid: string, r: Review)
    ensures r in PartyResolution.RowReviews(c, row, vid) <==> r.patentVid == vid && OfRow(c, row, r)
  {
    hide FlatMap, PartyResolution.PartyItems, PartyResolution.ConfirmedNames, PartyResolution.CandidatesOf, PartyResolution.Strong;
    var confirmed := PartyResolution.ConfirmedNames(c, row);
    FlatMapIff(PartyResolution.PartyItems(row.applicants), PartyResolution.PartyReview(c, row, vid, PartyResolution.Column.Applicants), r);
    FlatMapIff(PartyResolution.PartyItems(row.assignees), PartyResolution.PartyReview(c, row, vid, PartyResolution.Column.Assignees), r);
    FlatMapIff(PartyResolution.PartyItems(row.inventors), PartyResolution.InventorReview(c, row, vid, confirmed), r);
  }

  /** A row is reviewed iff its patent id belongs to a vertex of the catalogue. */
  lemma ReviewedIff(c: Context, patents: seq<Citations.Patent>, rows: seq<PatentRow>, r: Review)
    ensures r in FlatMap(rows, RowReviews(c, VidById(patents))) <==>
              exists row :: row in rows && OfPatent(patents, row, r.patentVid) && OfRow(c, row, r)
  {
    hide FlatMap, PartyResolution.RowReviews, VidById, OfPatent, OfRow;
    var vids := VidById(patents);
    FlatMapIff(rows, RowReviews(c, vids), r);
    forall row | row in rows
      ensures r in RowReviews(c, vids)(row) <==> OfPatent(patents, row, r.patentVid) && OfRow(c, row, r)
    {
      OfPatentIff(patents, row, r.patentVid);
      if row.patentId in vids {
        OfPatentIff(patents, row, vids[row.patentId]);
        OfRowIff(c, row, vids[row.patentId], r);
      }
    }
  }

  /** A project row of the table that has a vertex lists the patent and carries the name. */
  ghost predicate ProjectCarries(names: NameIndex.Names, fold: string -> string, s: Sources, language: ProjectOutputs.Language,
                                 vid: string, name: string) {
    exists row, field :: row in (if language.Zh? then s.zh else s.en) && field in row.people && name in names.split(field)
                         && ProjectOutputs.StandsForAVertex(s.projects, language, row)
                         && exists i :: ProjectOutputs.IsOutput(fold, s.patents, row, i, vid)
  }

  ghost predicate SomeProjectCarries(names: NameIndex.Names, fold: string -> string, s: Sources, vid: string, name: string) {
    ProjectCarries(names, fold, s, ProjectOutputs.Zh, vid, name) || ProjectCarries(names, fold, s, ProjectOutputs.En, vid, name)
  }

  lemma ProjectNameIff(c: Context, names: NameIndex.Names, fold: string -> string, s: Sources, vid: string, name: string)
    requires ContextOf(c, names, fold, s)
    ensures name in c.Project(vid) <==> SomeProjectCarries(names, fold, s, vid, name)
  {
    hide ProjectOutputs.Vouched, ProjectOutputs.VidBySource, ProjectOutputs.IsOutput, ProjectOutputs.StandsForAVertex, NameIndex.Indexes;
    ProjectOutputs.VouchedIff(names, fold, s.patents, s.projects, ProjectOutputs.Zh, s.zh, vid, name);
    ProjectOutputs.VouchedIff(names, fold, s.patents, s.projects, ProjectOutputs.En, s.en, vid, name);
    var project := c.Project(vid);
  }

  lemma ContextNames(c: Context, names: NameIndex.Names, fold: string -> string, s: Sources)
    requires ContextOf(c, names, fold, s)
    ensures c.names == names
  {
  }

  /** The inventor's normalised name, or a part of an organization of the person, is on a project that lists
      the patent. */
  ghost predicate ProjectConfirms(names: NameIndex.Names, fold: string -> string, s: Sources, vid: string, name: string,
                                  person: NameIndex.Entity) {
    || SomeProjectCarries(names, fold, s, vid, names.normalize(name))
    || exists field, part :: field in person.affiliations && part in names.split(field) && SomeProjectCarries(names, fold, s, vid, part)
  }

  /** Of the loaded sources: an inventor edge has confidence 0.9 iff a project confirms it, and else 0.8. */
  lemma InventorConfidence(c: Context, names: NameIndex.Names, fold: string -> string, s: Sources, row: PatentRow, vid: string,
                           p: PartyResolution.Party, e: EdgeRecord, person: NameIndex.Entity)
    requires ContextOf(c, names, fold, s)
    requires PartyResolution.Strong(c, PartyResolution.ConfirmedNames(c, row), c.People(p.name)) == [person]
    requires e in PartyResolution.InventorEdge(c, row, vid, PartyResolution.ConfirmedNames(c, row))(p)
    ensures ("confidence", Float(if ProjectConfirms(names, fold, s, vid, p.name, person) then 900_000 else 800_000)) in e.properties
  {
    hide ContextOf, SomeProjectCarries, PartyResolution.Strong, PartyResolution.ConfirmedNames, PartyResolution.InventorEdge;
    ContextNames(c, names, fold, s);
    PartyResolution.InventorTraced(c, row, vid, PartyResolution.ConfirmedNames(c, row), p, e, person);
    forall name
      ensures name in c.Project(vid) <==> SomeProjectCarries(names, fold, s, vid, name)
    {
      ProjectNameIff(c, names, fold, s, vid, name);
    }
  }
}
