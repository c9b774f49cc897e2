/** The analysis half of the relation loader: from catalogues and source rows to edges and reviews. */
module RelationAnalysis {
  import opened EdgeRecords
  import opened NgqlText
  import opened Options
  import opened RelationWriter
  import Citations
  import NameIndex
  import PartyResolution
  import ProjectOutputs

  type Context = PartyResolution.Context
  type PatentRow = PartyResolution.PatentRow
  type ProjectRow = ProjectOutputs.ProjectRow

  /** The vertex of each patent id; a later catalogue row overwrites an earlier one. */
  function VidById(patents: seq<Citations.Patent>): map<string, string> {
    if patents == [] then map[]
    else
      var p := patents[|patents| - 1];
      VidById(patents[..|patents| - 1])[p.patentId := p.vid]
  }

  function Vids(patents: seq<Citations.Patent>): set<string> {
    set p | p in patents :: p.vid
  }

  lemma {:induction false} VidByIdIsVertex(patents: seq<Citations.Patent>, id: string)
    requires id in VidById(patents)
    ensures VidById(patents)[id] in Vids(patents)
  {
    var before, p := patents[..|patents| - 1], patents[|patents| - 1];
    assert p in patents;
    if id != p.patentId {
      VidByIdIsVertex(before, id);
      assert Vids(before) <= Vids(patents);
    }
  }

  /** A source row contributes only if its patent is a vertex with a non-empty VID. */
  function RowEdges(c: Context, vids: map<string, string>): PatentRow -> seq<EdgeRecord> {
    (row: PatentRow) =>
      if row.patentId !in vids || vids[row.patentId] == "" then []
      else PartyResolution.RowEdges(c, row, vids[row.patentId])
  }

  function RowReviews(c: Context, vids: map<string, string>): PatentRow -> seq<PartyResolution.Review> {
    (row: PatentRow) =>
      if row.patentId !in vids || vids[row.patentId] == "" then []
      else PartyResolution.RowReviews(c, row, vids[row.patentId])
  }

  /** The names that projects vouch for, collected from both project tables. */
  ghost predicate VouchedBy(c: Context, fold: string -> string, patents: seq<Citations.Patent>,
                            vids: ProjectOutputs.Vids, zh: seq<ProjectRow>, en: seq<ProjectRow>) {
    forall v :: c.Project(v) == ProjectOutputs.Vouched(c.names, fold, patents, vids, ProjectOutputs.Zh, zh, v)
                                + ProjectOutputs.Vouched(c.names, fold, patents, vids, ProjectOutputs.En, en, v)
  }

  ghost function OutputEdges(fold: string -> string, patents: seq<Citations.Patent>, vids: ProjectOutputs.Vids,
                             zh: seq<ProjectRow>, en: seq<ProjectRow>): seq<EdgeRecord> {
    ProjectOutputs.TableEdges(fold, patents, vids, ProjectOutputs.Zh, zh)
    + ProjectOutputs.TableEdges(fold, patents, vids, ProjectOutputs.En, en)
  }

  method BuildRelations(names: NameIndex.Names, fold: string -> string,
                        patents: seq<Citations.Patent>, people: seq<NameIndex.Entity>, organizations: seq<NameIndex.Entity>,
                        projects: seq<ProjectOutputs.Project>, zh: seq<ProjectRow>, en: seq<ProjectRow>,
                        rows: seq<PatentRow>, citedRows: seq<Citations.CitedRow>)
    returns (edges: seq<EdgeRecord>, reviews: seq<PartyResolution.Review>, ghost c: Context)
    ensures c.names == names && VouchedBy(c, fold, patents, ProjectOutputs.VidBySource(projects), zh, en)
    ensures NameIndex.Indexes(names, people, c.people) && NameIndex.Indexes(names, organizations, c.organizations)
    ensures edges == OutputEdges(fold, patents, ProjectOutputs.VidBySource(projects), zh, en)
                     + FlatMap(rows, RowEdges(c, VidById(patents))) + Citations.AllEdges(fold, patents, citedRows)
    ensures reviews == FlatMap(rows, RowReviews(c, VidById(patents)))
    ensures AllWellMade(Vids(patents), edges)
  {
    hide ProjectOutputs.TableEdges, ProjectOutputs.Vouched, Citations.AllEdges, WellMade, FlatMap;
    var vids := VidById(patents);
    var patentIndex := Citations.IdentifierIndex(fold, patents);
    var personIndex := NameIndex.MakeIndex(names, people);
    var organizationIndex := NameIndex.MakeIndex(names, organizations);
    var evidence, outputs := ProjectOutputs.ProjectContext(names, fold, patents, patentIndex, projects, zh, en);
    var context := PartyResolution.Context(names, organizationIndex, personIndex, evidence);
    var parties;
    parties, reviews := ResolveRows(context, vids, rows);
    var citations := Citations.CitationEdges(fold, patents, patentIndex, citedRows);
    edges := outputs + parties + citations;
    c := context;
    OutputsWellMade(fold, patents, ProjectOutputs.VidBySource(projects), ProjectOutputs.Zh, zh);
    OutputsWellMade(fold, patents, ProjectOutputs.VidBySource(projects), ProjectOutputs.En, en);
    PartiesWellMade(c, patents, rows);
    CitationsWellMade(fold, patents, citedRows);
  }

  method ResolveRows(c: Context, vids: map<string, string>, rows: seq<PatentRow>)
    returns (edges: seq<EdgeRecord>, reviews: seq<PartyResolution.Review>)
    ensures edges == FlatMap(rows, RowEdges(c, vids))
    ensures reviews == FlatMap(rows, RowReviews(c, vids))
  {
    hide PartyResolution.RowEdges, PartyResolution.RowReviews;
    edges, reviews := [], [];
    for i := 0 to |rows|
      invariant edges == FlatMap(rows[..i], RowEdges(c, vids))
      invariant reviews == FlatMap(rows[..i], RowReviews(c, vids))
    {
      assert rows[..i + 1][..i] == rows[..i];
      if rows[i].patentId in vids && vids[rows[i].patentId] != "" {
        var rowEdges, rowReviews := PartyResolution.ResolveRow(c, rows[i], vids[rows[i].patentId]);
        edges, reviews := edges + rowEdges, reviews + rowReviews;
      }
    }
    assert rows[..|rows|] == rows;
  }

  // ---------------------------------------------------------------------------
  // Every edge of the analysis is one the loader manages, and prints readably
  // ---------------------------------------------------------------------------

  /** Names and column types of an edge type's properties, in the order its producer lists them. */
  function Schema(edgeType: string): seq<(string, Kind)> {
    var evidence := [("match_method", StrKind), ("match_evidence", StrKind), ("source_table", StrKind), ("source_record_id", StrKind)];
    var party := [("source_name", StrKind), ("confidence", FloatKind), ("subject_type", StrKind), ("resolution_status", StrKind)];
    match edgeType
    case "INVENTED_BY" => [("sequence", IntKind)] + party + evidence
    case "APPLIED_BY" => [("sequence", IntKind), ("role", StrKind)] + party + evidence
    case "OWNED_BY" => [("sequence", IntKind), ("role", StrKind), ("is_current", BoolKind)] + party + evidence
    case "CITES" => [("reference_identifier", StrKind), ("sequence", IntKind), ("confidence", FloatKind)] + evidence
    case _ => // OUTPUT_OF
      [("source_table", StrKind), ("source_record_id", StrKind), ("confidence", FloatKind), ("match_method", StrKind), ("match_evidence", StrKind)]
  }

  function SchemaNames(edgeType: string): seq<string> {
    seq(|Schema(edgeType)|, i requires 0 <= i < |Schema(edgeType)| => Schema(edgeType)[i].0)
  }

  function SchemaKinds(edgeType: string): seq<Kind> {
    seq(|Schema(edgeType)|, i requires 0 <= i < |Schema(edgeType)| => Schema(edgeType)[i].1)
  }

  ghost predicate WellMade(patents: set<string>, e: EdgeRecord) {
    && e.edgeType in ALL_EDGE_TYPES && e.source in patents
    && Fits(e.edgeType, SchemaNames(e.edgeType), SchemaKinds(e.edgeType), e)
  }

  ghost predicate AllWellMade(patents: set<string>, edges: seq<EdgeRecord>) {
    forall i | 0 <= i < |edges| :: WellMade(patents, edges[i])
  }

  lemma {:induction false} FlatMapWellMade<A>(patents: set<string>, items: seq<A>, f: A -> seq<EdgeRecord>)
    requires forall x, i | x in items && 0 <= i < |f(x)| :: WellMade(patents, f(x)[i])
    ensures AllWellMade(patents, FlatMap(items, f))
  {
    if items != [] {
      FlatMapWellMade(patents, items[..|items| - 1], f);
      assert items[|items| - 1] in items;
      var last := f(items[|items| - 1]);
      assert forall i | 0 <= i < |last| :: WellMade(patents, last[i]);
    }
  }

  lemma PartyFits(column: PartyResolution.Column, r: EdgeRecord, name: string, confidence: int, how: string, evidence: string, recordId: string)
    requires r.edgeType == column.EdgeType()
    requires r.properties == PartyResolution.PartyProperties(r.rank, column.Role(), column.IsCurrent(), name, confidence, how, evidence, recordId)
    ensures Fits(r.edgeType, SchemaNames(r.edgeType), SchemaKinds(r.edgeType), r)
  {
    hide Fits, SchemaNames, SchemaKinds, PartyResolution.PartyProperties;
    match column
    case Applicants => ApplicantFits(r, name, confidence, how, evidence, recordId);
    case Assignees => AssigneeFits(r, name, confidence, how, evidence, recordId);
  }

  /** Property names with the column types of their values. */
  function Typed(properties: Properties): seq<(string, Kind)> {
    seq(|properties|, i requires 0 <= i < |properties| => (properties[i].0, KindOf(properties[i].1)))
  }

  lemma TypedFits(edgeType: string, r: EdgeRecord)
    requires r.edgeType == edgeType && Typed(r.properties) == Schema(edgeType)
    ensures Fits(edgeType, SchemaNames(edgeType), SchemaKinds(edgeType), r)
  {
    hide Schema, KindOf;
    forall i | 0 <= i < |r.properties|
      ensures r.properties[i].0 == Schema(edgeType)[i].0 && KindOf(r.properties[i].1) == Schema(edgeType)[i].1
    {
      assert Typed(r.properties)[i] == Schema(edgeType)[i];
    }
  }

  lemma ApplicantFits(r: EdgeRecord, name: string, confidence: int, how: string, evidence: string, recordId: string)
    requires r.edgeType == "APPLIED_BY"
    requires r.properties == PartyResolution.PartyProperties(r.rank, "applicant", None, name, confidence, how, evidence, recordId)
    ensures Fits("APPLIED_BY", SchemaNames("APPLIED_BY"), SchemaKinds("APPLIED_BY"), r)
  {
    hide Fits, SchemaNames, SchemaKinds;
    assert Typed(r.properties) == Schema("APPLIED_BY");
    TypedFits("APPLIED_BY", r);
  }

  lemma AssigneeFits(r: EdgeRecord, name: string, confidence: int, how: string, evidence: string, recordId: string)
    requires r.edgeType == "OWNED_BY"
    requires r.properties == PartyResolution.PartyProperties(r.rank, "assignee", Some(true), name, confidence, how, evidence, recordId)
    ensures Fits("OWNED_BY", SchemaNames("OWNED_BY"), SchemaKinds("OWNED_BY"), r)
  {
    hide Fits, SchemaNames, SchemaKinds;
    assert Typed(r.properties) == Schema("OWNED_BY");
    TypedFits("OWNED_BY", r);
  }

  lemma PartyColumnWellMade(c: Context, row: PatentRow, vid: string, patents: set<string>, column: PartyResolution.Column)
    requires vid in patents
    ensures AllWellMade(patents,
              FlatMap(column.Items(row), PartyResolution.PartyEdge(PartyResolution.Cache(c, row), row, vid, column)))
  {
    hide Fits, PartyResolution.PartyProperties, PartyResolution.Cache, PartyResolution.PartyItems, SchemaNames, SchemaKinds;
    var f := PartyResolution.PartyEdge(PartyResolution.Cache(c, row), row, vid, column);
    forall p, i | p in column.Items(row) && 0 <= i < |f(p)|
      ensures WellMade(patents, f(p)[i])
    {
      var recordId := PartyResolution.RecordId(row, column.Name(), p.sequence);
      PartyFits(column, f(p)[i], p.name, 980_000, "exact_unique_organization_name",
                "机构名称或别名与dev已有Organization精确匹配且候选唯一", recordId);
    }
    FlatMapWellMade(patents, column.Items(row), f);
  }

  lemma InventorFits(row: PatentRow, p: PartyResolution.Party, project: bool, r: EdgeRecord)
    requires r.edgeType == "INVENTED_BY" && r.properties == PartyResolution.InventorProperties(row, p, project)
    ensures Fits(r.edgeType, SchemaNames(r.edgeType), SchemaKinds(r.edgeType), r)
  {
    hide Fits, SchemaNames, SchemaKinds, PartyResolution.ProjectHit;
    assert Typed(r.properties) == Schema("INVENTED_BY");
    TypedFits("INVENTED_BY", r);
  }

  lemma InventorsWellMade(c: Context, row: PatentRow, vid: string, patents: set<string>)
    requires vid in patents
    ensures AllWellMade(patents, FlatMap(PartyResolution.PartyItems(row.inventors),
              PartyResolution.InventorEdge(c, row, vid, PartyResolution.ConfirmedNames(c, row))))
  {
    hide Fits, PartyResolution.InventorProperties, PartyResolution.ConfirmedNames, PartyResolution.Strong, SchemaNames, SchemaKinds;
    var confirmed := PartyResolution.ConfirmedNames(c, row);
    var f := PartyResolution.InventorEdge(c, row, vid, confirmed);
    forall p, i | p in PartyResolution.PartyItems(row.inventors) && 0 <= i < |f(p)|
      ensures WellMade(patents, f(p)[i])
    {
      var strong := PartyResolution.Strong(c, confirmed, c.People(p.name));
      InventorFits(row, p, PartyResolution.ProjectHit(c, vid, p.name, strong[0]), f(p)[i]);
    }
    FlatMapWellMade(patents, PartyResolution.PartyItems(row.inventors), f);
  }

  lemma RowWellMade(c: Context, row: PatentRow, vid: string, patents: set<string>)
    requires vid in patents
    ensures AllWellMade(patents, PartyResolution.RowEdges(c, row, vid))
  {
    hide WellMade, FlatMap, PartyResolution.Cache, PartyResolution.ConfirmedNames, PartyResolution.PartyItems;
    InventorsWellMade(c, row, vid, patents);
    PartyColumnWellMade(c, row, vid, patents, PartyResolution.Column.Applicants);
    PartyColumnWellMade(c, row, vid, patents, PartyResolution.Column.Assignees);
  }

  lemma PartiesWellMade(c: Context, patents: seq<Citations.Patent>, rows: seq<PatentRow>)
    ensures AllWellMade(Vids(patents), FlatMap(rows, RowEdges(c, VidById(patents))))
  {
    var f := RowEdges(c, VidById(patents));
    forall row, i | row in rows && 0 <= i < |f(row)|
      ensures WellMade(Vids(patents), f(row)[i])
    {
      VidByIdIsVertex(patents, row.patentId);
      RowWellMade(c, row, VidById(patents)[row.patentId], Vids(patents));
    }
    FlatMapWellMade(Vids(patents), rows, f);
  }

  lemma CitationFits(row: Citations.CitedRow, column: Citations.Column, identifier: string, sequence: int, current: string, other: string)
    ensures var r := Citations.CitationEdge(row, column, identifier, sequence, current, other);
            Fits("CITES", SchemaNames("CITES"), SchemaKinds("CITES"), r)
  {
    var r := Citations.CitationEdge(row, column, identifier, sequence, current, other);
    assert Typed(r.properties) == Schema("CITES");
    TypedFits("CITES", r);
  }

  lemma {:induction false} CitationColumnWellMade(fold: string -> string, patents: seq<Citations.Patent>, row: Citations.CitedRow,
                                         column: Citations.Column, current: string, n: nat)
    requires n <= |column.Identifiers(row)| && current in Vids(patents)
    ensures AllWellMade(Vids(patents), Citations.ColumnEdges(fold, patents, row, column, current, n))
  {
    hide Fits, SchemaNames, SchemaKinds;
    if n > 0 {
      CitationColumnWellMade(fold, patents, row, column, current, n - 1);
      DenotedIsVertex(fold, patents, column.Identifiers(row)[n - 1]);
      var other := Citations.Denoted(fold, patents, column.Identifiers(row)[n - 1]);
      if other.Some? {
        CitationFits(row, column, column.Identifiers(row)[n - 1], n, current, other.value);
      }
    }
  }

  lemma DenotedIsVertex(fold: string -> string, patents: seq<Citations.Patent>, value: string)
    ensures var vid := Citations.Denoted(fold, patents, value); vid.Some? ==> vid.value in Vids(patents)
  {
    var vid := Citations.Denoted(fold, patents, value);
    if vid.Some? {
      assert vid.value in Citations.Named(fold, patents, value);
    }
  }

  lemma {:induction false} CitationsWellMade(fold: string -> string, patents: seq<Citations.Patent>, rows: seq<Citations.CitedRow>)
    ensures AllWellMade(Vids(patents), Citations.AllEdges(fold, patents, rows))
  {
    if rows != [] {
      CitationsWellMade(fold, patents, rows[..|rows| - 1]);
      var row := rows[|rows| - 1];
      DenotedIsVertex(fold, patents, row.patentId);
      var current := Citations.Denoted(fold, patents, row.patentId);
      if current.Some? {
        CitationColumnWellMade(fold, patents, row, Citations.PatentCitations, current.value, |row.citations|);
        CitationColumnWellMade(fold, patents, row, Citations.CitedBy, current.value, |row.citedBy|);
      }
    }
  }

  lemma OutputFits(language: ProjectOutputs.Language, row: ProjectRow, sequence: int, patent: string, project: string)
    ensures Fits("OUTPUT_OF", SchemaNames("OUTPUT_OF"), SchemaKinds("OUTPUT_OF"),
                 ProjectOutputs.OutputEdge(language, row, sequence, patent, project))
  {
    var r := ProjectOutputs.OutputEdge(language, row, sequence, patent, project);
    assert Typed(r.properties) == Schema("OUTPUT_OF");
    TypedFits("OUTPUT_OF", r);
  }

  lemma {:induction false} RowOutputsWellMade(fold: string -> string, patents: seq<Citations.Patent>,
                                              language: ProjectOutputs.Language, row: ProjectRow, project: string, n: nat)
    requires n <= |row.outputs|
    ensures AllWellMade(Vids(patents), ProjectOutputs.OutputEdges(fold, patents, language, row, project, n))
  {
    hide Fits, SchemaNames, SchemaKinds, Citations.Denoted;
    if n > 0 {
      RowOutputsWellMade(fold, patents, language, row, project, n - 1);
      var patent := ProjectOutputs.OutputPatent(fold, patents, row, n - 1);
      if patent.Some? {
        DenotedIsVertex(fold, patents, ProjectOutputs.Identifier(row.outputs[n - 1]));
        OutputFits(language, row, n, patent.value, project);
      }
    }
  }

  lemma {:induction false} OutputsWellMade(fold: string -> string, patents: seq<Citations.Patent>, vids: ProjectOutputs.Vids,
                                           language: ProjectOutputs.Language, rows: seq<ProjectRow>)
    ensures AllWellMade(Vids(patents), ProjectOutputs.TableEdges(fold, patents, vids, language, rows))
  {
    hide WellMade, ProjectOutputs.OutputEdges;
    if rows != [] {
      OutputsWellMade(fold, patents, vids, language, rows[..|rows| - 1]);
      var row := rows[|rows| - 1];
      var project := ProjectOutputs.ProjectVid(vids, language, row);
      if project.Some? {
        RowOutputsWellMade(fold, patents, language, row, project.value, |row.outputs|);
      }
    }
  }

  // ---------------------------------------------------------------------------
  // From the analysis to the graph
  // ---------------------------------------------------------------------------

  lemma WellMadeIsManaged(patents: set<string>, edges: seq<EdgeRecord>)
    requires AllWellMade(patents, edges)
    ensures PatentRelations(patents, edges)
  {
    assert forall i | 0 <= i < |edges| :: WellMade(patents, edges[i]);
  }

  lemma DedupWellMade(patents: set<string>, edges: seq<EdgeRecord>)
    requires AllWellMade(patents, edges)
    ensures AllWellMade(patents, Dedup(edges))
  {
    hide Dedup, Keys, SchemaNames, SchemaKinds;
    forall i | 0 <= i < |Dedup(edges)|
      ensures WellMade(patents, Dedup(edges)[i])
    {
      var j := KeptRecord(edges, i);
      assert WellMade(patents, edges[j]);
    }
  }

  lemma PartyNamesAreNames(name: string)
    requires name in ["sequence", "role", "is_current", "source_name", "confidence", "subject_type"]
    ensures IsName(name)
  {
  }

  lemma OtherNamesAreNames(name: string)
    requires name in ["resolution_status", "match_method", "match_evidence", "source_table", "source_record_id",
                      "reference_identifier"]
    ensures IsName(name)
  {
  }

  lemma SchemaNamesAreNames(edgeType: string)
    ensures forall name | name in SchemaNames(edgeType) :: IsName(name)
  {
    hide IsName;
    forall name | name in SchemaNames(edgeType)
      ensures IsName(name)
    {
      if name in ["sequence", "role", "is_current", "source_name", "confidence", "subject_type"] {
        PartyNamesAreNames(name);
      } else {
        OtherNamesAreNames(name);
      }
    }
  }

  lemma ManagedTypesAreNames(edgeType: string)
    requires edgeType in ALL_EDGE_TYPES
    ensures IsName(edgeType)
  {
  }

  /** Every INSERT statement a load can send for a batch of kept records reads back as that batch. */
  lemma LoadedBatchReadsBack(patents: set<string>, edges: seq<EdgeRecord>, edgeType: string, batch: seq<EdgeRecord>)
    requires AllWellMade(patents, edges) && edgeType in ALL_EDGE_TYPES
    requires forall r | r in batch :: r in Dedup(edges) && r.edgeType == edgeType
    ensures ReadStatement(SchemaKinds(edgeType), EdgeStatement(edgeType, batch)) == Some(batch)
  {
    hide Dedup, SchemaNames, SchemaKinds, Fits;
    DedupWellMade(patents, edges);
    forall r | r in batch
      ensures Fits(edgeType, SchemaNames(edgeType), SchemaKinds(edgeType), r)
    {
      var i :| 0 <= i < |Dedup(edges)| && Dedup(edges)[i] == r;
      assert WellMade(patents, Dedup(edges)[i]);
    }
    SchemaNamesAreNames(edgeType);
    ManagedTypesAreNames(edgeType);
    StatementReadsBack(edgeType, SchemaNames(edgeType), SchemaKinds(edgeType), batch);
  }
}
