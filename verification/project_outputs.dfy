/** The patents that projects list as their outputs, and the names those projects vouch for. */
module ProjectOutputs {
  import opened EdgeRecords
  import opened NameIndex
  import opened Options
  import opened TextOps
  import Citations

  type Patent = Citations.Patent

  /** A Project vertex and the source row it stands for; absent fields are empty. */
  datatype Project = Project(vid: string, sourceTable: string, sourceId: string)

  /** An element of a project's output list. */
  datatype RawOutput = NotAnObject | Output(patentNumber: string, publicationNumber: string)

  /** A project row; `people` holds its host, participants and institutions. */
  datatype ProjectRow = ProjectRow(id: string, people: seq<string>, outputs: seq<RawOutput>)

  datatype Language = Zh | En
  {
    function ProjectTable(): string { if Zh? then "dwd_zh_project" else "dwd_en_project" }

    function OutputTable(): string { if Zh? then "dwd_zh_project_output" else "dwd_en_project_output" }
  }

  // ---------------------------------------------------------------------------
  // What a table of projects says
  // ---------------------------------------------------------------------------

  type Vids = map<(string, string), string>

  /** Project vertices by source row; a later vertex overwrites an earlier one. */
  function VidBySource(projects: seq<Project>): Vids {
    if projects == [] then map[]
    else
      var before, p := VidBySource(projects[..|projects| - 1]), projects[|projects| - 1];
      if p.sourceTable == "" || p.sourceId == "" then before else before[(p.sourceTable, p.sourceId) := p.vid]
  }

  function ProjectVid(vids: Vids, language: Language, row: ProjectRow): Option<string> {
    var key := (language.ProjectTable(), row.id);
    if key in vids && vids[key] != "" then Some(vids[key]) else None
  }

  function Identifier(output: RawOutput): string
    requires output.Output?
  {
    Strip(if output.patentNumber != "" then output.patentNumber else output.publicationNumber)
  }

  function OutputEdge(language: Language, row: ProjectRow, sequence: int, patent: string, project: string): EdgeRecord {
    EdgeRecord("OUTPUT_OF", patent, project, sequence,
               [("source_table", Str(language.OutputTable())),
                ("source_record_id", Str(row.id + ":output_patents:" + Signed(sequence))),
                ("confidence", Float(1_000_000)),
                ("match_method", Str("exact_patent_identifier_and_project_id")),
                ("match_evidence", Str("项目产出专利号与现有Patent唯一匹配，项目ID对应现有Project"))])
  }

  /** The one patent that output `i` of a row denotes, if there is exactly one. */
  ghost function OutputPatent(fold: string -> string, patents: seq<Patent>, row: ProjectRow, i: nat): Option<string>
    requires i < |row.outputs|
  {
    if row.outputs[i].NotAnObject? then None else Citations.Denoted(fold, patents, Identifier(row.outputs[i]))
  }

  /** The edges of the first `n` outputs of a row. */
  ghost function OutputEdges(fold: string -> string, patents: seq<Patent>, language: Language, row: ProjectRow,
                             project: string, n: nat): seq<EdgeRecord>
    requires n <= |row.outputs|
  {
    if n == 0 then []
    else
      var before := OutputEdges(fold, patents, language, row, project, n - 1);
      var patent := OutputPatent(fold, patents, row, n - 1);
      if patent.None? then before else before + [OutputEdge(language, row, n, patent.value, project)]
  }

  ghost function RowEdges(fold: string -> string, patents: seq<Patent>, vids: Vids, language: Language,
                          row: ProjectRow): seq<EdgeRecord> {
    var project := ProjectVid(vids, language, row);
    if project.None? then [] else OutputEdges(fold, patents, language, row, project.value, |row.outputs|)
  }

  ghost function TableEdges(fold: string -> string, patents: seq<Patent>, vids: Vids, language: Language,
                            rows: seq<ProjectRow>): seq<EdgeRecord> {
    if rows == [] then []
    else
      TableEdges(fold, patents, vids, language, rows[..|rows| - 1])
      + RowEdges(fold, patents, vids, language, rows[|rows| - 1])
  }

  /** One of the first `n` outputs of the row is this patent. */
  ghost predicate Lists(fold: string -> string, patents: seq<Patent>, row: ProjectRow, patent: string, n: nat)
    requires n <= |row.outputs|
  {
    exists i | 0 <= i < n :: OutputPatent(fold, patents, row, i) == Some(patent)
  }

  function RowNames(n: Names, row: ProjectRow): set<string> {
    set field, name | field in row.people && name in n.split(field) :: name
  }

  /** Names of the projects among the rows that have a vertex and list the patent. */
  ghost function Vouched(n: Names, fold: string -> string, patents: seq<Patent>, vids: Vids, language: Language,
                         rows: seq<ProjectRow>, patent: string): set<string> {
    set row, name | row in rows && ProjectVid(vids, language, row).Some?
                 && Lists(fold, patents, row, patent, |row.outputs|) && name in RowNames(n, row) :: name
  }

  // ---------------------------------------------------------------------------
  // Collecting it
  // ---------------------------------------------------------------------------

  /** Edges of both tables, and for every patent the names that its projects vouch for. */
  method ProjectContext(n: Names, fold: string -> string, ghost patents: seq<Patent>, index: Citations.Index,
                        projects: seq<Project>, zh: seq<ProjectRow>, en: seq<ProjectRow>)
    returns (evidence: Evidence, edges: seq<EdgeRecord>)
    requires Citations.Indexes(fold, patents, index)
    ensures var vids := VidBySource(projects);
            && edges == TableEdges(fold, patents, vids, Zh, zh) + TableEdges(fold, patents, vids, En, en)
            && forall v :: EvidenceFor(evidence, v) ==
                 Vouched(n, fold, patents, vids, Zh, zh, v) + Vouched(n, fold, patents, vids, En, en, v)
  {
    hide Vouched, TableEdges, Citations.Indexes;
    var vids, none := VidBySource(projects), map[];
    var zhEdges, enEdges;
    evidence, zhEdges := ReadTable(n, fold, patents, index, vids, Zh, zh, none);
    evidence, enEdges := ReadTable(n, fold, patents, index, vids, En, en, evidence);
    edges := zhEdges + enEdges;
  }

  method ReadTable(n: Names, fold: string -> string, ghost patents: seq<Patent>, index: Citations.Index, vids: Vids,
                   language: Language, rows: seq<ProjectRow>, start: Evidence)
    returns (evidence: Evidence, edges: seq<EdgeRecord>)
    requires Citations.Indexes(fold, patents, index)
    ensures edges == TableEdges(fold, patents, vids, language, rows)
    ensures forall v :: EvidenceFor(evidence, v) ==
              EvidenceFor(start, v) + Vouched(n, fold, patents, vids, language, rows, v)
  {
    hide Vouched, Lists, OutputEdges, EvidenceFor, RowNames, Citations.Indexes;
    evidence, edges := start, [];
    NobodyVouched(n, fold, patents, vids, language);
    assert rows[..0] == [];
    for i := 0 to |rows|
      invariant edges == TableEdges(fold, patents, vids, language, rows[..i])
      invariant forall v :: EvidenceFor(evidence, v) ==
                  EvidenceFor(start, v) + Vouched(n, fold, patents, vids, language, rows[..i], v)
    {
      assert rows[..i + 1][..i] == rows[..i];
      NextVouched(n, fold, patents, vids, language, rows, i);
      var project := ProjectVid(vids, language, rows[i]);
      if project.Some? {
        var more;
        evidence, more := ReadOutputs(fold, patents, index, language, rows[i], project.value, RowNames(n, rows[i]), evidence);
        edges := edges + more;
      }
    }
    assert rows[..|rows|] == rows;
  }

  lemma NobodyVouched(n: Names, fold: string -> string, patents: seq<Patent>, vids: Vids, language: Language)
    ensures forall v :: Vouched(n, fold, patents, vids, language, [], v) == {}
  {
  }

  lemma NextVouched(n: Names, fold: string -> string, patents: seq<Patent>, vids: Vids, language: Language,
                    rows: seq<ProjectRow>, i: nat)
    requires i < |rows|
    ensures forall v :: Vouched(n, fold, patents, vids, language, rows[..i + 1], v) ==
              Vouched(n, fold, patents, vids, language, rows[..i], v)
              + if ProjectVid(vids, language, rows[i]).Some? && Lists(fold, patents, rows[i], v, |rows[i].outputs|)
                then RowNames(n, rows[i]) else {}
  {
    hide ProjectVid, Lists, RowNames;
    assert rows[..i + 1] == rows[..i] + [rows[i]];
  }

  /** The loop over the outputs of one project. */
  method ReadOutputs(fold: string -> string, ghost patents: seq<Patent>, index: Citations.Index, language: Language,
                     row: ProjectRow, project: string, names: set<string>, start: Evidence)
    returns (evidence: Evidence, edges: seq<EdgeRecord>)
    requires Citations.Indexes(fold, patents, index)
    ensures edges == OutputEdges(fold, patents, language, row, project, |row.outputs|)
    ensures forall v :: EvidenceFor(evidence, v) ==
              EvidenceFor(start, v) + if Lists(fold, patents, row, v, |row.outputs|) then names else {}
  {
    hide Citations.Denoted, Citations.Denotes, Citations.Named, Citations.Indexes, OutputEdge, Lists;
    evidence, edges := start, [];
    ListsNone(fold, patents, row);
    for i := 0 to |row.outputs|
      invariant edges == OutputEdges(fold, patents, language, row, project, i)
      invariant forall v :: EvidenceFor(evidence, v) ==
                  EvidenceFor(start, v) + if Lists(fold, patents, row, v, i) then names else {}
    {
      ListsNext(fold, patents, row, i);
      if row.outputs[i].Output? {
        var candidates := Citations.PatentCandidates(fold, patents, index, Identifier(row.outputs[i]));
        Citations.OnlyCandidateIsDenoted(fold, patents, Identifier(row.outputs[i]), candidates);
        if |candidates| == 1 {
          evidence := evidence[candidates[0] := EvidenceFor(evidence, candidates[0]) + names];
          edges := edges + [OutputEdge(language, row, i + 1, candidates[0], project)];
        }
      }
    }
  }

  lemma ListsNone(fold: string -> string, patents: seq<Patent>, row: ProjectRow)
    ensures forall v :: !Lists(fold, patents, row, v, 0)
  {
  }

  lemma ListsNext(fold: string -> string, patents: seq<Patent>, row: ProjectRow, i: nat)
    requires i < |row.outputs|
    ensures forall v :: Lists(fold, patents, row, v, i + 1) <==>
              Lists(fold, patents, row, v, i) || OutputPatent(fold, patents, row, i) == Some(v)
  {
    hide OutputPatent;
  }

  // ---------------------------------------------------------------------------
  // The OUTPUT_OF edges after deduplication
  // ---------------------------------------------------------------------------

  lemma {:induction false} OutputKeys(fold: string -> string, patents: seq<Patent>, language: Language, row: ProjectRow,
                                      project: string, n: nat, patent: string, vid: string)
    requires n <= |row.outputs|
    ensures EdgeKey("OUTPUT_OF", patent, vid, 0) in KeySet(OutputEdges(fold, patents, language, row, project, n)) <==>
              vid == project && Lists(fold, patents, row, patent, n)
  {
    hide OutputPatent, Lists, KeySet;
    if n == 0 {
      KeySetOfNone();
      ListsNone(fold, patents, row);
    } else {
      OutputKeys(fold, patents, language, row, project, n - 1, patent, vid);
      ListsNext(fold, patents, row, n - 1);
      var other := OutputPatent(fold, patents, row, n - 1);
      if other.Some? {
        var e := OutputEdge(language, row, n, other.value, project);
        KeySetConcat(OutputEdges(fold, patents, language, row, project, n - 1), [e]);
        KeySetOfOne(e);
        assert e.Key() == EdgeKey("OUTPUT_OF", other.value, project, 0);
      }
    }
  }

  /** The row stands for the project vertex and lists the patent. */
  ghost predicate Links(fold: string -> string, patents: seq<Patent>, vids: Vids, language: Language, row: ProjectRow,
                        patent: string, project: string) {
    ProjectVid(vids, language, row) == Some(project) && Lists(fold, patents, row, patent, |row.outputs|)
  }

  lemma RowKeys(fold: string -> string, patents: seq<Patent>, vids: Vids, language: Language, row: ProjectRow,
                patent: string, project: string)
    ensures EdgeKey("OUTPUT_OF", patent, project, 0) in KeySet(RowEdges(fold, patents, vids, language, row)) <==>
              Links(fold, patents, vids, language, row, patent, project)
  {
    hide KeySet, Lists, ProjectVid, OutputEdges;
    KeySetOfNone();
    var found := ProjectVid(vids, language, row);
    if found.Some? {
      OutputKeys(fold, patents, language, row, found.value, |row.outputs|, patent, project);
    }
  }

  lemma {:induction false} TableKeys(fold: string -> string, patents: seq<Patent>, vids: Vids, language: Language,
                                     rows: seq<ProjectRow>, patent: string, project: string)
    ensures EdgeKey("OUTPUT_OF", patent, project, 0) in KeySet(TableEdges(fold, patents, vids, language, rows)) <==>
              exists row | row in rows :: Links(fold, patents, vids, language, row, patent, project)
  {
    hide KeySet, RowEdges, Links;
    if rows == [] {
      KeySetOfNone();
    } else {
      var before, row := rows[..|rows| - 1], rows[|rows| - 1];
      TableKeys(fold, patents, vids, language, before, patent, project);
      RowKeys(fold, patents, vids, language, row, patent, project);
      KeySetConcat(TableEdges(fold, patents, vids, language, before), RowEdges(fold, patents, vids, language, row));
      assert rows == before + [row];
    }
  }

  /** After deduplication OUTPUT_OF joins a patent and a project exactly once iff a row of one of the two
      tables stands for the project and lists an identifier of that patent alone. */
  lemma OutputMerge(fold: string -> string, patents: seq<Patent>, vids: Vids, zh: seq<ProjectRow>, en: seq<ProjectRow>,
                    patent: string, project: string)
    ensures var merged := Dedup(TableEdges(fold, patents, vids, Zh, zh) + TableEdges(fold, patents, vids, En, en));
            var k := EdgeKey("OUTPUT_OF", patent, project, 0);
            && ((exists i :: 0 <= i < |merged| && merged[i].Cell() == k) <==>
                || (exists row | row in zh :: Links(fold, patents, vids, Zh, row, patent, project))
                || (exists row | row in en :: Links(fold, patents, vids, En, row, patent, project)))
            && forall i, j | 0 <= i < |merged| && 0 <= j < |merged| && merged[i].Cell() == k == merged[j].Cell() :: i == j
  {
    hide Dedup, Links, TableEdges, KeySet;
    var a, b := TableEdges(fold, patents, vids, Zh, zh), TableEdges(fold, patents, vids, En, en);
    TableKeys(fold, patents, vids, Zh, zh, patent, project);
    TableKeys(fold, patents, vids, En, en, patent, project);
    KeySetConcat(a, b);
    KeptCells(a + b, EdgeKey("OUTPUT_OF", patent, project, 0));
  }

  // ---------------------------------------------------------------------------
  // What the tables say, in terms of their rows
  // ---------------------------------------------------------------------------

  /** Project `j` is the last vertex that names this table and row as its source. */
  ghost predicate LastFor(projects: seq<Project>, sourceTable: string, id: string, j: int) {
    && 0 <= j < |projects| && projects[j].sourceTable == sourceTable && projects[j].sourceId == id
    && forall k | j < k < |projects| :: !(projects[k].sourceTable == sourceTable && projects[k].sourceId == id)
  }

  lemma {:induction false} VidBySourceIs(projects: seq<Project>, sourceTable: string, id: string)
    requires sourceTable != "" && id != ""
    ensures (sourceTable, id) in VidBySource(projects) <==> exists j :: LastFor(projects, sourceTable, id, j)
    ensures forall j | LastFor(projects, sourceTable, id, j) :: VidBySource(projects)[(sourceTable, id)] == projects[j].vid
  {
    if projects != [] {
      var before, last := projects[..|projects| - 1], |projects| - 1;
      VidBySourceIs(before, sourceTable, id);
      if projects[last].sourceTable == sourceTable && projects[last].sourceId == id {
        assert LastFor(projects, sourceTable, id, last);
      } else {
        assert forall j :: LastFor(projects, sourceTable, id, j) <==> LastFor(before, sourceTable, id, j);
      }
    }
  }

  lemma {:induction false} NoSourceNoVid(projects: seq<Project>, sourceTable: string, id: string)
    requires sourceTable == "" || id == ""
    ensures (sourceTable, id) !in VidBySource(projects)
  {
    if projects != [] {
      NoSourceNoVid(projects[..|projects| - 1], sourceTable, id);
    }
  }

  /** A row of the zh or en table stands for the last vertex that names it as its source. */
  lemma ProjectVidIff(projects: seq<Project>, language: Language, row: ProjectRow, v: string)
    ensures ProjectVid(VidBySource(projects), language, row) == Some(v) <==>
              row.id != "" && v != "" &&
              exists j :: LastFor(projects, if language.Zh? then "dwd_zh_project" else "dwd_en_project", row.id, j) && projects[j].vid == v
  {
    hide LastFor, VidBySource;
    var name := if language.Zh? then "dwd_zh_project" else "dwd_en_project";
    if row.id == "" {
      NoSourceNoVid(projects, name, row.id);
    } else {
      VidBySourceIs(projects, name, row.id);
    }
  }

  /** Output `i` is an object whose patent number, or else publication number, denotes the patent. */
  ghost predicate IsOutput(fold: string -> string, patents: seq<Patent>, row: ProjectRow, i: int, patent: string) {
    && 0 <= i < |row.outputs| && row.outputs[i].Output?
    && Citations.Denotes(fold, patents, Strip(if row.outputs[i].patentNumber != "" then row.outputs[i].patentNumber
                                              else row.outputs[i].publicationNumber), patent)
  }

  lemma OutputPatentIs(fold: string -> string, patents: seq<Patent>, row: ProjectRow, i: nat, patent: string)
    requires i < |row.outputs|
    ensures OutputPatent(fold, patents, row, i) == Some(patent) <==> IsOutput(fold, patents, row, i, patent)
  {
    hide Citations.Denoted, Citations.Denotes, Strip;
    if row.outputs[i].Output? {
      Citations.DenotedIs(fold, patents, Identifier(row.outputs[i]), patent);
    }
  }

  lemma ListsIff(fold: string -> string, patents: seq<Patent>, row: ProjectRow, patent: string)
    ensures Lists(fold, patents, row, patent, |row.outputs|) <==> exists i :: IsOutput(fold, patents, row, i, patent)
  {
    hide IsOutput, OutputPatent;
    forall i: nat | i < |row.outputs|
      ensures OutputPatent(fold, patents, row, i) == Some(patent) <==> IsOutput(fold, patents, row, i, patent)
    {
      OutputPatentIs(fold, patents, row, i, patent);
    }
    OutputsAreListed(fold, patents, row, patent);
  }

  lemma OutputsAreListed(fold: string -> string, patents: seq<Patent>, row: ProjectRow, patent: string)
    ensures forall i | IsOutput(fold, patents, row, i, patent) :: 0 <= i < |row.outputs|
  {
  }

  /** A project vouches for a name on a patent if it has a vertex, lists the patent, and the name is a part
      of one of its people fields. */
  lemma VouchedIff(n: Names, fold: string -> string, patents: seq<Patent>, projects: seq<Project>, language: Language,
                   rows: seq<ProjectRow>, patent: string, name: string)
    ensures name in Vouched(n, fold, patents, VidBySource(projects), language, rows, patent) <==>
              exists row, field :: row in rows && field in row.people && name in n.split(field)
                && StandsForAVertex(projects, language, row) && exists i :: IsOutput(fold, patents, row, i, patent)
  {
    hide Lists, IsOutput, VidBySource, StandsForAVertex, ProjectVid;
    var vids := VidBySource(projects);
    forall row | row in rows
      ensures Lists(fold, patents, row, patent, |row.outputs|) <==> exists i :: IsOutput(fold, patents, row, i, patent)
      ensures ProjectVid(vids, language, row).Some? <==> StandsForAVertex(projects, language, row)
    {
      ListsIff(fold, patents, row, patent);
      StandsIff(projects, language, row);
    }
    if name in Vouched(n, fold, patents, vids, language, rows, patent) {
      var row :| row in rows && ProjectVid(vids, language, row).Some? && Lists(fold, patents, row, patent, |row.outputs|)
                 && name in RowNames(n, row);
      var field :| field in row.people && name in n.split(field);
    }
    if row, field :| row in rows && field in row.people && name in n.split(field)
                     && StandsForAVertex(projects, language, row) && exists i :: IsOutput(fold, patents, row, i, patent) {
      assert name in RowNames(n, row);
    }
  }

  ghost predicate StandsForAVertex(projects: seq<Project>, language: Language, row: ProjectRow) {
    row.id != "" && exists j :: LastFor(projects, if language.Zh? then "dwd_zh_project" else "dwd_en_project", row.id, j)
                             && projects[j].vid != ""
  }

  lemma StandsIff(projects: seq<Project>, language: Language, row: ProjectRow)
    ensures ProjectVid(VidBySource(projects), language, row).Some? <==> StandsForAVertex(projects, language, row)
  {
    hide VidBySource;
    var found := ProjectVid(VidBySource(projects), language, row);
    if found.Some? {
      ProjectVidIff(projects, language, row, found.value);
    }
    if StandsForAVertex(projects, language, row) {
      var j :| 0 <= j < |projects| && projects[j].vid != "" &&
        LastFor(projects, if language.Zh? then "dwd_zh_project" else "dwd_en_project", row.id, j);
      ProjectVidIff(projects, language, row, projects[j].vid);
    }
  }

  // ---------------------------------------------------------------------------
  // Where an output record comes from
  // ---------------------------------------------------------------------------

  /** The record comes from output `i` of a row, and leads to the vertex that the row stands for. */
  ghost predicate FromOutput(fold: string -> string, patents: seq<Patent>, vids: Vids, language: Language, row: ProjectRow,
                             i: int, e: EdgeRecord) {
    && IsOutput(fold, patents, row, i, e.source) && ProjectVid(vids, language, row) == Some(e.target)
    && e.rank == i + 1 && ("source_record_id", Str(row.id + ":output_patents:" + Signed(i + 1))) in e.properties
    && ("source_table", Str(if language.Zh? then "dwd_zh_project_output" else "dwd_en_project_output")) in e.properties
  }

  ghost predicate SaysExact(e: EdgeRecord) {
    && e.edgeType == "OUTPUT_OF" && ("confidence", Float(1_000_000)) in e.properties
    && ("match_method", Str("exact_patent_identifier_and_project_id")) in e.properties
  }

  lemma OutputSays(language: Language, row: ProjectRow, sequence: int, patent: string, project: string)
    ensures var e := OutputEdge(language, row, sequence, patent, project);
            && e.Cell() == EdgeKey("OUTPUT_OF", patent, project, sequence)
            && SaysExact(e)
            && ("source_record_id", Str(row.id + ":output_patents:" + Signed(sequence))) in e.properties
            && ("source_table", Str(if language.Zh? then "dwd_zh_project_output" else "dwd_en_project_output")) in e.properties
  {
    hide Signed;
    var ps := OutputEdge(language, row, sequence, patent, project).properties;
    assert ps[0] in ps && ps[1] in ps && ps[2] in ps && ps[3] in ps;
  }

  lemma {:induction false} OutputSource(fold: string -> string, patents: seq<Patent>, vids: Vids, language: Language, row: ProjectRow,
                                        project: string, n: nat, e: EdgeRecord)
    requires n <= |row.outputs| && ProjectVid(vids, language, row) == Some(project)
    requires e in OutputEdges(fold, patents, language, row, project, n)
    ensures SaysExact(e)
    ensures exists i :: FromOutput(fold, patents, vids, language, row, i, e)
  {
    hide OutputPatent, OutputEdge, IsOutput, ProjectVid, Signed, SaysExact;
    if e !in OutputEdges(fold, patents, language, row, project, n - 1) {
      var patent := OutputPatent(fold, patents, row, n - 1).value;
      OutputSays(language, row, n, patent, project);
      OutputPatentIs(fold, patents, row, n - 1, patent);
      assert e.source == e.Cell().source && e.target == e.Cell().target && e.rank == e.Cell().rank;
      assert FromOutput(fold, patents, vids, language, row, n - 1, e);
    } else {
      OutputSource(fold, patents, vids, language, row, project, n - 1, e);
    }
  }

  /** Every output record names the row and the position that it was read from; it starts at the patent
      denoted there and ends at the vertex of that row. */
  lemma {:induction false} OutputsTraced(fold: string -> string, patents: seq<Patent>, vids: Vids, language: Language,
                                         rows: seq<ProjectRow>, e: EdgeRecord)
    requires e in TableEdges(fold, patents, vids, language, rows)
    ensures SaysExact(e)
    ensures exists row, i :: row in rows && FromOutput(fold, patents, vids, language, row, i, e)
  {
    hide FromOutput, OutputEdges, SaysExact;
    var before, row := rows[..|rows| - 1], rows[|rows| - 1];
    assert rows == before + [row];
    if e in TableEdges(fold, patents, vids, language, before) {
      OutputsTraced(fold, patents, vids, language, before, e);
    } else {
      OutputSource(fold, patents, vids, language, row, ProjectVid(vids, language, row).value, |row.outputs|, e);
    }
  }
}
