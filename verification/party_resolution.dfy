/** Resolution of a patent's inventors, applicants and assignees to graph vertices. */
module PartyResolution {
  import opened EdgeRecords
  import opened MapFacts
  import opened NameIndex
  import opened Options
  import opened TextOps

  // ---------------------------------------------------------------------------
  // Source rows
  // ---------------------------------------------------------------------------

  /** An element of a party column; a missing sequence number reads as 0. */
  datatype RawItem = NotAnObject | Item(name: string, sequence: int)

  datatype Party = Party(name: string, sequence: int)

  datatype PatentRow = PatentRow(id: string, patentId: string, inventors: seq<RawItem>,
                                 applicants: seq<RawItem>, assignees: seq<RawItem>)

  /** The usable items, with stripped names. */
  function PartyItems(raw: seq<RawItem>): seq<Party> {
    FlatMap(raw, (item: RawItem) =>
      if item.Item? && Strip(item.name) != "" then [Party(Strip(item.name), item.sequence)] else [])
  }

  datatype Column = Applicants | Assignees
  {
    function EdgeType(): string { if Applicants? then "APPLIED_BY" else "OWNED_BY" }

    function Role(): string { if Applicants? then "applicant" else "assignee" }

    function Name(): string { if Applicants? then "applicants" else "assignees" }

    function IsCurrent(): Option<bool> { if Applicants? then None else Some(true) }

    function Items(row: PatentRow): seq<Party> {
      PartyItems(if Applicants? then row.applicants else row.assignees)
    }
  }

  datatype Reason = SeveralOrganizations | MaybeAPerson | NoMatch | SeveralPeople | NameOnly | NoPerson
                  | OnlyPeople | VectorRejected

  datatype Candidate = Candidate(vid: string, isPerson: bool)

  datatype Review = Review(patentId: string, relation: string, name: string, reason: Reason,
                           confidence: Option<int>, candidates: seq<Candidate>, patentVid: string,
                           sequence: int, role: string, isCurrent: Option<bool>, recordId: string)

  /** The indexes built from the graph, and the names found in projects with this output patent. */
  datatype Context = Context(names: Names, organizations: Index, people: Index, projectNames: Evidence)
  {
    function Organizations(name: string): seq<Entity> { Lookup(organizations, names.normalize(name)) }

    function People(name: string): seq<Entity> { Lookup(people, names.normalize(name)) }

    function Project(patentVid: string): set<string> { EvidenceFor(projectNames, patentVid) }
  }

  function RecordId(row: PatentRow, column: string, sequence: int): string {
    row.id + ":" + column + ":" + Signed(sequence)
  }

  function CandidatesOf(entities: seq<Entity>, isPerson: bool): seq<Candidate> {
    seq(|entities|, i requires 0 <= i < |entities| => Candidate(entities[i].vid, isPerson))
  }

  const AUTOMATIC := [("resolution_status", Str("automatic"))]

  function PartyProperties(sequence: int, role: string, current: Option<bool>, name: string, confidence: int,
                           how: string, evidence: string, recordId: string): Properties {
    [("sequence", Int(sequence)), ("role", Str(role))]
    + (if current.Some? then [("is_current", Bool(current.value))] else [])
    + [("source_name", Str(name)), ("confidence", Float(confidence)), ("subject_type", Str("Organization"))]
    + AUTOMATIC
    + [("match_method", Str(how)), ("match_evidence", Str(evidence)),
       ("source_table", Str("dwd_patent")), ("source_record_id", Str(recordId))]
  }

  // ---------------------------------------------------------------------------
  // Applicants and assignees
  // ---------------------------------------------------------------------------

  /** The organization a party name points to, if it points to exactly one. */
  function Resolution(c: Context, p: Party): Option<Entity> {
    var found := c.Organizations(p.name);
    if |found| == 1 then Some(found[0]) else None
  }

  /** Resolved parties by column and sequence number: a later item overwrites an earlier one. */
  type PartyCache = map<(Column, int), Option<Entity>>

  function CacheCell(c: Context, column: Column): Party -> PartyCache {
    (p: Party) => map[(column, p.sequence) := Resolution(c, p)]
  }

  function ColumnCache(c: Context, column: Column, items: seq<Party>): PartyCache {
    LastWins(items, CacheCell(c, column))
  }

  function Cache(c: Context, row: PatentRow): PartyCache {
    ColumnCache(c, Applicants, Applicants.Items(row)) + ColumnCache(c, Assignees, Assignees.Items(row))
  }

  /** Names of the organizations confirmed by the parties of one column. */
  function Confirmed(c: Context, items: seq<Party>): set<string> {
    set p, name | p in items && Resolution(c, p).Some? && name in c.names.split(p.name) :: name
  }

  function ConfirmedNames(c: Context, row: PatentRow): set<string> {
    Confirmed(c, Applicants.Items(row)) + Confirmed(c, Assignees.Items(row))
  }

  /** The review record of one party, unless it resolves. */
  function PartyReview(c: Context, row: PatentRow, vid: string, column: Column): Party -> seq<Review> {
    (p: Party) =>
      var organizations, people := c.Organizations(p.name), c.People(p.name);
      if |organizations| == 1 then []
      else if |organizations| > 1 then
        [Review(row.patentId, column.EdgeType(), p.name, SeveralOrganizations, None,
                CandidatesOf(organizations, false), vid, p.sequence, column.Role(), column.IsCurrent(),
                RecordId(row, column.Name(), p.sequence))]
      else
        [Review(row.patentId, column.EdgeType(), p.name, if people != [] then MaybeAPerson else NoMatch,
                if |people| == 1 then Some(600_000) else None,
                CandidatesOf(people, true), vid, p.sequence, column.Role(), column.IsCurrent(),
                RecordId(row, column.Name(), p.sequence))]
  }

  /** The edge of one party, decided by what the cache holds under its sequence number. */
  function PartyEdge(cache: PartyCache, row: PatentRow, vid: string, column: Column): Party -> seq<EdgeRecord> {
    (p: Party) =>
      var key := (column, p.sequence);
      if key !in cache || cache[key].None? then []
      else
        [EdgeRecord(column.EdgeType(), vid, cache[key].value.vid, p.sequence,
                    PartyProperties(p.sequence, column.Role(), column.IsCurrent(), p.name, 980_000,
                                    "exact_unique_organization_name",
                                    "机构名称或别名与dev已有Organization精确匹配且候选唯一",
                                    RecordId(row, column.Name(), p.sequence)))]
  }

  // ---------------------------------------------------------------------------
  // Inventors
  // ---------------------------------------------------------------------------

  function PersonOrganizations(n: Names, person: Entity): set<string> {
    set field, name | field in person.affiliations && name in n.split(field) :: name
  }

  /** The person shares an organization with a confirmed applicant or assignee. */
  predicate OrganizationHit(c: Context, confirmed: set<string>, person: Entity) {
    confirmed * PersonOrganizations(c.names, person) != {}
  }

  predicate ProjectHit(c: Context, vid: string, name: string, person: Entity) {
    || c.names.normalize(name) in c.Project(vid)
    || PersonOrganizations(c.names, person) * c.Project(vid) != {}
  }

  function Strong(c: Context, confirmed: set<string>, people: seq<Entity>): seq<Entity> {
    FlatMap(people, (p: Entity) => if OrganizationHit(c, confirmed, p) then [p] else [])
  }

  function InventorProperties(row: PatentRow, p: Party, project: bool): Properties {
    [("sequence", Int(p.sequence)), ("source_name", Str(p.name)),
     ("confidence", Float(if project then 900_000 else 800_000)), ("subject_type", Str("Person"))]
    + AUTOMATIC
    + [("match_method", Str(if project then "exact_name_org_project" else "exact_name_org")),
       ("match_evidence", Str(if project then "姓名和任职机构精确一致，且项目人员/机构信息一致"
                              else "姓名和任职机构精确一致且候选唯一")),
       ("source_table", Str("dwd_patent")),
       ("source_record_id", Str(RecordId(row, "inventors", p.sequence)))]
  }

  function InventorEdge(c: Context, row: PatentRow, vid: string, confirmed: set<string>): Party -> seq<EdgeRecord> {
    (p: Party) =>
      var strong := Strong(c, confirmed, c.People(p.name));
      if |strong| != 1 then []
      else [EdgeRecord("INVENTED_BY", vid, strong[0].vid, p.sequence,
                       InventorProperties(row, p, ProjectHit(c, vid, p.name, strong[0])))]
  }

  function InventorReview(c: Context, row: PatentRow, vid: string, confirmed: set<string>): Party -> seq<Review> {
    (p: Party) =>
      var people := c.People(p.name);
      if |Strong(c, confirmed, people)| == 1 then []
      else
        [Review(row.patentId, "INVENTED_BY", p.name,
                if |people| > 1 then SeveralPeople else if |people| == 1 then NameOnly else NoPerson,
                if |people| == 1 then Some(600_000) else None,
                CandidatesOf(people, true), vid, p.sequence, "inventor", None,
                RecordId(row, "inventors", p.sequence))]
  }

  // ---------------------------------------------------------------------------
  // One patent row
  // ---------------------------------------------------------------------------

  function RowEdges(c: Context, row: PatentRow, vid: string): seq<EdgeRecord> {
    FlatMap(PartyItems(row.inventors), InventorEdge(c, row, vid, ConfirmedNames(c, row)))
    + FlatMap(Applicants.Items(row), PartyEdge(Cache(c, row), row, vid, Applicants))
    + FlatMap(Assignees.Items(row), PartyEdge(Cache(c, row), row, vid, Assignees))
  }

  function RowReviews(c: Context, row: PatentRow, vid: string): seq<Review> {
    FlatMap(Applicants.Items(row), PartyReview(c, row, vid, Applicants))
    + FlatMap(Assignees.Items(row), PartyReview(c, row, vid, Assignees))
    + FlatMap(PartyItems(row.inventors), InventorReview(c, row, vid, ConfirmedNames(c, row)))
  }

  lemma NoneConfirmed(c: Context)
    ensures Confirmed(c, []) == {}
  {
  }

  lemma ConfirmedNext(c: Context, items: seq<Party>)
    requires items != []
    ensures var before, p := items[..|items| - 1], items[|items| - 1];
            Confirmed(c, items) == Confirmed(c, before) + if Resolution(c, p).Some? then c.names.split(p.name) else {}
  {
    assert items == items[..|items| - 1] + [items[|items| - 1]];
  }

  method ResolveColumn(c: Context, row: PatentRow, vid: string, column: Column)
    returns (cache: PartyCache, confirmed: set<string>, reviews: seq<Review>)
    ensures cache == ColumnCache(c, column, column.Items(row))
    ensures confirmed == Confirmed(c, column.Items(row))
    ensures reviews == FlatMap(column.Items(row), PartyReview(c, row, vid, column))
  {
    hide Confirmed, PartyItems, ColumnCache, PartyReview;
    cache, confirmed, reviews := map[], {}, [];
    var items := column.Items(row);
    NoneConfirmed(c);
    NoneCached(c, column);
    assert items[..0] == [];
    for i := 0 to |items|
      invariant cache == ColumnCache(c, column, items[..i])
      invariant confirmed == Confirmed(c, items[..i])
      invariant reviews == FlatMap(items[..i], PartyReview(c, row, vid, column))
    {
      assert items[..i + 1][..i] == items[..i];
      var p := items[i];
      ConfirmedNext(c, items[..i + 1]);
      CachedNext(c, column, items[..i + 1]);
      ResolvedIsNotReviewed(c, row, vid, column, p);
      var organizations := c.Organizations(p.name);
      if |organizations| == 1 {
        cache := cache[(column, p.sequence) := Some(organizations[0])];
        confirmed := confirmed + c.names.split(p.name);
      } else {
        cache := cache[(column, p.sequence) := None];
        reviews := reviews + PartyReview(c, row, vid, column)(p);
      }
    }
    assert items[..|items|] == items;
  }

  lemma NoneCached(c: Context, column: Column)
    ensures ColumnCache(c, column, []) == map[]
  {
  }

  lemma CachedNext(c: Context, column: Column, items: seq<Party>)
    requires items != []
    ensures var before, p := items[..|items| - 1], items[|items| - 1];
            ColumnCache(c, column, items) == ColumnCache(c, column, before)[(column, p.sequence) := Resolution(c, p)]
  {
    var before, p := items[..|items| - 1], items[|items| - 1];
    UnionSingleton(ColumnCache(c, column, before), (column, p.sequence), Resolution(c, p));
  }

  lemma ResolvedIsNotReviewed(c: Context, row: PatentRow, vid: string, column: Column, p: Party)
    ensures |c.Organizations(p.name)| == 1 ==> PartyReview(c, row, vid, column)(p) == []
  {
  }

  method ResolveRow(c: Context, row: PatentRow, vid: string)
    returns (edges: seq<EdgeRecord>, reviews: seq<Review>)
    ensures edges == RowEdges(c, row, vid)
    ensures reviews == RowReviews(c, row, vid)
  {
    hide InventorEdge, InventorReview, PartyEdge, PartyReview, PartyItems, Confirmed, ColumnCache;
    var applicantCache, applicantNames, applicantReviews := ResolveColumn(c, row, vid, Applicants);
    var assigneeCache, assigneeNames, assigneeReviews := ResolveColumn(c, row, vid, Assignees);
    var cache, confirmed := applicantCache + assigneeCache, applicantNames + assigneeNames;
    reviews := applicantReviews + assigneeReviews;
    edges := [];
    var inventors := PartyItems(row.inventors);
    ghost var earlier := reviews;
    for i := 0 to |inventors|
      invariant edges == FlatMap(inventors[..i], InventorEdge(c, row, vid, confirmed))
      invariant reviews == earlier + FlatMap(inventors[..i], InventorReview(c, row, vid, confirmed))
    {
      assert inventors[..i + 1][..i] == inventors[..i];
      edges := edges + InventorEdge(c, row, vid, confirmed)(inventors[i]);
      reviews := reviews + InventorReview(c, row, vid, confirmed)(inventors[i]);
    }
    assert inventors[..|inventors|] == inventors;
    var applicantEdges := ColumnEdges(cache, row, vid, Applicants);
    var assigneeEdges := ColumnEdges(cache, row, vid, Assignees);
    edges := edges + applicantEdges + assigneeEdges;
  }

  method ColumnEdges(cache: PartyCache, row: PatentRow, vid: string, column: Column) returns (edges: seq<EdgeRecord>)
    ensures edges == FlatMap(column.Items(row), PartyEdge(cache, row, vid, column))
  {
    edges := [];
    var items := column.Items(row);
    for i := 0 to |items|
      invariant edges == FlatMap(items[..i], PartyEdge(cache, row, vid, column))
    {
      assert items[..i + 1][..i] == items[..i];
      edges := edges + PartyEdge(cache, row, vid, column)(items[i]);
    }
    assert items[..|items|] == items;
  }

  // ---------------------------------------------------------------------------
  // Accounting: what becomes of each party
  // ---------------------------------------------------------------------------

  ghost predicate DistinctSequences(items: seq<Party>) {
    forall i, j | 0 <= i < j < |items| :: items[i].sequence != items[j].sequence
  }

  /** The cache answers a sequence number with the resolution of its last item. */
  lemma {:induction false} ColumnCacheLast(c: Context, column: Column, items: seq<Party>, i: nat) returns (last: nat)
    requires i < |items|
    ensures i <= last < |items| && items[last].sequence == items[i].sequence
    ensures (column, items[i].sequence) in ColumnCache(c, column, items)
    ensures ColumnCache(c, column, items)[(column, items[i].sequence)] == Resolution(c, items[last])
  {
    var end := |items| - 1;
    if items[end].sequence == items[i].sequence {
      last := end;
    } else {
      last := ColumnCacheLast(c, column, items[..end], i);
    }
  }

  lemma {:induction false} ColumnCacheColumn(c: Context, column: Column, items: seq<Party>)
    ensures forall key | key in ColumnCache(c, column, items) :: key.0 == column
  {
    if items != [] {
      ColumnCacheColumn(c, column, items[..|items| - 1]);
    }
  }

  lemma CacheLast(c: Context, row: PatentRow, column: Column, i: nat) returns (last: nat)
    requires i < |column.Items(row)|
    ensures i <= last < |column.Items(row)| && column.Items(row)[last].sequence == column.Items(row)[i].sequence
    ensures (column, column.Items(row)[i].sequence) in Cache(c, row)
    ensures Cache(c, row)[(column, column.Items(row)[i].sequence)] == Resolution(c, column.Items(row)[last])
  {
    hide PartyItems, Resolution, LastWins;
    ColumnCacheColumn(c, Applicants, Applicants.Items(row));
    ColumnCacheColumn(c, Assignees, Assignees.Items(row));
    last := ColumnCacheLast(c, column, column.Items(row), i);
  }

  /** Every party of the column yields exactly one record: an edge or a review. */
  ghost predicate Accounted(c: Context, row: PatentRow, vid: string, column: Column) {
    forall p | p in column.Items(row) ::
      |PartyReview(c, row, vid, column)(p)| + |PartyEdge(Cache(c, row), row, vid, column)(p)| == 1
  }

  /** Parties that share a sequence number all resolve, or none of them does. */
  ghost predicate SequencesAgree(c: Context, items: seq<Party>) {
    forall p, q | p in items && q in items && p.sequence == q.sequence ::
      Resolution(c, p).Some? == Resolution(c, q).Some?
  }

  lemma PartyOutcome(c: Context, row: PatentRow, vid: string, column: Column, p: Party)
    requires (column, p.sequence) in Cache(c, row)
    ensures var cached := Cache(c, row)[(column, p.sequence)];
            |PartyReview(c, row, vid, column)(p)| + |PartyEdge(Cache(c, row), row, vid, column)(p)|
            == (if Resolution(c, p).Some? then 0 else 1) + if cached.Some? then 1 else 0
  {
  }

  /** Exactly when no party of a column is lost or counted twice. */
  lemma AccountedIff(c: Context, row: PatentRow, vid: string, column: Column)
    ensures Accounted(c, row, vid, column) <==> SequencesAgree(c, column.Items(row))
  {
    hide PartyReview, PartyEdge, Cache, Resolution, PartyItems;
    var items := column.Items(row);
    if Accounted(c, row, vid, column) {
      forall p, q | p in items && q in items && p.sequence == q.sequence
        ensures Resolution(c, p).Some? == Resolution(c, q).Some?
      {
        var i :| 0 <= i < |items| && items[i] == p;
        var last := CacheLast(c, row, column, i);
        PartyOutcome(c, row, vid, column, p);
        PartyOutcome(c, row, vid, column, q);
      }
    } else {
      var p :| p in items &&
        |PartyReview(c, row, vid, column)(p)| + |PartyEdge(Cache(c, row), row, vid, column)(p)| != 1;
      var i :| 0 <= i < |items| && items[i] == p;
      var last := CacheLast(c, row, column, i);
      PartyOutcome(c, row, vid, column, p);
      assert items[last] in items;
    }
  }

  /** With distinct sequence numbers a party gets an edge iff it resolves, and to its own organization. */
  lemma OwnOutcome(c: Context, row: PatentRow, vid: string, column: Column, i: nat)
    requires DistinctSequences(column.Items(row)) && i < |column.Items(row)|
    ensures var p := column.Items(row)[i];
            var edge := PartyEdge(Cache(c, row), row, vid, column)(p);
            var organizations := c.Organizations(p.name);
            && |edge| == (if |organizations| == 1 then 1 else 0)
            && |PartyReview(c, row, vid, column)(p)| == 1 - |edge|
            && (|edge| == 1 ==>
                  edge[0].Cell() == EdgeKey(column.EdgeType(), vid, organizations[0].vid, p.sequence))
  {
    hide PartyItems, LastWins;
    var last := CacheLast(c, row, column, i);
    assert last == i;
  }

  function TargetOf(c: Context, p: Party): Option<string> {
    if Resolution(c, p).Some? then Some(Resolution(c, p).value.vid) else None
  }

  /** Every edge of the column leads to the organization of its own party. */
  ghost predicate OwnTargets(c: Context, row: PatentRow, vid: string, column: Column) {
    forall p | p in column.Items(row) ::
      var edge := PartyEdge(Cache(c, row), row, vid, column)(p); edge != [] ==> TargetOf(c, p) == Some(edge[0].target)
  }

  /** Under every sequence number that the cache resolves, all parties point to one organization. */
  ghost predicate TargetsAgree(c: Context, row: PatentRow, column: Column) {
    forall p, q | p in column.Items(row) && q in column.Items(row) && p.sequence == q.sequence
        && (column, p.sequence) in Cache(c, row) && Cache(c, row)[(column, p.sequence)].Some? ::
      TargetOf(c, p) == TargetOf(c, q)
  }

  lemma PartyTarget(c: Context, row: PatentRow, vid: string, column: Column, p: Party)
    requires (column, p.sequence) in Cache(c, row)
    ensures var cached := Cache(c, row)[(column, p.sequence)];
            var edge := PartyEdge(Cache(c, row), row, vid, column)(p);
            (edge != [] <==> cached.Some?) && (cached.Some? ==> edge[0].target == cached.value.vid)
  {
    hide Cache, PartyProperties;
  }

  /** Exactly when every edge of a column leads to its own party's organization. */
  lemma OwnTargetsIff(c: Context, row: PatentRow, vid: string, column: Column)
    ensures OwnTargets(c, row, vid, column) <==> TargetsAgree(c, row, column)
  {
    hide Cache, PartyItems, PartyEdge, Resolution, TargetOf;
    var items, cache := column.Items(row), Cache(c, row);
    forall p | p in items
      ensures (column, p.sequence) in cache
      ensures exists q | q in items :: q.sequence == p.sequence && cache[(column, p.sequence)] == Resolution(c, q)
    {
      var i :| 0 <= i < |items| && items[i] == p;
      var last := CacheLast(c, row, column, i);
      assert items[last] in items;
    }
    forall p | p in items
      ensures var cached := cache[(column, p.sequence)];
              var edge := PartyEdge(cache, row, vid, column)(p);
              (edge != [] <==> cached.Some?) && (cached.Some? ==> edge[0].target == cached.value.vid)
    {
      PartyTarget(c, row, vid, column, p);
    }
    forall q | q in items
      ensures Resolution(c, q).Some? ==> TargetOf(c, q) == Some(Resolution(c, q).value.vid)
    {
      ResolvedTarget(c, q);
    }
  }

  lemma ResolvedTarget(c: Context, p: Party)
    ensures Resolution(c, p).Some? ==> TargetOf(c, p) == Some(Resolution(c, p).value.vid)
  {
    hide Resolution;
  }

  /** Two items without a sequence number, of which only the first resolves: it ends in neither list. */
  lemma MissingSequencesLoseAParty(c: Context, row: PatentRow, vid: string, known: string, unknown: string)
    requires |c.Organizations(known)| == 1 && |c.Organizations(unknown)| == 0
    requires Applicants.Items(row) == [Party(known, 0), Party(unknown, 0)]
    ensures PartyReview(c, row, vid, Applicants)(Party(known, 0)) == []
    ensures PartyEdge(Cache(c, row), row, vid, Applicants)(Party(known, 0)) == []
  {
    hide PartyItems, LastWins;
    var last := CacheLast(c, row, Applicants, 1);
    assert last == 1;
  }

  /** Two items without a sequence number that resolve to different organizations: the first one's edge
      leads to the second one's organization. */
  lemma MissingSequencesMisleadAnEdge(c: Context, row: PatentRow, vid: string, first: string, second: string)
    requires |c.Organizations(first)| == 1 && |c.Organizations(second)| == 1
    requires c.Organizations(first)[0].vid != c.Organizations(second)[0].vid
    requires Applicants.Items(row) == [Party(first, 0), Party(second, 0)]
    ensures var edge := PartyEdge(Cache(c, row), row, vid, Applicants)(Party(first, 0));
            edge != [] && edge[0].target == c.Organizations(second)[0].vid != c.Organizations(first)[0].vid
  {
    hide PartyItems, LastWins, PartyProperties;
    var last := CacheLast(c, row, Applicants, 0);
    var other := CacheLast(c, row, Applicants, 1);
    PartyTarget(c, row, vid, Applicants, Party(first, 0));
  }

  lemma {:induction false} FlatMapPartition<A, B, C>(items: seq<A>, f: A -> seq<B>, g: A -> seq<C>)
    requires forall x | x in items :: |f(x)| + |g(x)| == 1
    ensures |FlatMap(items, f)| + |FlatMap(items, g)| == |items|
  {
    if items != [] {
      FlatMapPartition(items[..|items| - 1], f, g);
    }
  }

  /** A row whose sequence numbers agree turns each of its parties into one edge or one review. */
  lemma RowAccounting(c: Context, row: PatentRow, vid: string)
    requires SequencesAgree(c, Applicants.Items(row)) && SequencesAgree(c, Assignees.Items(row))
    ensures |RowEdges(c, row, vid)| + |RowReviews(c, row, vid)|
         == |PartyItems(row.inventors)| + |Applicants.Items(row)| + |Assignees.Items(row)|
  {
    hide PartyItems, Cache, PartyReview, PartyEdge;
    AccountedIff(c, row, vid, Applicants);
    AccountedIff(c, row, vid, Assignees);
    FlatMapPartition(Applicants.Items(row), PartyReview(c, row, vid, Applicants), PartyEdge(Cache(c, row), row, vid, Applicants));
    FlatMapPartition(Assignees.Items(row), PartyReview(c, row, vid, Assignees), PartyEdge(Cache(c, row), row, vid, Assignees));
    var confirmed := ConfirmedNames(c, row);
    FlatMapPartition(PartyItems(row.inventors), InventorEdge(c, row, vid, confirmed), InventorReview(c, row, vid, confirmed));
  }

  // ---------------------------------------------------------------------------
  // When an inventor is identified
  // ---------------------------------------------------------------------------

  /** Position `i` holds the only person with an organization hit. */
  ghost predicate OnlyHit(c: Context, confirmed: set<string>, people: seq<Entity>, i: int) {
    && 0 <= i < |people| && OrganizationHit(c, confirmed, people[i])
    && forall j | 0 <= j < |people| && OrganizationHit(c, confirmed, people[j]) :: j == i
  }

  ghost predicate SomeOnlyHit(c: Context, confirmed: set<string>, people: seq<Entity>) {
    exists i :: OnlyHit(c, confirmed, people, i)
  }

  lemma {:induction false} StrongHits(c: Context, confirmed: set<string>, people: seq<Entity>)
    ensures |Strong(c, confirmed, people)| == 1 <==> SomeOnlyHit(c, confirmed, people)
    ensures forall i | OnlyHit(c, confirmed, people, i) :: Strong(c, confirmed, people) == [people[i]]
    ensures Strong(c, confirmed, people) == [] <==>
              forall i | 0 <= i < |people| :: !OrganizationHit(c, confirmed, people[i])
  {
    if people != [] {
      var before, last := people[..|people| - 1], |people| - 1;
      StrongHits(c, confirmed, before);
      if OrganizationHit(c, confirmed, people[last]) {
        if Strong(c, confirmed, before) == [] {
          assert OnlyHit(c, confirmed, people, last);
        } else {
          var i :| 0 <= i < |before| && OrganizationHit(c, confirmed, before[i]);
          assert people[i] == before[i];
        }
      } else {
        assert forall i :: OnlyHit(c, confirmed, people, i) <==> OnlyHit(c, confirmed, before, i);
      }
    }
  }

  /** What is yielded for an inventor whose namesakes among the catalogue persons are `people`. */
  lemma InventorYield(c: Context, row: PatentRow, vid: string, confirmed: set<string>, p: Party)
    ensures var strong := Strong(c, confirmed, c.People(p.name));
            var edge := InventorEdge(c, row, vid, confirmed)(p);
            && |edge| == (if |strong| == 1 then 1 else 0)
            && |edge| + |InventorReview(c, row, vid, confirmed)(p)| == 1
            && (|strong| == 1 ==> edge[0].Cell() == EdgeKey("INVENTED_BY", vid, strong[0].vid, p.sequence))
  {
    hide Strong, InventorProperties, ProjectHit;
  }

  lemma InventorOutcome(c: Context, row: PatentRow, vid: string, people: seq<Entity>, confirmed: set<string>, p: Party)
    requires people == c.People(p.name)
    ensures var edge := InventorEdge(c, row, vid, confirmed)(p);
            && |edge| + |InventorReview(c, row, vid, confirmed)(p)| == 1
            && (|edge| == 1 <==> SomeOnlyHit(c, confirmed, people))
            && forall i | OnlyHit(c, confirmed, people, i) ::
                 edge[0].Cell() == EdgeKey("INVENTED_BY", vid, people[i].vid, p.sequence)
  {
    hide Strong, InventorEdge, InventorReview, OrganizationHit;
    StrongHits(c, confirmed, people);
    InventorYield(c, row, vid, confirmed, p);
    forall i | OnlyHit(c, confirmed, people, i)
      ensures InventorEdge(c, row, vid, confirmed)(p)[0].Cell() == EdgeKey("INVENTED_BY", vid, people[i].vid, p.sequence)
    {
      assert Strong(c, confirmed, people) == [people[i]];
    }
  }

  /** An inventor gets an edge iff exactly one catalogue person of that name shares an organization
      confirmed by this patent's applicants and assignees; the edge then leads to that person. */
  lemma InventorIdentified(c: Context, catalogue: seq<Entity>, row: PatentRow, vid: string, p: Party)
    requires Indexes(c.names, catalogue, c.people)
    ensures var people := Bearing(c.names, catalogue, c.names.normalize(p.name));
            var confirmed := ConfirmedNames(c, row);
            var edge := InventorEdge(c, row, vid, confirmed)(p);
            && |edge| + |InventorReview(c, row, vid, confirmed)(p)| == 1
            && (|edge| == 1 <==> SomeOnlyHit(c, confirmed, people))
            && forall i | OnlyHit(c, confirmed, people, i) ::
                 edge[0].Cell() == EdgeKey("INVENTED_BY", vid, people[i].vid, p.sequence)
  {
    hide ConfirmedNames, InventorEdge, InventorReview, OnlyHit, SomeOnlyHit, EntityKeys;
    assert c.People(p.name) == Bearing(c.names, catalogue, c.names.normalize(p.name));
    InventorOutcome(c, row, vid, c.People(p.name), ConfirmedNames(c, row), p);
  }

  /** A name is confirmed by a party that points to exactly one catalogue organization. */
  lemma ConfirmedBy(c: Context, catalogue: seq<Entity>, row: PatentRow, name: string)
    requires Indexes(c.names, catalogue, c.organizations)
    ensures name in ConfirmedNames(c, row) <==>
              exists p | p in Applicants.Items(row) + Assignees.Items(row) ::
                |Bearing(c.names, catalogue, c.names.normalize(p.name))| == 1 && name in c.names.split(p.name)
  {
    hide PartyItems;
    var items := Applicants.Items(row) + Assignees.Items(row);
    if name in ConfirmedNames(c, row) {
      var p :| (p in Applicants.Items(row) || p in Assignees.Items(row)) && Resolution(c, p).Some? && name in c.names.split(p.name);
      assert p in items;
      assert |Lookup(c.organizations, c.names.normalize(p.name))| == 1;
    }
    if p :| p in items && |Bearing(c.names, catalogue, c.names.normalize(p.name))| == 1 && name in c.names.split(p.name) {
      assert Resolution(c, p).Some?;
      assert p in Applicants.Items(row) || p in Assignees.Items(row);
    }
  }

  // ---------------------------------------------------------------------------
  // What is written of a party and of an inventor
  // ---------------------------------------------------------------------------

  /** The parties of a column are its objects with a name, by their stripped names and sequence numbers. */
  lemma ItemsIff(raw: seq<RawItem>, p: Party)
    ensures p in PartyItems(raw) <==>
              exists item | item in raw :: item.Item? && Strip(item.name) != "" && p == Party(Strip(item.name), item.sequence)
  {
    hide Strip, FlatMap;
    var f := (item: RawItem) =>
      if item.Item? && Strip(item.name) != "" then [Party(Strip(item.name), item.sequence)] else [];
    if p in PartyItems(raw) {
      var item := FlatMapSource(raw, f, p);
    }
    if item :| item in raw && item.Item? && Strip(item.name) != "" && p == Party(Strip(item.name), item.sequence) {
      FlatMapHas(raw, f, item, p);
    }
  }

  /** The property list of a party edge names the source item and how it was matched. */
  ghost predicate TellsParty(properties: Properties, row: PatentRow, applicants: bool, p: Party, confidence: int, how: string) {
    && ("sequence", Int(p.sequence)) in properties && ("source_name", Str(p.name)) in properties
    && ("role", Str(if applicants then "applicant" else "assignee")) in properties
    && CurrentIs(properties, if applicants then None else Some(true)) && ("resolution_status", Str("automatic")) in properties
    && ("subject_type", Str("Organization")) in properties && ("confidence", Float(confidence)) in properties
    && ("match_method", Str(how)) in properties && ("source_table", Str("dwd_patent")) in properties
    && ("source_record_id", Str(row.id + (if applicants then ":applicants:" else ":assignees:") + Signed(p.sequence))) in properties
  }

  /** The properties by position; `i` is that of the name. */
  lemma PropertiesAt(sequence: int, role: string, current: Option<bool>, name: string, confidence: int,
                     how: string, evidence: string, recordId: string)
    ensures var ps := PartyProperties(sequence, role, current, name, confidence, how, evidence, recordId);
            var i := if current.None? then 2 else 3;
            && |ps| == i + 8 && ps[0] == ("sequence", Int(sequence)) && ps[1] == ("role", Str(role))
            && (current.Some? ==> ps[2] == ("is_current", Bool(current.value)))
            && ps[i] == ("source_name", Str(name)) && ps[i + 1] == ("confidence", Float(confidence))
            && ps[i + 2] == ("subject_type", Str("Organization")) && ps[i + 3] == ("resolution_status", Str("automatic"))
            && ps[i + 4] == ("match_method", Str(how)) && ps[i + 5] == ("match_evidence", Str(evidence))
            && ps[i + 6] == ("source_table", Str("dwd_patent")) && ps[i + 7] == ("source_record_id", Str(recordId))
  {
  }

  lemma PropertiesHave(sequence: int, role: string, current: Option<bool>, name: string, confidence: int,
                       how: string, evidence: string, recordId: string)
    ensures var ps := PartyProperties(sequence, role, current, name, confidence, how, evidence, recordId);
            && ("sequence", Int(sequence)) in ps && ("role", Str(role)) in ps && ("source_name", Str(name)) in ps
            && ("confidence", Float(confidence)) in ps && ("subject_type", Str("Organization")) in ps
            && ("resolution_status", Str("automatic")) in ps && ("match_method", Str(how)) in ps
            && ("match_evidence", Str(evidence)) in ps && ("source_table", Str("dwd_patent")) in ps
            && ("source_record_id", Str(recordId)) in ps && CurrentIs(ps, current)
  {
    hide PartyProperties, CurrentIs;
    PropertiesAt(sequence, role, current, name, confidence, how, evidence, recordId);
    CurrentAt(sequence, role, current, name, confidence, how, evidence, recordId);
  }

  lemma CurrentAt(sequence: int, role: string, current: Option<bool>, name: string, confidence: int,
                  how: string, evidence: string, recordId: string)
    ensures CurrentIs(PartyProperties(sequence, role, current, name, confidence, how, evidence, recordId), current)
  {
    hide PartyProperties;
    var ps := PartyProperties(sequence, role, current, name, confidence, how, evidence, recordId);
    PropertiesAt(sequence, role, current, name, confidence, how, evidence, recordId);
    assert forall k | 0 <= k < |ps| && k != 2 :: ps[k].0 != "is_current";
  }

  /** The property is there exactly with this value, or not at all. */
  ghost predicate CurrentIs(properties: Properties, current: Option<bool>) {
    forall b :: ("is_current", Bool(b)) in properties <==> current == Some(b)
  }

  lemma PropertiesTell(row: PatentRow, column: Column, p: Party, confidence: int, how: string, evidence: string)
    ensures TellsParty(PartyProperties(p.sequence, column.Role(), column.IsCurrent(), p.name, confidence, how, evidence,
                                       RecordId(row, column.Name(), p.sequence)),
                       row, column.Applicants?, p, confidence, how)
  {
    hide Signed, PartyProperties;
    assert row.id + ":" + column.Name() + ":" == row.id + if column.Applicants? then ":applicants:" else ":assignees:";
    PropertiesHave(p.sequence, column.Role(), column.IsCurrent(), p.name, confidence, how, evidence,
                   RecordId(row, column.Name(), p.sequence));
  }

  /** An edge of a party starts at its patent, has the party's number as rank, and tells where it is from. */
  lemma PartyTraced(c: Context, row: PatentRow, vid: string, column: Column, p: Party, e: EdgeRecord)
    requires e in PartyEdge(Cache(c, row), row, vid, column)(p)
    ensures e.edgeType == (if column.Applicants? then "APPLIED_BY" else "OWNED_BY") && e.source == vid && e.rank == p.sequence
    ensures TellsParty(e.properties, row, column.Applicants?, p, 980_000, "exact_unique_organization_name")
  {
    hide Cache, PartyProperties, TellsParty;
    PropertiesTell(row, column, p, 980_000, "exact_unique_organization_name", "机构名称或别名与dev已有Organization精确匹配且候选唯一");
  }

  /** A project of the patent vouches for the inventor's name or for an organization of the person. */
  ghost predicate Confirmable(c: Context, vid: string, name: string, person: Entity) {
    || c.names.normalize(name) in c.Project(vid)
    || exists field, part :: field in person.affiliations && part in c.names.split(field) && part in c.Project(vid)
  }

  /** An inventor edge has confidence 0.9 if a project confirms it and 0.8 if not. */
  lemma InventorTraced(c: Context, row: PatentRow, vid: string, confirmed: set<string>, p: Party, e: EdgeRecord, person: Entity)
    requires Strong(c, confirmed, c.People(p.name)) == [person] && e in InventorEdge(c, row, vid, confirmed)(p)
    ensures e.Cell() == EdgeKey("INVENTED_BY", vid, person.vid, p.sequence)
    ensures ("source_name", Str(p.name)) in e.properties && ("subject_type", Str("Person")) in e.properties
    ensures ("source_record_id", Str(row.id + ":inventors:" + Signed(p.sequence))) in e.properties
    ensures var how := if Confirmable(c, vid, p.name, person) then "exact_name_org_project" else "exact_name_org";
            ("match_method", Str(how)) in e.properties
    ensures (("confidence", Float(900_000)) in e.properties <==> Confirmable(c, vid, p.name, person))
    ensures (("confidence", Float(800_000)) in e.properties <==> !Confirmable(c, vid, p.name, person))
  {
    hide Signed, Strong, InventorProperties, Confirmable, ProjectHit;
    var project := ProjectHit(c, vid, p.name, person);
    ProjectHitIff(c, vid, p.name, person);
    InventorTells(row, p, project);
    if ("confidence", Float(if project then 800_000 else 900_000)) in e.properties {
      InventorConfidenceIs(row, p, project, if project then 800_000 else 900_000);
    }
  }

  lemma ProjectHitIff(c: Context, vid: string, name: string, person: Entity)
    ensures ProjectHit(c, vid, name, person) <==> Confirmable(c, vid, name, person)
  {
    if field, part :| field in person.affiliations && part in c.names.split(field) && part in c.Project(vid) {
      assert part in PersonOrganizations(c.names, person) * c.Project(vid);
    }
    if part :| part in PersonOrganizations(c.names, person) * c.Project(vid) {
      var field :| field in person.affiliations && part in c.names.split(field);
    }
  }

  lemma InventorAt(row: PatentRow, p: Party, project: bool)
    ensures var ps := InventorProperties(row, p, project);
            && |ps| == 9 && ps[1] == ("source_name", Str(p.name)) && ps[3] == ("subject_type", Str("Person"))
            && ps[8] == ("source_record_id", Str(RecordId(row, "inventors", p.sequence)))
            && ps[5] == ("match_method", Str(if project then "exact_name_org_project" else "exact_name_org"))
            && ps[2] == ("confidence", Float(if project then 900_000 else 800_000))
  {
    hide RecordId;
  }

  lemma InventorTells(row: PatentRow, p: Party, project: bool)
    ensures var ps := InventorProperties(row, p, project);
            && ("source_name", Str(p.name)) in ps && ("subject_type", Str("Person")) in ps
            && ("source_record_id", Str(row.id + ":inventors:" + Signed(p.sequence))) in ps
            && ("match_method", Str(if project then "exact_name_org_project" else "exact_name_org")) in ps
            && ("confidence", Float(if project then 900_000 else 800_000)) in ps
  {
    hide Signed, InventorProperties;
    InventorAt(row, p, project);
    assert row.id + ":" + "inventors" + ":" == row.id + ":inventors:";
  }

  lemma InventorConfidenceIs(row: PatentRow, p: Party, project: bool, confidence: int)
    requires ("confidence", Float(confidence)) in InventorProperties(row, p, project)
    ensures confidence == if project then 900_000 else 800_000
  {
    hide Signed, RecordId;
  }

  /** A hit is a part of one of the person's organization fields that a confirmed party also has. */
  lemma OrganizationHitIff(c: Context, confirmed: set<string>, person: Entity)
    ensures OrganizationHit(c, confirmed, person) <==>
              exists field, part :: field in person.affiliations && part in c.names.split(field) && part in confirmed
  {
    if field, part :| field in person.affiliations && part in c.names.split(field) && part in confirmed {
      assert part in confirmed * PersonOrganizations(c.names, person);
    }
    if part :| part in confirmed * PersonOrganizations(c.names, person) {
      var field :| field in person.affiliations && part in c.names.split(field);
    }
  }

  // ---------------------------------------------------------------------------
  // What a review says
  // ---------------------------------------------------------------------------

  /** The candidates are these entities, in order. */
  ghost predicate Offers(r: Review, entities: seq<Entity>, isPerson: bool) {
    && |r.candidates| == |entities|
    && forall i | 0 <= i < |entities| :: r.candidates[i].vid == entities[i].vid && r.candidates[i].isPerson == isPerson
  }

  /** A party that does not resolve is reviewed for the organizations it could be, if there are several, or
      else for the people; with one person the confidence is 0.6. */
  lemma PartyReviewed(c: Context, row: PatentRow, vid: string, column: Column, p: Party, r: Review)
    requires r in PartyReview(c, row, vid, column)(p)
    ensures var organizations, people := c.Organizations(p.name), c.People(p.name);
            && |organizations| != 1 && Offers(r, if organizations != [] then organizations else people, organizations == [])
            && r.reason == (if organizations != [] then SeveralOrganizations else if people != [] then MaybeAPerson else NoMatch)
            && r.confidence == (if organizations == [] && |people| == 1 then Some(600_000) else None)
    ensures r.relation == (if column.Applicants? then "APPLIED_BY" else "OWNED_BY") && r.name == p.name
    ensures r.patentId == row.patentId && r.patentVid == vid && r.sequence == p.sequence
    ensures r.role == (if column.Applicants? then "applicant" else "assignee")
    ensures r.isCurrent == (if column.Applicants? then None else Some(true))
    ensures r.recordId == row.id + (if column.Applicants? then ":applicants:" else ":assignees:") + Signed(p.sequence)
  {
    hide Signed, Lookup;
    assert row.id + ":" + column.Name() + ":" == row.id + if column.Applicants? then ":applicants:" else ":assignees:";
  }

  /** An inventor without a unique strong candidate is reviewed for all people of the name. */
  lemma InventorReviewed(c: Context, row: PatentRow, vid: string, confirmed: set<string>, p: Party, r: Review)
    requires r in InventorReview(c, row, vid, confirmed)(p)
    ensures var people := c.People(p.name);
            && Offers(r, people, true)
            && r.reason == (if people == [] then NoPerson else if |people| == 1 then NameOnly else SeveralPeople)
            && r.confidence == (if |people| == 1 then Some(600_000) else None)
    ensures r.relation == "INVENTED_BY" && r.name == p.name && r.patentId == row.patentId && r.patentVid == vid
    ensures r.sequence == p.sequence && r.role == "inventor" && r.isCurrent == None
    ensures r.recordId == row.id + ":inventors:" + Signed(p.sequence)
  {
    hide Signed, Lookup, Strong;
    assert row.id + ":" + "inventors" + ":" == row.id + ":inventors:";
  }

  // ---------------------------------------------------------------------------
  // The keys of the party and inventor edges of a row
  // ---------------------------------------------------------------------------

  /** Item `i` is the last one of its number, and its name points to exactly one organization, `o`. */
  ghost predicate Decides(c: Context, items: seq<Party>, i: int, rank: int, o: string) {
    && 0 <= i < |items| && items[i].sequence == rank && (forall j | i < j < |items| :: items[j].sequence != rank)
    && exists e :: c.Organizations(items[i].name) == [e] && e.vid == o
  }

  lemma CachedIff(c: Context, row: PatentRow, column: Column, p: Party, o: string)
    requires p in column.Items(row)
    ensures var key := (column, p.sequence);
            (key in Cache(c, row) && Cache(c, row)[key].Some? && Cache(c, row)[key].value.vid == o)
            <==> exists i :: Decides(c, column.Items(row), i, p.sequence, o)
  {
    hide PartyItems, Cache;
    var items := column.Items(row);
    var at :| 0 <= at < |items| && items[at] == p;
    var last := LastCached(c, row, column, at);
    var found := c.Organizations(items[last].name);
    if |found| == 1 {
      assert found == [found[0]];
    }
    assert Decides(c, items, last, p.sequence, o) <==> (|found| == 1 && found[0].vid == o);
    if i :| Decides(c, items, i, p.sequence, o) {
      assert i == last;
    }
  }

  /** The last item that shares the number of item `at` is the one that the cache answers with. */
  lemma LastCached(c: Context, row: PatentRow, column: Column, at: nat) returns (last: nat)
    requires at < |column.Items(row)|
    ensures var items := column.Items(row);
            && last < |items| && items[last].sequence == items[at].sequence
            && (forall j | last < j < |items| :: items[j].sequence != items[at].sequence)
            && (column, items[at].sequence) in Cache(c, row)
            && Cache(c, row)[(column, items[at].sequence)] == Resolution(c, items[last])
  {
    hide PartyItems, Cache, Resolution;
    var items := column.Items(row);
    last := at;
    while exists j :: last < j < |items| && items[j].sequence == items[at].sequence
      invariant last < |items| && items[last].sequence == items[at].sequence
      decreases |items| - last
    {
      var j :| last < j < |items| && items[j].sequence == items[at].sequence;
      last := j;
    }
    var answer := CacheLast(c, row, column, last);
  }

  /** A column yields the edge from the patent to `o` at a rank iff the last item of that number decides it. */
  lemma PartyKeyIff(c: Context, row: PatentRow, vid: string, column: Column, k: EdgeKey)
    requires k.edgeType == column.EdgeType()
    ensures k in KeySet(FlatMap(column.Items(row), PartyEdge(Cache(c, row), row, vid, column))) <==>
              k.source == vid && exists i :: Decides(c, column.Items(row), i, k.rank, k.target)
  {
    hide PartyItems, Cache, PartyProperties, FlatMap, Decides;
    var items, f := column.Items(row), PartyEdge(Cache(c, row), row, vid, column);
    var edges := FlatMap(items, f);
    if k in KeySet(edges) {
      var e :| e in edges && e.Key() == k;
      var p := FlatMapSource(items, f, e);
      assert p.sequence == k.rank;
      CachedIff(c, row, column, p, k.target);
    }
    if k.source == vid && exists i :: Decides(c, items, i, k.rank, k.target) {
      var i :| Decides(c, items, i, k.rank, k.target);
      DecidesAt(c, items, i, k.rank, k.target);
      CachedIff(c, row, column, items[i], k.target);
      var e := f(items[i])[0];
      assert e in f(items[i]);
      FlatMapHas(items, f, items[i], e);
      assert e.Key() == k;
    }
  }

  lemma DecidesAt(c: Context, items: seq<Party>, i: int, rank: int, o: string)
    requires Decides(c, items, i, rank, o)
    ensures 0 <= i < |items| && items[i] in items && items[i].sequence == rank
  {
  }

  /** The row has an inventor of this number of whose namesakes only `person` is strong. */
  ghost predicate Identifies(c: Context, row: PatentRow, rank: int, person: string) {
    exists p, i | p in PartyItems(row.inventors) && OnlyHit(c, ConfirmedNames(c, row), c.People(p.name), i) ::
      p.sequence == rank && c.People(p.name)[i].vid == person
  }

  /** An inventor yields the edge to `person` iff that is the only strong candidate. */
  lemma InventorKeyIff(c: Context, row: PatentRow, vid: string, k: EdgeKey)
    requires k.edgeType == "INVENTED_BY"
    ensures k in KeySet(FlatMap(PartyItems(row.inventors), InventorEdge(c, row, vid, ConfirmedNames(c, row)))) <==>
              k.source == vid && Identifies(c, row, k.rank, k.target)
  {
    hide PartyItems, ConfirmedNames, FlatMap, InventorEdge, InventorReview;
    var confirmed, items := ConfirmedNames(c, row), PartyItems(row.inventors);
    var f := InventorEdge(c, row, vid, confirmed);
    var edges := FlatMap(items, f);
    if k in KeySet(edges) {
      var e :| e in edges && e.Key() == k;
      var p := FlatMapSource(items, f, e);
      InventorOutcome(c, row, vid, c.People(p.name), confirmed, p);
      var i :| OnlyHit(c, confirmed, c.People(p.name), i);
      OnlyHitAt(c, confirmed, c.People(p.name), i);
      assert e == f(p)[0] && e.Cell() == k;
    }
    if k.source == vid && Identifies(c, row, k.rank, k.target) {
      var p, i :| p in items && OnlyHit(c, confirmed, c.People(p.name), i) && p.sequence == k.rank
                  && c.People(p.name)[i].vid == k.target;
      InventorOutcome(c, row, vid, c.People(p.name), confirmed, p);
      var e := f(p)[0];
      assert e in f(p);
      FlatMapHas(items, f, p, e);
      assert e.Cell() == k && e.Key() == k;
    }
  }

  lemma OnlyHitAt(c: Context, confirmed: set<string>, people: seq<Entity>, i: int)
    requires OnlyHit(c, confirmed, people, i)
    ensures 0 <= i < |people| && SomeOnlyHit(c, confirmed, people)
  {
  }
}
