# Verified model of the graph ETL core

This project models, in Dafny, how the backend's loaders resolve, deduplicate, write, resume and delete
records in a property graph, and proves what those loaders promise. The graph is an abstract store: vertices
carry tags, edges are keyed by type, source, target and rank, an INSERT is an upsert, a DELETE names exact keys.
Every write may be rejected. Where the service could have applied part of a rejected statement before failing,
the model lets it apply any part.

One module per component:

- `PatentEntityWriter`: the patent entity loader. A batch is five statements; a rejection restarts both halves.
  The main result is confluence: after a normal return the graph does not depend on what was rejected.
  `PatentEntityContents` says of the source rows what a returning load leaves in the graph.
- `NameIndex`, `PartyResolution`, `Citations`, `ProjectOutputs`, `RelationAnalysis`: the analysis half of the
  patent relation loader, from catalogues and source rows to edges and review records.
- `VectorPromotion`: promotion of review records, which it updates in place, to edges.
- `EdgeRecords`, `RelationWriter`, `NgqlText`, `PatentRelationLoad`: deduplication, bisecting batches, exact
  replacement of earlier edges, the printed statements, and the load as a whole.
- `StubCleanup`: planning and executing the removal of stub organizations. Every prefix of a run is safe, and
  cleaning up converges.
- `IncrementalLoad`: watermark-driven loads over whole histories with crashes, source changes at any moment,
  failing DESCRIBE queries and clashing ids.
- `IndexBuild`: the resumable, limited build of the patent vector index, which may stop anywhere.
- `PairRelations`: aggregation of person pairs from patents and projects.
- `TtlStore`: the in-memory JSON store with lazy expiry.
- `ColleagueUpsert`: symmetric upsert of colleague edges, and paging through a subgraph.
- `ProjectPaging`: paging through two project tables, by prefix or by exact id.
- `AffiliationLoad`: memoised organization lookup without dangling edges.
- `Dicts`, `MapFacts`, `Options`, `Paging`, `TextOps`: shared vocabulary.

Text functions of other libraries (NFKC, case folding, lower-casing, MD5, name splitting, the synthetic-row
filter, the vector matcher, corpus statistics) are parameters; a theorem that needs a property of one states it.

## Where the code and its promises part

Each of these is a theorem about the code as it is, with the exact condition under which the promise holds.

- Rejections can change a `source_record_id`. When one batch holds two paddings of one patent id
  (`"A"`, `" A"`; the deduplication at backend/script/load_patent_graph.py:382 compares unstripped ids), the record
  that a keyword edge keeps can depend on which statement was rejected: `PaddedDuplicateDiverges`. The graph is
  independent of rejections iff the record ids agree along the halves: `ConfluentIff`; for a whole load, iff each
  edge's do within the last page that writes it: `LoadConfluentIff`. Stripped ids that are distinct are enough:
  `DistinctIsConfluent`, `DistinctLoad`.
- A missing sequence number reads as 0, and the cache of resolved parties is keyed by it. Two such items of which
  only the first resolves leave that one with neither an edge nor a review: `MissingSequencesLoseAParty`. No party
  of a column is lost or doubled iff items that share a number all resolve or none does: `AccountedIff`. Every edge
  leads to its own party's organization iff items under a resolved number all point to one: `OwnTargetsIff`,
  `MissingSequencesMisleadAnEdge`.
- "The watermark never passes a row that is not in the graph" fails on several inputs. A failing DESCRIBE is
  swallowed and every row is then written without properties (`FailedDescribeLosesARow`); two paddings of one
  scholar id share a vertex (`PaddedIdsLoseARow`); a row that changes while a run is writing, stamped at or below
  what the run has read, is claimed without having been loaded (`MidRunChangeLosesARow`), as is a change in the
  watermark's own second (`SameSecondChangeIsMissed`) and a row that a `limit` or `scholar_id` cuts off
  (`LimitedRunLosesARow`). The exact condition over all histories, with any rows read, any changes and any ids, is
  `NoLostRowIff`: the claim holds at every moment and every possible stop iff every run begun was `RunSafe` and
  every change made was `ChangeSafe`. `SafeRunIff` says when an unfiltered run is: iff DESCRIBE listed fields (or
  nothing was to be written) and no two active rows of one vertex differ. `IdleChangeIff` and `MidRunChangeIff` say
  when a change is, `FilteredRunSafeIff` when a filtered run is for every graph.
- The page queries of the scholar loader order rows by scholar id only. Where two different rows share one, each
  query may order them its own way, and a row can be read twice while another is never read (`RivalIsNeverRead`).
  The rows are read in one order, whatever the service does, iff no row to be read has such a rival: `ReadOrderIff`.
- The key-set paging of the patent loader starts above id 0 and continues above the greatest numeric id of a page,
  and two rows may share one ("7" and "07"). It reads the whole table iff no row has id 0 and no page ends between
  two rows of one id: `FetchedAllIff`, `ZeroIdLosesARow`, `TieLosesARow`.
- The vector index can end up with rows encoded with other corpus statistics than the saved ones, and a later resume
  accepts that: a rebuild over another corpus that stops after saving the statistics and before dropping the old
  rows, because the model does not load or the drop fails (`FailedRebuildMixesEncodings`). A write of the statistics
  that is cut short leaves rows without statistics until a rebuild (`TornStatisticsLast`). Rows and statistics stay
  consistent over a history iff no run stops in one of these two ways over an index that has rows, and a rebuild
  that gets past the old rows makes them consistent again: `ConsistentIff`, `HistoryConsistentIff`,
  `ReachedConsistentIff`.
- The stub cleanup says that it never deletes shared nodes or edges without organization provenance
  (backend/script/cleanup_organization_virtual_graph.py:3-5). That holds for edges (`PrefixIsSafe`). A vertex is
  deleted iff it is a stub by its VID and at no shared edge, wherever its tags come from: `DeletedVertexIff`. So
  vertices without provenance are never deleted iff all such stubs are at shared edges (`ForeignVerticesStayIff`;
  `ForeignVertexIsDeleted` gives a graph). DELETE TAG can leave the endpoint of a shared edge without any tag: iff
  all its tags are marked synthetic (`SharedEndpointTagless`, `SharedEndpointLosesItsTag`). And a crash after the tag
  phase can strand a stub that no later plan finds (`CrashStrandsAStub`). Planning again repairs a crash iff no
  deletable stub that is still there has lost its Organization tag (`ReplanConvergesIff`), and every crash iff no
  deletable stub's Organization tag is to be deleted at all (`EveryStopConvergesIff`).
- A scholar whose Chinese and English names are equal is indexed twice and never resolves:
  `EqualNamesNeverResolve`. A name resolves iff exactly one of all names of all scholars has its key (`ResolvesIff`);
  a key of one scholar alone, iff just one of the two names has it (`OwnNameResolvesIff`). A pair is counted in two
  buckets iff rows name it in both orders and expert A does not tell the two scholars apart: `BothOrdersIff`,
  `PairIsSplit`.
- A failed read of existing colleague edges is harmless on sorted edges: `ReadDoesNotMatter`. On any edges, a call
  keeps one edge per pair iff the read finds the existing edges of the pairs it writes: `KeepsOneIff`. A complete
  read does (`CompleteReadKeepsOne`); a failed one does iff those pairs have none but the sorted edge
  (`FailedReadKeepsOneIff`, `FailedReadDuplicates`).
- A project id is used as a LIKE pattern. With an underscore in it another row can fill the page
  (`WildcardHidesARow`). An id whose first backslash is not doubled and has no `%` before it does not match its own
  pattern and is never found (`BackslashNeverFound`); every id without `%` matches its own pattern iff each of its
  tokens is the character at the token's place (`MatchesItselfIff`), so ids without backslash do
  (`PlainMatchesItself`). Ids without `%`, `_` and `\` are found (`OnePageSuffices`); for every id at all the exact
  condition is `FirstPageHas`, by `FirstPage`.
- Affiliations never end at a missing organization, but they start at a missing person iff a record with an
  organization has no Person vertex: `SourcesPresentIff`, `MissingPersonDangles`. An existence read that fails is
  remembered as absence; the load then writes what it would have written iff no record names such an organization
  by id: `FailedReadsHarmlessIff`.

## Model

| member | source | states |
|---|---|---|
| PatentEntityWriter.KeywordValues | backend/script/load_patent_graph.py:107-121 | The loop computes the word list that `WordsAreDistinct` and `WordsAreFirst` describe |
| PatentEntityWriter.WordsAreDistinct | backend/script/load_patent_graph.py:107-121 | The words differ in folded spelling, and every non-empty squashed keyword has one of theirs |
| PatentEntityWriter.WordsAreFirst | backend/script/load_patent_graph.py:107-121 | Each word is the first keyword of its folded spelling |
| PatentEntityWriter.KeywordStatements | backend/script/load_patent_graph.py:215-244 | Keyword cells of a batch: last spelling per VID; HAS_KEYWORD cells: first record id per pair of VIDs |
| PatentEntityWriter.FamilyStatements | backend/script/load_patent_graph.py:247-273 | Family vertices and membership edges of the rows that have a family number and an id, as last-wins maps |
| PatentEntityWriter.EntityGraph.ExecuteWrite | backend/script/load_patent_graph.py:346-357 | An accepted statement is an upsert of its cells; a rejected one may have touched any of them |
| PatentEntityWriter.TryBatch | backend/script/load_patent_graph.py:346-358 | Success means no blank id and exactly the five statements' cells upserted; failure touches only cells of the batch |
| PatentEntityWriter.WriteEntityBatch | backend/script/load_patent_graph.py:342-363 | For every pattern of rejections: at most 2n-1 calls, a normal return is one of the bisection's histories (`Returns`), and even a raise touches only cells of these rows |
| PatentEntityWriter.VerticesConfluent | backend/script/load_patent_graph.py:342-363 | In every history that returns, all vertices and family edges equal those of one accepted batch |
| PatentEntityWriter.LinkKeys | backend/script/load_patent_graph.py:342-363 | Which keyword edges exist never depends on the rejections |
| PatentEntityWriter.LinkSettled | backend/script/load_patent_graph.py:227 | A keyword edge whose record ids agree along the halves ends with the id an accepted batch gives it |
| PatentEntityWriter.UnsettledHistory | backend/script/load_patent_graph.py:227 | For every other keyword edge there is a history of rejections that returns and leaves another record id |
| PatentEntityWriter.ConfluentIff | backend/script/load_patent_graph.py:342-363 | The final graph is the same for all rejection histories iff every keyword edge is settled, or an id is blank and no history returns |
| PatentEntityWriter.DistinctIsConfluent | backend/script/load_patent_graph.py:342-363 | With distinct stripped ids every normal return leaves the graph of one accepted batch, last-wins spelling included |
| PatentEntityWriter.PaddedDuplicateDiverges | backend/script/load_patent_graph.py:382 | Two rows whose ids differ only in padding make a batch that is not confluent |
| PatentEntityWriter.DistinctRowsAreUnique | backend/script/load_patent_graph.py:382 | Deduplication by raw id leaves rows with distinct stripped ids alone |
| PatentEntityWriter.LoadPatents | backend/script/load_patent_graph.py:367-392 | A return is a history of one bisecting write per page, over exactly the pages of the key-set query; a raise has written some pages and touched only cells of the next. With distinct ids the graph is one accepted write of all the rows. A batch size below 1 is refused without a write. What a return leaves of repeated ids: `LastRowsStay` |
| PatentEntityWriter.LoadConfluentIff | backend/script/load_patent_graph.py:376-388 | The graph a whole load leaves is that of one accepted write per page in every history of rejections iff each keyword edge is settled within the last page that writes it, whether ids recur or not |
| PatentEntityWriter.DistinctLoad | backend/script/load_patent_graph.py:376-388 | If no id recurs on any page, every history leaves the graph of one accepted write of all rows |
| PatentEntityWriter.FetchedAllIff | backend/script/load_patent_graph.py:374-387 | The pages bring the whole table iff no row has numeric id 0 and no page ends between two rows of one numeric id |
| PatentEntityWriter.ZeroIdLosesARow | backend/script/load_patent_graph.py:374 | A row of numeric id 0 is never read |
| PatentEntityWriter.TieLosesARow | backend/script/load_patent_graph.py:387 | Two rows of one numeric id and pages of one row: the second is never read |
| PatentEntityContents.LastRowsStay | backend/script/load_patent_graph.py:376-388 | After any returning load, whatever was rejected and in terms of the source rows: the last row of a raw id on the last page with its stripped id has its payload, its words with their edges and numbers, and its family in the graph, unless another raw id of that page strips to the same |
| PatentEntityContents.OnlyItsWords | backend/script/load_patent_graph.py:215-244 | A keyword edge that a page adds to such a patent is that of one of the row's words |
| PatentEntityContents.UniqueRowsAre | backend/script/load_patent_graph.py:382 | The deduplicated page holds the last row of each raw id, each id once, and more rows reorder no id |
| PatentEntityContents.LoadedAreIds | backend/script/load_patent_graph.py:388 | The reported count is the number of distinct raw ids per page, summed |
| PatentEntityContents.LoadReturnsIff | backend/script/load_patent_graph.py:342-363 | A load can return, for some pattern of rejections, iff no row of its pages has a blank id |
| PatentEntityContents.OnlyItsFamilies | backend/script/load_patent_graph.py:247-273 | A membership edge that a load adds is that of a row with both an id and a family number |
| PatentEntityContents.OnlyTheirNumbers | backend/script/load_patent_graph.py:247-273 | A family vertex that a load adds is that of a row with both an id and a family number |
| PatentEntityContents.LastSpellingStays | backend/script/load_patent_graph.py:215-244 | A keyword vertex bears the spelling of the last word with its VID, rows in order and words in order, in every returning history |
| NameIndex.MakeIndex | backend/script/load_patent_relations.py:239-255 | For every key, lookup equals a scan of the catalogue for entities that bear it, each once, in catalogue order |
| NameIndex.BearingIff | backend/script/load_patent_relations.py:239-255 | An entity is found under a key iff it is in the catalogue, the key is not empty, and it is one of its normalised names or a part of one of its aliases |
| Citations.NormalizeIdentifier | backend/script/load_patent_relations.py:142-145 | The key has only lower-case ASCII letters and digits |
| Citations.NormalizeIdempotent | backend/script/load_patent_relations.py:142-145 | Normalising a key again changes nothing, if folding leaves such keys alone |
| Citations.ApplicationNumberIdempotent | backend/script/load_patent_relations.py:148-152 | The application-number key is idempotent |
| Citations.ApplicationFormatsAgree | backend/script/load_patent_relations.py:148-152 | With or without cn/zl and with or without a check character, twelve digits give one key |
| Citations.ApplicationKeyIs | backend/script/load_patent_relations.py:148-152 | The key of a text is "cn" and twelve digits iff its normalised form is those digits with an optional cn or zl before and at most one more character behind; every other text has its normalised form |
| Citations.IdentifierIndex | backend/script/load_patent_relations.py:258-269 | For every non-empty key, lookup equals a scan of the four identifier fields, without repeated VIDs |
| Citations.PatentCandidates | backend/script/load_patent_relations.py:272-275 | The candidates, without repetition, are the patents with a field key among the identifier's two lookup keys; one candidate iff the identifier denotes it |
| Citations.DenotesIff | backend/script/load_patent_relations.py:258-275 | An identifier denotes a VID iff some patent has a field with one of its non-empty keys and every patent that has bears that VID |
| Citations.CitationEdges | backend/script/load_patent_relations.py:760-798 | The citation loop yields, row by row and column by column, the edges of the identifiers that denote exactly one other patent |
| Citations.CitationsTraced | backend/script/load_patent_relations.py:760-798 | Every citation record names the row, column and position it was read from; its ends are what the row's patent id and the identifier there denote, the right way round for the column, and differ |
| Citations.CitationMerge | backend/script/load_patent_relations.py:760-798 | After deduplication CITES holds (a, b) exactly once iff a differs from b and some row of a cites b or some row of b is cited by a; never otherwise |
| ProjectOutputs.ProjectContext | backend/script/load_patent_relations.py:427-498 | OUTPUT_OF edges of both tables in order, and for every patent exactly the names of the projects that have a vertex and list it |
| ProjectOutputs.ProjectVidIff | backend/script/load_patent_relations.py:433-457 | A project row stands for a vertex iff its id is not empty and the last catalogue project of its table and id has a VID, which it is |
| ProjectOutputs.VouchedIff | backend/script/load_patent_relations.py:454-497 | A project vouches for a name on a patent iff a row with a vertex has an output whose number denotes that patent alone and carries the name in one of its people fields |
| ProjectOutputs.OutputsTraced | backend/script/load_patent_relations.py:454-497 | Every output record names the table, row and position it was read from, starts at the patent denoted there and ends at the row's vertex |
| ProjectOutputs.OutputMerge | backend/script/load_patent_relations.py:454-497 | After deduplication OUTPUT_OF joins a patent and a project exactly once iff a row that stands for the project lists an identifier of that patent alone |
| PartyResolution.ResolveColumn | backend/script/load_patent_relations.py:605-656 | Cache, confirmed organization names and reviews of one column: the cache answers a number with its last item |
| PartyResolution.ResolveRow | backend/script/load_patent_relations.py:600-758 | Edges and reviews of a patent row, in the source's order |
| PartyResolution.CacheLast | backend/script/load_patent_relations.py:606-613 | Under a sequence number the cache holds the resolution of the last item with that number |
| PartyResolution.AccountedIff | backend/script/load_patent_relations.py:606-758 | Every party of a column yields exactly one edge or one review iff parties with one sequence number all resolve or none does |
| PartyResolution.OwnOutcome | backend/script/load_patent_relations.py:727-758 | With distinct numbers a party gets an edge iff its name has exactly one organization, the edge leads there, and otherwise it gets a review |
| PartyResolution.OwnTargetsIff | backend/script/load_patent_relations.py:727-758 | Every edge of a column leads to its own party's organization iff, under every number the cache resolves, all parties point to one organization |
| PartyResolution.MissingSequencesLoseAParty | backend/script/load_patent_relations.py:731-733 | Two items without a number, only the first of which resolves: that one gets neither edge nor review |
| PartyResolution.MissingSequencesMisleadAnEdge | backend/script/load_patent_relations.py:731-733 | Two items without a number that resolve to different organizations: the first one's edge leads to the second's |
| PartyResolution.RowAccounting | backend/script/load_patent_relations.py:600-758 | If numbers agree, the edges and reviews of a row add up to its inventors, applicants and assignees |
| PartyResolution.InventorIdentified | backend/script/load_patent_relations.py:658-725 | An inventor gets an edge iff exactly one catalogue person of that name shares a confirmed organization; it leads to that person; otherwise one review |
| PartyResolution.ConfirmedBy | backend/script/load_patent_relations.py:608-614 | A name is confirmed iff it is a name of a party that matches exactly one catalogue organization |
| PartyResolution.ItemsIff | backend/script/load_patent_relations.py:232-236 | The items of a column are the objects with a name that is not blank, stripped, with their numbers |
| PartyResolution.PartyTraced | backend/script/load_patent_relations.py:727-758 | An edge of a party starts at its patent, has the party's number as rank, and tells name, role, confidence 0.98 and source of that party |
| PartyResolution.InventorTraced | backend/script/load_patent_relations.py:670-700 | An inventor edge leads to the only strong candidate; its confidence is 0.90 if a project confirms the name or an organization of the person, and 0.80 if not |
| PartyResolution.OrganizationHitIff | backend/script/load_patent_relations.py:663-664 | A candidate is strong iff a part of one of its organizations is a confirmed name |
| PartyResolution.PartyReviewed | backend/script/load_patent_relations.py:615-656 | A party review offers the organizations of the name if there are several, else the people; reason, confidence, role and record id follow from that |
| PartyResolution.InventorReviewed | backend/script/load_patent_relations.py:701-725 | An inventor review offers all people of the name; reason and confidence follow from how many there are |
| PartyResolution.PartyKeyIff | backend/script/load_patent_relations.py:727-758 | A row joins its patent to an organization at a rank iff the last item of that number points to exactly this organization |
| PartyResolution.InventorKeyIff | backend/script/load_patent_relations.py:658-700 | A row joins its patent to a person at a rank iff some inventor of that number has this person as only strong candidate |
| RelationAnalysis.BuildRelations | backend/script/load_patent_relations.py:577-799 | Edges are outputs, parties, citations in that order, all well made: managed type, patent source, schema-true properties; indexes answer like scans |
| RelationAnalysis.DedupWellMade | backend/script/load_patent_relations.py:928-950 | Deduplication keeps records well made |
| RelationAnalysis.LoadedBatchReadsBack | backend/script/load_patent_relations.py:1028-1031 | Every INSERT statement for a batch of kept records of one type reads back as exactly that batch |
| VectorPromotion.CheckEligible | backend/script/load_patent_relations.py:829-838 | Only a party review that is not person-only is eligible; a person-only one gets its reason and, once, the guard mark |
| VectorPromotion.AnyEligible | backend/script/load_patent_relations.py:840 | The short-circuit scan finds the first eligible review; those before it are marked as a check marks them and the others untouched |
| VectorPromotion.Ask | backend/script/load_patent_relations.py:871-881 | A normalised name is matched once, for the first eligible review that bears it; the cache answers the others; it raises iff the matcher does for that review |
| VectorPromotion.PromoteOne | backend/script/load_patent_relations.py:867-921 | The review's edge, if promoted, and its whole new state: candidates, reason, confidence, evidence |
| VectorPromotion.Promote | backend/script/load_patent_relations.py:818-925 | Returns iff nothing is eligible, or the index and its state can be used and the matcher answers every name asked; then edges and remaining records are the two ordered parts, and every record's new state is stated. If it raises, the records before that point are as promoted (or only checked) and the others as they were |
| VectorPromotion.PromotionAccounting | backend/script/load_patent_relations.py:867-922 | Promoted edges and remaining reviews add up to the reviews |
| VectorPromotion.PromotionOrder | backend/script/load_patent_relations.py:867-922 | Each review stands in its list right after those of the reviews before it |
| VectorPromotion.EligibleIff | backend/script/load_patent_relations.py:829-838 | Eligible are the reviews of applicants and assignees without candidates or with one that is no person |
| VectorPromotion.PromotedTells | backend/script/load_patent_relations.py:871-921 | An eligible review is promoted iff the matcher, asked for the first eligible review of its normalised name, matches and selects a vertex; its edge leads from the review's patent to that vertex, with the review's own rank, role, name and record id and the answer's confidence and evidence |
| VectorPromotion.EligibleAfter | backend/script/load_patent_relations.py:882-901 | An eligible review ends with the answer's candidates and note, and, if not promoted, with the rejection reason and the score |
| VectorPromotion.IneligibleStays | backend/script/load_patent_relations.py:829-838 | A review that is not eligible is never promoted; a party with people only gets its reason and, once, the guard mark |
| EdgeRecords.DeduplicateEdges | backend/script/load_patent_relations.py:928-950 | The loop keeps the best record per logical key in first-occurrence order; kept plus removed is the input length |
| EdgeRecords.BestIsEarliestMaximum | backend/script/load_patent_relations.py:943-949 | The record kept for a key is the earliest of maximum confidence, with the logical rank |
| EdgeRecords.ConfidenceIs | backend/script/load_patent_relations.py:943-949 | The confidence that decides is the last property of that name, as a number, and 0 without one |
| EdgeRecords.KeysAreTheKeys | backend/script/load_patent_relations.py:930-934 | Every logical key of the input is kept, once, and no other |
| EdgeRecords.KeysGrow | backend/script/load_patent_relations.py:930-942 | More input never reorders the keys already kept |
| EdgeRecords.KeptCells | backend/script/load_patent_relations.py:928-950 | The kept records occupy exactly the logical keys of the input, each once |
| EdgeRecords.DedupIdempotent | backend/script/load_patent_relations.py:928-950 | Deduplicating twice changes nothing |
| EdgeRecords.DedupAbsorbs | backend/script/load_patent_relations.py:928-950 | Deduplicating the first or the second half beforehand changes nothing |
| RelationWriter.WriteBatch | backend/script/load_patent_relations.py:299-310 | For every accept/reject behaviour: accepted statements carry an order-preserving, repeat-free prefix, the whole batch iff it returns; at most 2k-1 statements; a return leaves the batch upserted in order |
| RelationWriter.ExecuteBatched | backend/script/load_patent_relations.py:296-313 | The same for all batches together |
| RelationWriter.ExistingEdgeKeys | backend/script/load_patent_relations.py:960-965 | The keys of the Patent-sourced edges of a type, each once |
| RelationWriter.ReplaceExistingEdges | backend/script/load_patent_relations.py:968-980 | A return has removed exactly the managed edges; even a raise leaves all other edges alone |
| RelationWriter.WriteGrouped | backend/script/load_patent_relations.py:1025-1031 | Grouping by type does not show: the graph ends as if the records had been written in order |
| RelationWriter.Load | backend/script/load_patent_relations.py:983-1035 | Replace without apply is refused; without apply nothing is written; a return leaves the deduplicated records over the kept or cleared graph; other edges are never touched |
| RelationWriter.ExactReplacement | backend/script/load_patent_relations.py:968-1035 | After a replacing load the managed edges are exactly the deduplicated records, each once with its own properties, all else unchanged |
| RelationWriter.ReplacedValue | backend/script/load_patent_relations.py:928-1035 | After a replacing load each managed edge has the properties of the earliest record of greatest confidence with its key |
| RelationWriter.ManagedIff | backend/script/load_patent_relations.py:968-980 | Managed are the edges of the five relation types that start at a Patent vertex |
| PatentRelationLoad.LoadPatentRelations | backend/script/load_patent_relations.py:983-1035 | End to end: from the source tables, a returning replacing load leaves exactly the deduplicated analysed and promoted edges as managed edges, and no other edge changes even if it raises |
| PatentRelationLoad.CitesAfterLoad | backend/script/load_patent_relations.py:760-798 | After a replacing load CITES joins patent a to b in the graph iff they differ and some row says so, and only at rank 0 |
| PatentRelationLoad.OutputsAfterLoad | backend/script/load_patent_relations.py:454-497 | After a replacing load OUTPUT_OF joins a patent and a project in the graph iff a row for the project lists an identifier of the patent alone, and only at rank 0 |
| PatentRelationLoad.PartiesAfterLoad | backend/script/load_patent_relations.py:600-1035 | After a replacing load INVENTED_BY, APPLIED_BY or OWNED_BY joins a patent to a vertex at a rank iff a source row of the patent says so (`PartyKeyIff`, `InventorKeyIff`) or an eligible review of it was promoted to that vertex |
| PatentRelationLoad.ReviewedIff | backend/script/load_patent_relations.py:600-725 | There is a review iff a row whose patent id belongs to a catalogue vertex has a party or inventor with this outcome |
| PatentRelationLoad.ProjectNameIff | backend/script/load_patent_relations.py:427-498 | A name is evidence for a patent iff a project row of either table that has a vertex lists the patent and carries the name |
| PatentRelationLoad.InventorConfidence | backend/script/load_patent_relations.py:665-672 | Of the loaded tables: an inventor edge has confidence 0.90 iff such a project carries the normalised name or a part of an organization of the person, and else 0.80 |
| PatentRelationLoad.PromotedWellMade | backend/script/load_patent_relations.py:902-921 | Promoted edges have the properties of their type and start at a patent, like analysed ones |
| NgqlText.EscapeInOnePass | backend/script/load_patent_relations.py:166-175 | The five replacement passes equal one character map |
| NgqlText.StringReadsBack | backend/script/load_patent_relations.py:166-175 | A printed string is read back whatever follows it |
| NgqlText.FloatReadsBack | backend/script/load_patent_relations.py:183-184 | A float printed with six decimals and stripped zeros is read back exactly, in millionths |
| NgqlText.ValueReadsBack | backend/script/load_patent_relations.py:178-185 | Every property value is recovered from its printed form |
| NgqlText.RowReadsBack | backend/script/load_patent_relations.py:287-292 | Endpoints, rank and properties are recovered from one printed row |
| NgqlText.StatementReadsBack | backend/script/load_patent_relations.py:283-293 | Parsing a printed statement recovers all records of one type that share ordered property names and column types |
| NgqlText.StatementIs | backend/script/load_patent_relations.py:283-293 | The statement for one edge with one property, token by token |
| NgqlText.EscapesAre | backend/script/load_patent_relations.py:166-175 | Which five characters are escaped, how, and no other |
| NgqlText.UnsignedShape | backend/script/load_patent_relations.py:183-184 | A printed float is the whole number, and a point with up to six digits, the last not zero, iff the fraction is not zero |
| StubCleanup.CollectIncidentEdges | backend/script/cleanup_organization_virtual_graph.py:109-133 | For every positive batch size, exactly the edges at the given vertices |
| StubCleanup.CollectSyntheticTags | backend/script/cleanup_organization_virtual_graph.py:143-168 | Exactly the marked tags of the six organization tags |
| StubCleanup.CollectSyntheticEdges | backend/script/cleanup_organization_virtual_graph.py:171-200 | Exactly the marked or synthetic-table edges of the relation types |
| StubCleanup.BuildCleanupPlan | backend/script/cleanup_organization_virtual_graph.py:208-235 | The plan is a function of the graph alone, whatever the batch size |
| StubCleanup.ExecuteCleanup | backend/script/cleanup_organization_virtual_graph.py:238-263 | Wherever a run stops, it stops at a phased part of the plan and the graph is safe: no dangling edge, unowned edges unchanged with both endpoints; a complete run deletes exactly the plan and counts it |
| StubCleanup.PrefixIsSafe | backend/script/cleanup_organization_virtual_graph.py:238-263 | Any subset of the edge and tag deletions, and of the vertex deletions after all edge deletions, is safe |
| StubCleanup.StubsArePartitioned | backend/script/cleanup_organization_virtual_graph.py:217-225 | Deletable and blocked vertices partition the stubs; blocked ones are those at an unowned edge |
| StubCleanup.CleanupConverges | backend/script/cleanup_organization_virtual_graph.py:208-263 | Planning again after a complete run finds no edge, tag or vertex to delete and no new blocked vertex |
| StubCleanup.ReplanAfterCrash | backend/script/cleanup_organization_virtual_graph.py:238-263 | From every point a run can stop at, planning and executing again ends like one complete run, but for the deletable stubs that have lost their Organization tag |
| StubCleanup.ReplanConvergesIff | backend/script/cleanup_organization_virtual_graph.py:250-258 | It ends exactly like one complete run iff there is no such stub |
| StubCleanup.EveryStopConvergesIff | backend/script/cleanup_organization_virtual_graph.py:238-263 | Every point a run can stop at can be repaired by planning again iff no deletable stub's Organization tag is planned for deletion |
| StubCleanup.CrashStrandsAStub | backend/script/cleanup_organization_virtual_graph.py:250-258 | A stub with a marked Organization tag is stranded by a crash between the tag and the vertex phase |
| StubCleanup.DeletedVertexIff | backend/script/cleanup_organization_virtual_graph.py:211-225 | A complete run deletes a vertex iff it is tagged Organization, its VID starts with one of the five stub prefixes and no unowned edge touches it |
| StubCleanup.DeletedEdgeIff | backend/script/cleanup_organization_virtual_graph.py:203-235 | A complete run deletes an edge iff its cleaned and folded source table, the empty text if there is none, is an organization table or a synthetic one, and it touches a stub or is itself synthetic |
| StubCleanup.UnsourcedEdgeStays | backend/script/cleanup_organization_virtual_graph.py:203-205 | If the empty text is no table, an edge without source table survives unchanged with both endpoints |
| StubCleanup.DeletedTagIff | backend/script/cleanup_organization_virtual_graph.py:143-168 | A complete run deletes a tag iff it is one of the six names and marked, or its vertex goes |
| StubCleanup.ForeignVerticesStayIff | backend/script/cleanup_organization_virtual_graph.py:3-5 | Vertices without organization provenance are never deleted iff every stub whose Organization tag has none touches an unowned edge |
| StubCleanup.ForeignVertexIsDeleted | backend/script/cleanup_organization_virtual_graph.py:85-106 | A stub that is also a person, with no edge, is deleted whatever source its tags name |
| StubCleanup.SurvivingTags | backend/script/cleanup_organization_virtual_graph.py:250-254 | A surviving vertex keeps exactly its tags that are not marked synthetic |
| StubCleanup.SharedEndpointTagless | backend/script/cleanup_organization_virtual_graph.py:250-254 | An endpoint of an unowned edge survives, and ends without any tag iff all its tags are marked synthetic |
| StubCleanup.SharedEndpointLosesItsTag | backend/script/cleanup_organization_virtual_graph.py:250-254 | A graph of one unowned edge and one marked tag in which that happens |
| IncrementalLoad.Watermark.Read | backend/script/etl_watermark.py:33-43 | A missing or unreadable file reads as no watermark |
| IncrementalLoad.Watermark.AdvanceIfHigher | backend/script/etl_watermark.py:57-62 | The file changes only to a higher stamp, or from an unreadable state |
| IncrementalLoad.LoadPersons | backend/script/load_scholar_entities.py:268-365 | The rows before a failing write are in the graph under their stripped ids, with contents if DESCRIBE listed fields and empty if not; a return skipped exactly the virtual rows, wrote all others and reports the greatest stamp of a written row, or none if no written row has one |
| IncrementalLoad.IterScholars | backend/script/load_scholar_entities.py:131-182 | The pages, each in the order its own query chose, concatenated until one is short or empty; or the first `limit` rows of one query |
| IncrementalLoad.ReadOrderIff | backend/script/load_scholar_entities.py:91-128 | These are the chosen rows in their order for every behaviour of the service iff no row to be read shares its scholar id with a different row |
| IncrementalLoad.RivalIsNeverRead | backend/script/load_scholar_entities.py:173-182 | Two rows of one scholar id at the end of a page: one is read twice, the other never |
| IncrementalLoad.Run | backend/script/load_scholar_entities.py:371-411 | The watermark moves only if an incremental run returns, and then up, to the stamp of a row that was written; it then covers every stamp that was read of a row to be written. The graph holds what the answer of DESCRIBE let it write |
| IncrementalLoad.MaxTimeIsStamp | backend/script/load_scholar_entities.py:336-365 | The stamp computed from any rows is that of a non-virtual one and no such row has a greater; there is none iff no such row is stamped |
| IncrementalLoad.ChosenIff | backend/script/load_scholar_entities.py:91-128 | A query asks for the active rows, of the given scholar, and in an incremental run with a readable watermark only for those stamped strictly after it |
| IncrementalLoad.BeginKeepsIff | backend/script/load_scholar_entities.py:371-411 | A run begun where the claim holds keeps it at every point it can stop iff it spoils no claimed row and writes each row it will claim last with its own contents, or finds it in the graph |
| IncrementalLoad.ChangeKeepsIff | backend/script/load_scholar_entities.py:102 | A source change, at any moment and with any stamp, keeps the claim at every stop of the current run iff the new row is not (going to be) claimed or the graph has, and the run leaves, its contents |
| IncrementalLoad.StepKeepsIff | backend/script/load_scholar_entities.py:371-411 | The exact condition for every kind of step, writes, crashes, finish and loss of the file included |
| IncrementalLoad.NoLostRowIff | backend/script/load_scholar_entities.py:371-411 | Over every history, with any rows read, any ids and any DESCRIBE answers: the claim holds at every moment and at every possible stop iff every run and every change was safe |
| IncrementalLoad.GoodMeans | backend/script/load_scholar_entities.py:371-411 | That invariant says exactly that the claim holds after a crash at any write and after the finish |
| IncrementalLoad.NoLostRow | backend/script/load_scholar_entities.py:371-411 | In every history where DESCRIBE answers, queries bring all wanted rows, no two active rows of one vertex differ and changes are stamped after what is or will be claimed: at every moment every active non-virtual row stamped at or below the watermark is in the graph at its current version |
| IncrementalLoad.WatermarkNeverDecreases | backend/script/etl_watermark.py:57-62 | As long as the file is not lost, the watermark never decreases |
| IncrementalLoad.RunIsAHistory | backend/script/load_scholar_entities.py:371-411 | What `Run` leaves, returning or raising, filtered or not, is what begin, n writes and finish or crash leave |
| IncrementalLoad.ReadCanBegin | backend/script/load_scholar_entities.py:91-128 | The rows of every call, filtered, limited or not and in any order of the queries, are rows a history can begin with |
| IncrementalLoad.SafeRunIff | backend/script/load_scholar_entities.py:268-309 | On a stamped table an unfiltered incremental run is safe iff DESCRIBE lists fields or nothing is written, and no two active non-virtual rows of one vertex differ |
| IncrementalLoad.FailedDescribeLosesARow | backend/script/load_scholar_entities.py:268-309 | A run whose DESCRIBE fails leaves an empty vertex behind the watermark |
| IncrementalLoad.PaddedIdsLoseARow | backend/script/load_scholar_entities.py:60-61 | Two paddings of one scholar id leave one vertex, current for the last of them only |
| IncrementalLoad.IdleChangeIff | backend/script/load_scholar_entities.py:102 | Between runs a change keeps the claim iff it is inactive, virtual, unstamped, stamped after the watermark, or in the graph already |
| IncrementalLoad.MidRunChangeIff | backend/script/load_scholar_entities.py:102 | During an incremental run new contents keep the claim at every stop iff their stamp is after the watermark and after all stamps the run has read |
| IncrementalLoad.MidRunChangeLosesARow | backend/script/load_scholar_entities.py:407-409 | A history of two rows and one change between reading and finishing breaks the claim |
| IncrementalLoad.FilteredRunSafeIff | backend/script/load_scholar_entities.py:407-409 | A run that reads any part of the wanted rows keeps the claim on every graph that held it iff each row it will claim is written last with its own contents, or is unwritten and its contents are claimed already |
| IncrementalLoad.LimitedRunLosesARow | backend/script/load_scholar_entities.py:407-409 | A two-row table and limit 1 violate that condition |
| IncrementalLoad.SameSecondChangeIsMissed | backend/script/load_scholar_entities.py:102 | New contents stamped exactly at the watermark break the claim and are not selected again; the exact condition is `IdleChangeIff` |
| IndexBuild.PersistStatistics | backend/script/build_patent_milvus_indexes.py:60-69 | A resumed run goes on only if the saved statistics equal the current ones, and otherwise leaves the file alone; a write that fails leaves the old file, a torn one or the new one |
| IndexBuild.BuildOne | backend/script/build_patent_milvus_indexes.py:189-272 | Refusals leave everything alone; any other end leaves the collection alone, dropped, or with its start plus the first missing VIDs; a return has inserted the quota and reports the total; `Saves` says exactly what each end leaves of the statistics file and of the encodings |
| IndexBuild.ConsistentIff | backend/script/build_patent_milvus_indexes.py:209-223 | From a consistent store, a run leaves all rows encoded with the saved statistics iff it does not stop, over old rows, with the file torn or replaced by that of another corpus |
| IndexBuild.ReachedConsistentIff | backend/script/build_patent_milvus_indexes.py:211-272 | A run that gets past the old rows leaves a consistent store iff it is no resume or the store was consistent |
| IndexBuild.HistoryConsistentIff | backend/script/build_patent_milvus_indexes.py:189-272 | From the start, or from any rebuild that got past the old rows, all stores of a history are consistent iff none of its runs stops in that way |
| IndexBuild.FailedRebuildMixesEncodings | backend/script/build_patent_milvus_indexes.py:210-213 | A rebuild over another corpus that stops before the old rows are dropped and a resume that returns leave old encodings beside new statistics |
| IndexBuild.TornStatisticsLast | backend/script/build_patent_milvus_indexes.py:60-69 | A torn statistics file makes every later run but a rebuild change nothing, with the rows left without their statistics |
| IndexBuild.InsertMissing | backend/script/build_patent_milvus_indexes.py:224-266 | With limit m the loop inserts min(missing, 32*ceil(m/32)) rows, without limit all, in graph order |
| IndexBuild.QuotaIs | backend/script/build_patent_milvus_indexes.py:224-266 | A positive limit is rounded up to the next multiple of 32, unless the missing VIDs end before that; any other limit inserts nothing |
| IndexBuild.RunKeepsSound | backend/script/build_patent_milvus_indexes.py:189-272 | However a run ends, no VID is indexed twice and every new one is a VID of its graph |
| IndexBuild.NeverTwice | backend/script/build_patent_milvus_indexes.py:189-272 | Over any sequence of interrupted, limited, resumed and rebuilt runs, each over the graph of its time, no VID is indexed twice and every one was in the graph of some run |
| IndexBuild.UnlimitedRunCompletes | backend/script/build_patent_milvus_indexes.py:267-272 | A returning run without limit leaves exactly the VIDs of its graph, each once, whatever graphs the runs before it saw |
| IndexBuild.CountsMatch | backend/script/build_patent_milvus_indexes.py:268-271 | From a sound start, the start plus the missing VIDs is the corpus size, so the final count check holds |
| PairRelations.LoadExactNameMap | backend/dao/scholar.py:410-418 | Under every non-empty key each scholar is listed once per name with that key, in table order |
| PairRelations.MapPeopleToScholars | backend/dao/scholar.py:472-498 | Exactly the people whose name is listed once, in order |
| PairRelations.EqualNamesNeverResolve | backend/dao/scholar.py:413-417 | A scholar with two equal names is never found by that name |
| PairRelations.ResolvesIff | backend/dao/scholar.py:410-418 | A person name resolves iff exactly one of all the names of all scholars has its key, and then to the scholar who bears it |
| PairRelations.OwnNameResolvesIff | backend/dao/scholar.py:413-417 | A key of one scholar alone resolves to that scholar iff exactly one of the two names has it |
| PairRelations.CollectPairs | backend/dao/scholar.py:340-398 | The nested loops tally exactly the accepted pairs of all rows |
| PairRelations.RowMatchesIff | backend/dao/scholar.py:349-356 | A row passes iff its lowered institution text contains the lowered stripped keyword, if there is one, and the first ten characters of its time are not before the start nor after the end, where given; a row without time passes iff neither is |
| PairRelations.RowPeopleIff | backend/dao/scholar.py:358-362 | The people of a row are the scholars to whom exactly one of all names leads from a listed name, each id once |
| PairRelations.SuitsIff | backend/dao/scholar.py:500-525 | A pair suits the keywords iff one order has expert A on one side and expert B on the other, where given; a keyword is an id or the display name, lowered and stripped |
| PairRelations.TallyKeys | backend/dao/scholar.py:379-389 | One bucket per ordered pair that occurs, none else, each key once |
| PairRelations.OrderGrows | backend/dao/scholar.py:379-389 | First-occurrence order: more pairs never reorder the buckets already there |
| PairRelations.BucketsAreFaithful | backend/dao/scholar.py:390-398 | A bucket's count and titles are those of its ordered pair's accepted events in order, its time is the greatest non-empty one, or the first event's if none has any, its institution the first that is not empty |
| PairRelations.EventsAreRows | backend/dao/scholar.py:359-389 | A bucket's count is the number of rows that count for its pair: institution, date, people and expert keywords are stated of the row |
| PairRelations.CountsAddUp | backend/dao/scholar.py:390 | The counts of all buckets sum to the number of accepted pairs |
| PairRelations.EventShape | backend/dao/scholar.py:365-378 | An accepted pair joins two different listed scholars, passes the filters and has expert A's match on side A |
| PairRelations.OneBucketPerPair | backend/dao/scholar.py:528-537 | A bucket's side A matches expert A, and if side B does not, the reversed pair has no bucket |
| PairRelations.OneOrderIff | backend/dao/scholar.py:528-537 | Both orders of a pair give one key iff exactly one of the two scholars matches expert A |
| PairRelations.BucketIff | backend/dao/scholar.py:359-389 | An ordered pair of ids has a bucket iff some row, by its institution text and date, names two of its people, in the order they are resolved, who suit the expert keywords and come out in this order |
| PairRelations.BothOrdersIff | backend/dao/scholar.py:359-389 | A pair has both buckets iff rows name it in both orders and not exactly one of the two scholars matches expert A |
| PairRelations.PairIsSplit | backend/dao/scholar.py:528-537 | Two rows that name two scholars in opposite orders, without expert keyword, make two buckets |
| PairRelations.RankedDescending | backend/dao/scholar.py:400-407 | The ranking is a permutation of the buckets, descending by count and then time |
| PairRelations.RankedStable | backend/dao/scholar.py:400-407 | Buckets of equal count and time keep their order |
| PairRelations.TopByRank | backend/dao/scholar.py:400-408 | The result is the top of the ranking: no bucket left out ranks above one returned |
| PairRelations.BuildPairRelations | backend/dao/scholar.py:327-408 | The query returns the first `limit` of the ranked tally |
| TtlStore.MemoryJsonStore.GetJson | backend/infra/redis.py:83-92 | Answer and new entries of a read with lazy eviction |
| TtlStore.MemoryJsonStore.SetJson | backend/infra/redis.py:94-99 | Answer and new entries of a write |
| TtlStore.MemoryJsonStore.TouchKey | backend/infra/redis.py:101-108 | Answer and new entries of a renewal |
| TtlStore.MemoryJsonStore.ReplaceJson | backend/infra/redis.py:110-120 | Answer and new entries of a conditional write |
| TtlStore.MemoryJsonStore.PopJson | backend/infra/redis.py:122-127 | Answer and new entries of a removing read |
| TtlStore.LazyRefinesEager | backend/infra/redis.py:83-135 | Over every trace at non-decreasing times each answer equals that of a map that expires entries eagerly |
| TtlStore.OnlySetRevives | backend/infra/redis.py:101-120 | Touch and replace never revive an expired key |
| TtlStore.DeadUntilSet | backend/infra/redis.py:83-135 | A dead key stays dead over any operations but a write of it |
| TtlStore.PopOnce | backend/infra/redis.py:122-127 | Between two writes of a key at most one removing read returns a value |
| TtlStore.SetLasts | backend/infra/redis.py:83-99 | A value that was set at t with time to live d is answered at every read before t + d and at none from t + d on, if nothing else touches the key |
| TtlStore.RenewalLasts | backend/infra/redis.py:101-120 | A renewal succeeds iff a read at its moment would answer; the key then lives for the new time from that moment on, a replaced one with its new value |
| TtlStore.RemovalLasts | backend/infra/redis.py:122-135 | After a pop, a deletion or a close nothing is answered until the key is set again |
| ColleagueUpsert.PersistRelations | backend/application/expert_colleague_relation.py:182-249 | On any edges, the relations go to the edges the read found or to the sorted ones, in order; created plus updated is the number of items |
| ColleagueUpsert.ByOtherIs | backend/application/expert_colleague_relation.py:203-206 | The edge found for a colleague is the last one read that joins the two, however oriented |
| ColleagueUpsert.ReadDoesNotMatter | backend/application/expert_colleague_relation.py:197-240 | On sorted edges the final graph depends neither on what the read returned nor on its failure |
| ColleagueUpsert.KeepsOneIff | backend/application/expert_colleague_relation.py:197-240 | Any call on any graph with one edge per pair keeps it so iff the read finds the existing edges of the pairs it writes |
| ColleagueUpsert.CompleteReadKeepsOne | backend/application/expert_colleague_relation.py:197-240 | A complete read does, whatever the orientation and rank of the edges |
| ColleagueUpsert.CallsKeepOnePerPair | backend/application/expert_colleague_relation.py:182-249 | From sorted edges, any calls from any experts, complete or cut short, keep at most one edge per unordered pair |
| ColleagueUpsert.RepeatCreatesNothing | backend/application/expert_colleague_relation.py:197-240 | On any edges and whatever the first call has read, repeating it with a complete read creates nothing |
| ColleagueUpsert.FailedReadKeepsOneIff | backend/application/expert_colleague_relation.py:197-240 | A failed read keeps one edge per pair iff no pair that is written has any other edge than the sorted one |
| ColleagueUpsert.FailedReadDuplicates | backend/application/expert_colleague_relation.py:197-203 | An edge stored the other way round and a failed read: the pair then has two edges |
| ColleagueUpsert.Subgraph | backend/application/expert_colleague_relation.py:85-129 | Never more than `limit` edges: the dictionary of the edges read until there are enough, no more, or a page without a new key; exactly the first `limit` when the service's keys are distinct. The nodes are the dictionary of those sent with the pages; if each page brings the endpoints of its edges, no returned edge dangles |
| ColleagueUpsert.EdgesAre | backend/application/expert_colleague_relation.py:119-123 | The returned edges are the last ones read under their keys, each key once |
| ColleagueUpsert.NodesAre | backend/application/expert_colleague_relation.py:117-118 | The returned nodes are the last ones sent under their ids, each id once |
| ProjectPaging.LoadByPrefix | backend/script/load_project_graph.py:103-132 | For every table size exactly the first `limit` of the matching zh rows followed by the en rows |
| ProjectPaging.LoadedRows | backend/script/load_project_graph.py:103-132 | Row by row: the matching zh rows with their table's name, then the en rows with theirs, cut at the limit |
| ProjectPaging.LoadById | backend/script/load_project_graph.py:117-128 | One page per table is searched; the zh hit wins |
| ProjectPaging.LoadProjectRows | backend/script/load_project_graph.py:103-132 | By id: the zh row if its first page has it, else the en row, else nothing; an id takes precedence over a prefix |
| ProjectPaging.FirstPage | backend/dao/project.py:62-69 | The first page of the sorted query contains the id's row iff the row matches its own pattern and fewer than a page of matching rows precede it |
| ProjectPaging.OnePageSuffices | backend/dao/project.py:62-69 | An id without LIKE characters sorts before its extensions, so one page finds it iff the table has it |
| ProjectPaging.WildcardHidesARow | backend/dao/project.py:67 | With an underscore in the id the row can be missed |
| ProjectPaging.BackslashNeverFound | backend/dao/project.py:67 | An id whose first backslash is not doubled and has no % before it is never found |
| ProjectPaging.MatchesItselfIff | backend/dao/project.py:67 | An id without % matches its own pattern iff each token is the character at its place and the last backslash is not alone |
| ProjectPaging.PlainMatchesItself | backend/dao/project.py:67 | Every id without a backslash matches its own pattern |
| Paging.ReadPages | backend/script/build_patent_milvus_indexes.py:72-82 | Reading until a short or empty page yields all rows for every positive page size |
| AffiliationLoad.BuildOrgNameVidIndex | backend/script/load_scholar_relations.py:116-140 | The index after the loop; empty after a failed read |
| AffiliationLoad.IndexKeys | backend/script/load_scholar_relations.py:131-140 | A key is indexed iff it is a stripped or lower-cased name of a catalogue organization |
| AffiliationLoad.NameFoundIff | backend/script/load_scholar_relations.py:96-113 | The exact-then-lower-case lookup finds a name iff some organization bears it, ignoring case |
| AffiliationLoad.IndexIsLast | backend/script/load_scholar_relations.py:131-140 | A key leads to the last catalogue organization that has it as a stripped or lower-cased name |
| AffiliationLoad.ResolveByNameIff | backend/script/load_scholar_relations.py:96-113 | The Chinese name is tried first, exactly and then lower-cased, and the English one only if it leads nowhere |
| AffiliationLoad.ResolveFromSource | backend/script/load_scholar_relations.py:143-182 | Unless a vertex read raises, the result is the only confirmed candidate; none if there is no or more than one |
| AffiliationLoad.FromSourceIff | backend/script/load_scholar_relations.py:143-182 | A candidate is returned iff it is the only Organization vertex that a source row with one of the names leads to and that itself bears one of the names, ignoring case |
| AffiliationLoad.FindTarget | backend/script/load_scholar_relations.py:526-594 | Memoised lookups answer like direct ones, a failed existence read like an absent vertex, and the memo tables stay right |
| AffiliationLoad.LoadAffiliations | backend/script/load_scholar_relations.py:495-634 | The merged edges are those of the first n records, one per record with an organization; a return has done all records, and written plus skipped is their number |
| AffiliationLoad.EdgeOfIff | backend/script/load_scholar_relations.py:537-634 | A record's edge starts at its own person and ends at the organization of its id, if that is in the graph, or else, only without an id, at the one its names lead to |
| AffiliationLoad.NoDanglingEdge | backend/script/load_scholar_relations.py:495-634 | Every written edge ends at a present Organization vertex |
| AffiliationLoad.SourcesPresentIff | backend/script/load_scholar_relations.py:537-538 | Every edge starts at a present vertex iff every record with an organization has its Person |
| AffiliationLoad.MissingPersonDangles | backend/script/load_scholar_relations.py:538 | A record of a scholar without Person vertex makes an edge that starts nowhere |
| AffiliationLoad.FailedReadsHarmlessIff | backend/script/load_scholar_relations.py:522-533 | Failing existence reads change what is written iff a record names by id an organization that is in the graph and was not read |

## Left out

- AffiliationLoad.LoadAffiliations: does not model edge properties other than the record id; the three source tables are one list of rows.
- AffiliationLoad.ResolveFromSource: SQL equality of names is exact equality; a database collation may be laxer.
- ProjectPaging.FirstPage: LIKE and the id order are case-sensitive; a case-insensitive collation is not modelled.
- IncrementalLoad.NoLostRowIff: time stamps are numbers, so the `T` separator that the file format also admits is not modelled; a vertex holds the contents last written, so an INSERT without properties empties it; a run's rows are chosen when it begins.
- IndexBuild.BuildOne: the graph does not change between the two passes of one run; a failing insert inserts the first rows of its batch, not any of them; vectors, sparse encodings and the collection's schema are not modelled.
- StubCleanup.ExecuteCleanup: VIDs and edge types are their own cleaned text; DELETE VERTEX is modelled without the service's own edge check, so safety does not rely on it; writers between planning and executing are outside the model.
- EdgeRecords.BestIsEarliestMaximum: confidences are millionths; a textual confidence, which no producer makes, counts as 0 instead of being parsed.
- NgqlText.FloatReadsBack: floats are millionths, as printed; rounding to six decimals, negative zero and non-finite values are not modelled.
- TtlStore.LazyRefinesEager: JSON values are their own copies; the lock is the atomicity of each operation.
- PatentEntityWriter.LoadPatents: the statement text, schema creation, the reported keyword and edge counters and a failing page query are not modelled; rows of one statement take effect in order.
- RelationWriter.Load: counters, the review file and argument ranges of the vector options are not modelled.
- Citations.NormalizeIdempotent: NFKC with case folding is a parameter; it is only asked to leave lower-case ASCII letters and digits alone.
- `canonical_entities` (which catalogue rows count as people and organizations), `names_from`, `normalize_name` and JSON parsing of columns: their results are inputs.
- `load_authored_by_fallback`, `load_coauthors`, `load_studied_at`, `load_paper_journal_graph.py`: the same existence checks or paging, without the memo or watermark arguments.
- `_extract_relation_payload` and people tokenizing of `dao/scholar.py`: field selection and regular expressions; their results are inputs.
- Dry runs, previews, logging, HTTP, MySQL, S3, Redis and Milvus clients, schema DDL, embeddings, BM25, fuzzy name scoring and LLM calls.
- Concurrent runs of two loaders against one graph.
- Python's sort is a stable insertion sort, its dictionaries are insertion-ordered; both are the language's guarantees.
