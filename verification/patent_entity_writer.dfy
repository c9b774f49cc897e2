/** Patent, keyword and family vertices written in batches that are halved whenever
    the graph service rejects one of a batch's five statements. */
module PatentEntityWriter {
  import opened Dicts
  import opened MapFacts
  import opened TextOps

  /** Foreign text functions: NFKC plus white-space squashing, case folding, MD5 hex. */
  datatype Text = Text(squash: string -> string, fold: string -> string, digest: string -> string)

  /** A source row; `payload` stands for the printed values of its Patent properties. */
  datatype Row = Row(sourceId: nat, patentId: string, keywords: seq<string>, family: string, payload: string)

  function Id(r: Row): string { Strip(r.patentId) }

  function PatentVid(r: Row): string { "patent_" + Id(r) }

  function KeywordVid(t: Text, word: string): string { "keyword_" + t.digest(t.fold(word)) }

  function FamilyVid(number: string): string { "patent_family_" + number }

  // ---------------------------------------------------------------------------
  // The part of the graph this loader writes. INSERT is an upsert, edges have rank 0.
  // ---------------------------------------------------------------------------

  type Link = (string, string)

  datatype Entities = Entities(
    patents: map<string, string>,
    keywords: map<string, string>,
    hasKeyword: map<Link, string>,
    families: map<string, string>,
    members: map<Link, string>)
  {
    function Upsert(e: Entities): Entities {
      Entities(patents + e.patents, keywords + e.keywords, hasKeyword + e.hasKeyword,
               families + e.families, members + e.members)
    }

    /** The cells of this statement whose keys also occur in `mask`. */
    function Restrict(mask: Entities): Entities {
      Entities(map k | k in patents && k in mask.patents :: patents[k],
               map k | k in keywords && k in mask.keywords :: keywords[k],
               map k | k in hasKeyword && k in mask.hasKeyword :: hasKeyword[k],
               map k | k in families && k in mask.families :: families[k],
               map k | k in members && k in mask.members :: members[k])
    }

    /** `this` touches no cell that `e` does not write. */
    ghost predicate Within(e: Entities) {
      && patents.Keys <= e.patents.Keys
      && keywords.Keys <= e.keywords.Keys
      && hasKeyword.Keys <= e.hasKeyword.Keys
      && families.Keys <= e.families.Keys
      && members.Keys <= e.members.Keys
    }
  }

  const NOTHING := Entities(map[], map[], map[], map[], map[])

  lemma UpsertAssociative(a: Entities, b: Entities, c: Entities)
    ensures a.Upsert(b).Upsert(c) == a.Upsert(b.Upsert(c))
  {
    UnionAssociative(a.patents, b.patents, c.patents);
    UnionAssociative(a.keywords, b.keywords, c.keywords);
    UnionAssociative(a.hasKeyword, b.hasKeyword, c.hasKeyword);
    UnionAssociative(a.families, b.families, c.families);
    UnionAssociative(a.members, b.members, c.members);
  }

  lemma UpsertNothing(a: Entities)
    ensures a.Upsert(NOTHING) == a
  {
    UnionEmpty(a.patents);
    UnionEmpty(a.keywords);
    UnionEmpty(a.hasKeyword);
    UnionEmpty(a.families);
    UnionEmpty(a.members);
  }

  // ---------------------------------------------------------------------------
  // What one row, and then one batch, writes
  // ---------------------------------------------------------------------------

  /** Distinct squashed keywords, by folded spelling, the first spelling kept. */
  function Words(t: Text, raw: seq<string>): seq<string> {
    if raw == [] then []
    else
      var done := Words(t, raw[..|raw| - 1]);
      var word := t.squash(raw[|raw| - 1]);
      if word != "" && t.fold(word) !in Folds(t, done) then done + [word] else done
  }

  function Folds(t: Text, words: seq<string>): set<string> {
    set w | w in words :: t.fold(w)
  }

  /** The words are the squashed keywords that are not empty, one per folded spelling. */
  lemma {:induction false} WordsAreDistinct(t: Text, raw: seq<string>)
    ensures forall i, j | 0 <= i < j < |Words(t, raw)| :: t.fold(Words(t, raw)[i]) != t.fold(Words(t, raw)[j])
    ensures forall k | 0 <= k < |raw| && t.squash(raw[k]) != "" :: t.fold(t.squash(raw[k])) in Folds(t, Words(t, raw))
  {
    if raw != [] {
      WordsAreDistinct(t, raw[..|raw| - 1]);
    }
  }

  /** Each of them is the first keyword of its folded spelling. */
  lemma {:induction false} WordsAreFirst(t: Text, raw: seq<string>, i: nat) returns (k: nat)
    requires i < |Words(t, raw)|
    ensures k < |raw| && t.squash(raw[k]) == Words(t, raw)[i] != ""
    ensures forall j | 0 <= j < k && t.squash(raw[j]) != "" :: t.fold(t.squash(raw[j])) != t.fold(Words(t, raw)[i])
  {
    var before := raw[..|raw| - 1];
    if i < |Words(t, before)| {
      k := WordsAreFirst(t, before, i);
    } else {
      k := |raw| - 1;
      WordsAreDistinct(t, before);
    }
  }

  /** More keywords reorder nothing: the words stand in the order of their first occurrence. */
  lemma {:induction false} WordsGrow(t: Text, raw: seq<string>, more: seq<string>)
    ensures Words(t, raw) <= Words(t, raw + more)
  {
    if more == [] {
      assert raw + more == raw;
    } else {
      WordsGrow(t, raw, more[..|more| - 1]);
      assert (raw + more)[..|raw + more| - 1] == raw + more[..|more| - 1];
    }
  }

  function PatentCell(r: Row): map<string, string> {
    map[PatentVid(r) := r.payload]
  }

  /** Keyword vertices of the first words of a row; the last spelling of a VID stays. */
  function WordCells(t: Text, words: seq<string>): map<string, string> {
    if words == [] then map[]
    else
      var word := words[|words| - 1];
      WordCells(t, words[..|words| - 1])[KeywordVid(t, word) := word]
  }

  function KeywordCells(t: Text, r: Row): map<string, string> {
    WordCells(t, Words(t, r.keywords))
  }

  function RecordId(r: Row, index: nat): string {
    Id(r) + ":keywords:" + Decimal(index)
  }

  /** HAS_KEYWORD edges of the first words of a row; the first record of a key stays. */
  function LinkCells(t: Text, r: Row, words: seq<string>): map<Link, string> {
    if words == [] then map[]
    else
      var before := LinkCells(t, r, words[..|words| - 1]);
      var key := (PatentVid(r), KeywordVid(t, words[|words| - 1]));
      if key in before then before else before[key := RecordId(r, |words| - 1)]
  }

  function HasKeywordCells(t: Text, r: Row): map<Link, string> {
    LinkCells(t, r, Words(t, r.keywords))
  }

  function FamilyNumber(r: Row): string { Strip(r.family) }

  function FamilyCell(r: Row): map<string, string> {
    if FamilyNumber(r) == "" || Id(r) == "" then map[]
    else map[FamilyVid(FamilyNumber(r)) := FamilyNumber(r)]
  }

  function MemberCell(r: Row): map<Link, string> {
    if FamilyNumber(r) == "" || Id(r) == "" then map[]
    else map[(PatentVid(r), FamilyVid(FamilyNumber(r))) := Id(r)]
  }

  function Links(t: Text, rows: seq<Row>): map<Link, string> {
    FirstWins(rows, r => HasKeywordCells(t, r))
  }

  /** Everything one accepted batch writes. */
  function BatchCells(t: Text, rows: seq<Row>): Entities {
    Entities(LastWins(rows, PatentCell), LastWins(rows, r => KeywordCells(t, r)), Links(t, rows),
             LastWins(rows, FamilyCell), LastWins(rows, MemberCell))
  }

  // ---------------------------------------------------------------------------
  // Building the statements
  // ---------------------------------------------------------------------------

  method KeywordValues(t: Text, raw: seq<string>) returns (result: seq<string>)
    ensures result == Words(t, raw)
  {
    result := [];
    var seen: set<string> := {};
    for i := 0 to |raw|
      invariant result == Words(t, raw[..i])
      invariant seen == Folds(t, result)
    {
      assert raw[..i + 1][..i] == raw[..i];
      var word := t.squash(raw[i]);
      var key := t.fold(word);
      if word != "" && key !in seen {
        seen := seen + {key};
        result := result + [word];
      }
    }
    assert raw[..|raw|] == raw;
  }

  method KeywordStatements(t: Text, rows: seq<Row>)
    returns (vertices: map<string, string>, edges: map<Link, string>)
    ensures vertices == BatchCells(t, rows).keywords
    ensures edges == BatchCells(t, rows).hasKeyword
  {
    vertices, edges := map[], map[];
    ghost var kw := (r: Row) => KeywordCells(t, r);
    for i := 0 to |rows|
      invariant vertices == LastWins(rows[..i], kw)
      invariant edges == Links(t, rows[..i])
    {
      assert rows[..i + 1][..i] == rows[..i];
      var words := KeywordValues(t, rows[i].keywords);
      vertices, edges := AddRowWords(t, rows[i], words, vertices, edges);
    }
    assert rows[..|rows|] == rows;
  }

  /** The inner loop over one row's words. */
  method AddRowWords(t: Text, row: Row, words: seq<string>, v0: map<string, string>, e0: map<Link, string>)
    returns (vertices: map<string, string>, edges: map<Link, string>)
    ensures vertices == v0 + WordCells(t, words)
    ensures edges == LinkCells(t, row, words) + e0
  {
    hide RecordId, PatentVid;
    vertices, edges := v0, e0;
    for j := 0 to |words|
      invariant vertices == v0 + WordCells(t, words[..j])
      invariant edges == LinkCells(t, row, words[..j]) + e0
    {
      assert words[..j + 1][..j] == words[..j];
      var vid := KeywordVid(t, words[j]);
      UnionPut(v0, WordCells(t, words[..j]), vid, words[j]);
      vertices := vertices[vid := words[j]];
      if (PatentVid(row), vid) !in edges {
        edges := edges[(PatentVid(row), vid) := RecordId(row, j)];
      }
    }
    assert words[..|words|] == words;
  }

  method FamilyStatements(rows: seq<Row>)
    returns (families: map<string, string>, edges: map<Link, string>)
    ensures families == LastWins(rows, FamilyCell)
    ensures edges == LastWins(rows, MemberCell)
  {
    families, edges := map[], map[];
    for i := 0 to |rows|
      invariant families == LastWins(rows[..i], FamilyCell)
      invariant edges == LastWins(rows[..i], MemberCell)
    {
      assert rows[..i + 1][..i] == rows[..i];
      var number, patentId := FamilyNumber(rows[i]), Id(rows[i]);
      if number == "" || patentId == "" {
        UnionEmpty(families);
        UnionEmpty(edges);
      } else {
        UnionSingleton(families, FamilyVid(number), number);
        UnionSingleton(edges, (PatentVid(rows[i]), FamilyVid(number)), patentId);
        families := families[FamilyVid(number) := number];
        edges := edges[(PatentVid(rows[i]), FamilyVid(number)) := patentId];
      }
    }
    assert rows[..|rows|] == rows;
  }

  // ---------------------------------------------------------------------------
  // Writing with bisection
  // ---------------------------------------------------------------------------

  predicate NoBlankId(rows: seq<Row>) {
    forall r | r in rows :: Id(r) != ""
  }

  ghost predicate DistinctIds(rows: seq<Row>) {
    forall i, j | 0 <= i < j < |rows| :: Id(rows[i]) != Id(rows[j])
  }

  class EntityGraph {
    var state: Entities

    /** The service accepts a statement, or rejects it after applying any part of it. */
    method ExecuteWrite(statement: Entities) returns (ok: bool)
      modifies this
      ensures ok ==> state == old(state).Upsert(statement)
      ensures !ok ==> exists part: Entities :: part.Within(statement) && state == old(state).Upsert(part)
    {
      ok := *;
      var mask: Entities := *;
      var part := if ok then statement else statement.Restrict(mask);
      state := state.Upsert(part);
    }
  }

  function Left(rows: seq<Row>): seq<Row> { rows[..|rows| / 2] }

  function Right(rows: seq<Row>): seq<Row> { rows[|rows| / 2..] }

  /** `after` is `before` plus some cells, whatever their values, that the batch also writes. */
  ghost predicate Partial(t: Text, rows: seq<Row>, before: Entities, after: Entities) {
    exists part: Entities :: part.Within(BatchCells(t, rows)) && after == before.Upsert(part)
  }

  /** The graphs a normally returning call may leave, over every history of rejections. */
  ghost predicate Returns(t: Text, rows: seq<Row>, before: Entities, after: Entities)
    decreases |rows|
  {
    if rows == [] then after == before
    else
      || (NoBlankId(rows) && after == before.Upsert(BatchCells(t, rows)))
      || (|rows| > 1 && exists spoiled, between ::
            && Partial(t, rows, before, spoiled)
            && Returns(t, Left(rows), spoiled, between)
            && Returns(t, Right(rows), between, after))
  }

  /** Four of the five cell kinds of consecutive batches simply follow each other. */
  lemma BatchConcat(t: Text, a: seq<Row>, b: seq<Row>)
    ensures Links(t, a + b) == Links(t, b) + Links(t, a)
    ensures BatchCells(t, a + b) ==
            BatchCells(t, a).Upsert(BatchCells(t, b)).(hasKeyword := Links(t, a + b))
  {
    LastWinsConcat(a, b, PatentCell);
    LastWinsConcat(a, b, r => KeywordCells(t, r));
    FirstWinsConcat(a, b, r => HasKeywordCells(t, r));
    LastWinsConcat(a, b, FamilyCell);
    LastWinsConcat(a, b, MemberCell);
  }

  lemma BatchSplit(t: Text, rows: seq<Row>)
    ensures Links(t, rows) == Links(t, Right(rows)) + Links(t, Left(rows))
    ensures BatchCells(t, rows) ==
            BatchCells(t, Left(rows)).Upsert(BatchCells(t, Right(rows))).(hasKeyword := Links(t, rows))
  {
    assert Left(rows) + Right(rows) == rows;
    BatchConcat(t, Left(rows), Right(rows));
  }

  lemma PartialStep(t: Text, rows: seq<Row>, before: Entities, between: Entities, part: Entities)
    requires Partial(t, rows, before, between)
    requires part.Within(BatchCells(t, rows))
    ensures Partial(t, rows, before, between.Upsert(part))
  {
    var earlier: Entities :| earlier.Within(BatchCells(t, rows)) && between == before.Upsert(earlier);
    UpsertAssociative(before, earlier, part);
    assert earlier.Upsert(part).Within(BatchCells(t, rows));
  }

  /** What a half touches, its batch may touch. */
  lemma PartialOfHalf(t: Text, rows: seq<Row>, half: seq<Row>, before: Entities, between: Entities, after: Entities)
    requires half == Left(rows) || half == Right(rows)
    requires Partial(t, rows, before, between) && Partial(t, half, between, after)
    ensures Partial(t, rows, before, after)
  {
    var part: Entities :| part.Within(BatchCells(t, half)) && after == between.Upsert(part);
    BatchSplit(t, rows);
    assert part.Within(BatchCells(t, rows));
    PartialStep(t, rows, before, between, part);
  }

  /** Sends one of a batch's statements, unless it is empty. */
  method Send(t: Text, g: EntityGraph, rows: seq<Row>, ghost before: Entities, statement: Entities)
    returns (ok: bool)
    requires statement.Within(BatchCells(t, rows))
    requires Partial(t, rows, before, g.state)
    modifies g
    ensures Partial(t, rows, before, g.state)
    ensures ok ==> g.state == old(g.state).Upsert(statement)
  {
    if statement == NOTHING {
      UpsertNothing(g.state);
      return true;
    }
    ok := g.ExecuteWrite(statement);
    if ok {
      PartialStep(t, rows, before, old(g.state), statement);
    } else {
      ghost var part: Entities :| part.Within(statement) && g.state == old(g.state).Upsert(part);
      PartialStep(t, rows, before, old(g.state), part);
    }
  }

  lemma FiveStatements(g: Entities, e: Entities)
    ensures g.Upsert(NOTHING.(patents := e.patents)).Upsert(NOTHING.(keywords := e.keywords))
             .Upsert(NOTHING.(hasKeyword := e.hasKeyword)).Upsert(NOTHING.(families := e.families))
             .Upsert(NOTHING.(members := e.members)) == g.Upsert(e)
  {
    UnionEmpty(g.patents);
    UnionEmpty(g.patents + e.patents);
    UnionEmpty(g.keywords);
    UnionEmpty(g.keywords + e.keywords);
    UnionEmpty(g.hasKeyword);
    UnionEmpty(g.hasKeyword + e.hasKeyword);
    UnionEmpty(g.families);
    UnionEmpty(g.families + e.families);
    UnionEmpty(g.members);
  }

  /** The guarded part of a call: payloads first, then up to five statements. */
  method TryBatch(t: Text, g: EntityGraph, rows: seq<Row>) returns (ok: bool)
    modifies g
    ensures ok ==> NoBlankId(rows) && g.state == old(g.state).Upsert(BatchCells(t, rows))
    ensures !ok ==> Partial(t, rows, old(g.state), g.state)
  {
    ghost var before, whole := g.state, BatchCells(t, rows);
    UpsertNothing(before);
    assert NOTHING.Within(whole);
    assert Partial(t, rows, before, before);
    if !NoBlankId(rows) {
      return false;
    }
    ok := Send(t, g, rows, before, NOTHING.(patents := LastWins(rows, PatentCell)));
    if !ok { return; }
    var vertices, edges := KeywordStatements(t, rows);
    ok := Send(t, g, rows, before, NOTHING.(keywords := vertices));
    if !ok { return; }
    ok := Send(t, g, rows, before, NOTHING.(hasKeyword := edges));
    if !ok { return; }
    var families, members := FamilyStatements(rows);
    ok := Send(t, g, rows, before, NOTHING.(families := families));
    if !ok { return; }
    ok := Send(t, g, rows, before, NOTHING.(members := members));
    FiveStatements(before, whole);
  }

  /** Writes the rows; a rejected batch is retried as two halves, a rejected single row raises.
      Even then only cells of these rows have been touched. */
  method WriteEntityBatch(t: Text, g: EntityGraph, rows: seq<Row>) returns (ok: bool, ghost calls: nat)
    modifies g
    ensures ok ==> Returns(t, rows, old(g.state), g.state)
    ensures Partial(t, rows, old(g.state), g.state)
    ensures calls <= if rows == [] then 1 else 2 * |rows| - 1
    decreases |rows|
  {
    calls := 1;
    ghost var before := g.state;
    if rows == [] {
      UpsertNothing(before);
      assert NOTHING.Within(BatchCells(t, rows));
      return true, calls;
    }
    ok := TryBatch(t, g, rows);
    if ok {
      assert BatchCells(t, rows).Within(BatchCells(t, rows));
      return;
    }
    if |rows| == 1 {
      return false, calls;
    }
    ghost var spoiled, more := g.state, 0;
    ok, more := WriteEntityBatch(t, g, Left(rows));
    calls := calls + more;
    ghost var between := g.state;
    PartialOfHalf(t, rows, Left(rows), before, spoiled, between);
    if !ok {
      return;
    }
    ok, more := WriteEntityBatch(t, g, Right(rows));
    calls := calls + more;
    PartialOfHalf(t, rows, Right(rows), before, between, g.state);
  }

  // ---------------------------------------------------------------------------
  // Confluence: the graph after a normal return does not depend on what was rejected
  // ---------------------------------------------------------------------------

  /** Along the halves that decide which batch writes `k` last, the record id never differs. */
  predicate Settled(t: Text, rows: seq<Row>, k: Link)
    decreases |rows|
  {
    |rows| <= 1 ||
    if k in Links(t, Right(rows)) then
      && (k in Links(t, Left(rows)) ==> Links(t, Left(rows))[k] == Links(t, Right(rows))[k])
      && Settled(t, Right(rows), k)
    else
      Settled(t, Left(rows), k)
  }

  ghost predicate Accepted(t: Text, rows: seq<Row>, before: Entities, after: Entities) {
    after == before.Upsert(BatchCells(t, rows))
  }

  /** The two halves of a history whose first attempt was rejected. */
  lemma RejectedHistory(t: Text, rows: seq<Row>, before: Entities, after: Entities)
    returns (part: Entities, between: Entities)
    requires Returns(t, rows, before, after) && rows != [] && !Accepted(t, rows, before, after)
    ensures |rows| > 1 && part.Within(BatchCells(t, rows))
    ensures Returns(t, Left(rows), before.Upsert(part), between) && Returns(t, Right(rows), between, after)
  {
    var spoiled;
    spoiled, between :|
      && Partial(t, rows, before, spoiled)
      && Returns(t, Left(rows), spoiled, between)
      && Returns(t, Right(rows), between, after);
    part :| part.Within(BatchCells(t, rows)) && spoiled == before.Upsert(part);
  }

  /** Two later writes that cover `part` hide it. */
  lemma HalvesHidePart<K, V>(before: map<K, V>, part: map<K, V>, left: map<K, V>, right: map<K, V>)
    requires part.Keys <= (left + right).Keys
    ensures before + part + left + right == before + (left + right)
  {
    UnionAssociative(before + part, left, right);
    UnionAbsorbs(before, part, left + right);
  }

  /** Vertices and family edges: confluent for every batch. */
  lemma {:induction false} VerticesConfluent(t: Text, rows: seq<Row>, before: Entities, after: Entities)
    requires Returns(t, rows, before, after)
    ensures after == before.Upsert(BatchCells(t, rows)).(hasKeyword := after.hasKeyword)
    decreases |rows|
  {
    if rows == [] {
      assert BatchCells(t, rows) == NOTHING;
      UpsertNothing(before);
    } else if !Accepted(t, rows, before, after) {
      var part, between := RejectedHistory(t, rows, before, after);
      VerticesConfluent(t, Left(rows), before.Upsert(part), between);
      VerticesConfluent(t, Right(rows), between, after);
      BatchSplit(t, rows);
      VerticesOfHalves(before, part, BatchCells(t, Left(rows)), BatchCells(t, Right(rows)), BatchCells(t, rows));
    }
  }

  lemma VerticesOfHalves(before: Entities, part: Entities, left: Entities, right: Entities, whole: Entities)
    requires part.Within(whole) && whole == left.Upsert(right).(hasKeyword := whole.hasKeyword)
    ensures before.Upsert(part).Upsert(left).Upsert(right).(hasKeyword := map[])
         == before.Upsert(whole).(hasKeyword := map[])
  {
    HalvesHidePart(before.patents, part.patents, left.patents, right.patents);
    HalvesHidePart(before.keywords, part.keywords, left.keywords, right.keywords);
    HalvesHidePart(before.families, part.families, left.families, right.families);
    HalvesHidePart(before.members, part.members, left.members, right.members);
  }

  /** `after` has the keys of `cells` besides those of `before`, and agrees with `before` elsewhere. */
  ghost predicate WritesOver<K, V>(before: map<K, V>, after: map<K, V>, cells: map<K, V>) {
    && after.Keys == before.Keys + cells.Keys
    && forall k | k in before && k !in cells :: after[k] == before[k]
  }

  lemma WritesOverTwice<K, V>(before: map<K, V>, part: map<K, V>, between: map<K, V>, after: map<K, V>,
                              left: map<K, V>, right: map<K, V>, whole: map<K, V>)
    requires whole.Keys == left.Keys + right.Keys && part.Keys <= whole.Keys
    requires WritesOver(before + part, between, left) && WritesOver(between, after, right)
    ensures WritesOver(before, after, whole)
  {
  }

  lemma WritesOverUnion<K, V>(before: map<K, V>, cells: map<K, V>)
    ensures WritesOver(before, before + cells, cells)
  {
  }

  lemma WritesOverExact<K, V>(before: map<K, V>, after: map<K, V>, cells: map<K, V>)
    requires WritesOver(before, after, cells)
    requires forall k | k in cells :: after[k] == cells[k]
    ensures after == before + cells
  {
  }

  lemma LinkKeysOfHalves(t: Text, rows: seq<Row>, before: Entities, part: Entities,
                         between: map<Link, string>, after: map<Link, string>)
    requires part.Within(BatchCells(t, rows))
    requires WritesOver(before.Upsert(part).hasKeyword, between, Links(t, Left(rows)))
    requires WritesOver(between, after, Links(t, Right(rows)))
    ensures WritesOver(before.hasKeyword, after, Links(t, rows))
  {
    BatchSplit(t, rows);
    WritesOverTwice(before.hasKeyword, part.hasKeyword, between, after,
                    Links(t, Left(rows)), Links(t, Right(rows)), Links(t, rows));
  }

  /** Which HAS_KEYWORD edges exist never depends on the rejections. */
  lemma {:induction false} LinkKeys(t: Text, rows: seq<Row>, before: Entities, after: Entities)
    requires Returns(t, rows, before, after)
    ensures WritesOver(before.hasKeyword, after.hasKeyword, Links(t, rows))
    decreases |rows|
  {
    if rows == [] {
      assert Links(t, rows) == map[];
    } else if Accepted(t, rows, before, after) {
      WritesOverUnion(before.hasKeyword, Links(t, rows));
    } else {
      var part, between := RejectedHistory(t, rows, before, after);
      LinkKeys(t, Left(rows), before.Upsert(part), between);
      LinkKeys(t, Right(rows), between, after);
      LinkKeysOfHalves(t, rows, before, part, between.hasKeyword, after.hasKeyword);
    }
  }

  /** A settled edge ends with the record id an accepted batch gives it. */
  lemma {:induction false} LinkSettled(t: Text, rows: seq<Row>, before: Entities, after: Entities, k: Link)
    requires Returns(t, rows, before, after)
    requires k in Links(t, rows) && Settled(t, rows, k)
    ensures k in after.hasKeyword && after.hasKeyword[k] == Links(t, rows)[k]
    decreases |rows|
  {
    if !Accepted(t, rows, before, after) {
      var part, between := RejectedHistory(t, rows, before, after);
      BatchSplit(t, rows);
      if k in Links(t, Right(rows)) {
        LinkSettled(t, Right(rows), between, after, k);
      } else {
        LinkSettled(t, Left(rows), before.Upsert(part), between, k);
        LinkKeys(t, Right(rows), between, after);
      }
    }
  }

  ghost predicate Confluent(t: Text, rows: seq<Row>) {
    forall before, after | Returns(t, rows, before, after) :: after == before.Upsert(BatchCells(t, rows))
  }

  /** A history that leaves another record id on an unsettled edge. */
  lemma {:induction false} UnsettledHistory(t: Text, rows: seq<Row>, k: Link, before: Entities) returns (after: Entities)
    requires NoBlankId(rows) && k in Links(t, rows) && !Settled(t, rows, k)
    ensures Returns(t, rows, before, after)
    ensures k in after.hasKeyword && after.hasKeyword[k] != Links(t, rows)[k]
    decreases |rows|
  {
    BatchSplit(t, rows);
    UpsertNothing(before);
    assert NOTHING.Within(BatchCells(t, rows));
    assert Partial(t, rows, before, before);
    var left, right := BatchCells(t, Left(rows)), BatchCells(t, Right(rows));
    var between := before.Upsert(left);
    assert Returns(t, Left(rows), before, between);
    if k !in Links(t, Right(rows)) {
      between := UnsettledHistory(t, Left(rows), k, before);
      after := between.Upsert(right);
    } else if k in Links(t, Left(rows)) && Links(t, Left(rows))[k] != Links(t, Right(rows))[k] {
      after := between.Upsert(right);
    } else {
      after := UnsettledHistory(t, Right(rows), k, between);
    }
    assert Returns(t, Left(rows), before, between) && Returns(t, Right(rows), between, after);
  }

  ghost predicate AllSettled(t: Text, rows: seq<Row>) {
    forall k | k in Links(t, rows) :: Settled(t, rows, k)
  }

  lemma LinksConfluent(t: Text, rows: seq<Row>, before: Entities, after: Entities)
    requires AllSettled(t, rows) && Returns(t, rows, before, after)
    ensures after.hasKeyword == before.hasKeyword + Links(t, rows)
  {
    LinkKeys(t, rows, before, after);
    var links := Links(t, rows);
    forall k | k in links
      ensures after.hasKeyword[k] == links[k]
    {
      LinkSettled(t, rows, before, after, k);
    }
    WritesOverExact(before.hasKeyword, after.hasKeyword, links);
  }

  lemma SettledIsConfluent(t: Text, rows: seq<Row>, before: Entities, after: Entities)
    requires AllSettled(t, rows) && Returns(t, rows, before, after)
    ensures after == before.Upsert(BatchCells(t, rows))
  {
    VerticesConfluent(t, rows, before, after);
    LinksConfluent(t, rows, before, after);
  }

  /** A batch with a blank id never returns: in the end its row is retried alone and raises. */
  lemma {:induction false} BlankRaises(t: Text, rows: seq<Row>, before: Entities, after: Entities)
    requires Returns(t, rows, before, after)
    ensures NoBlankId(rows)
    decreases |rows|
  {
    hide Id, BatchCells, Partial;
    if rows != [] && !(NoBlankId(rows) && Accepted(t, rows, before, after)) {
      var spoiled, between :| Partial(t, rows, before, spoiled)
                           && Returns(t, Left(rows), spoiled, between) && Returns(t, Right(rows), between, after);
      BlankRaises(t, Left(rows), spoiled, between);
      BlankRaises(t, Right(rows), between, after);
      NoBlankHalves(rows);
    }
  }

  lemma NoBlankHalves(rows: seq<Row>)
    requires NoBlankId(Left(rows)) && NoBlankId(Right(rows))
    ensures NoBlankId(rows)
  {
    hide Id;
    assert rows == Left(rows) + Right(rows);
  }

  /** Exactly when rejections cannot influence the final graph. */
  lemma ConfluentIff(t: Text, rows: seq<Row>)
    ensures Confluent(t, rows) <==> !NoBlankId(rows) || AllSettled(t, rows)
  {
    hide NoBlankId;
    if AllSettled(t, rows) || !NoBlankId(rows) {
      forall before, after | Returns(t, rows, before, after)
        ensures after == before.Upsert(BatchCells(t, rows))
      {
        BlankRaises(t, rows, before, after);
        SettledIsConfluent(t, rows, before, after);
      }
    } else {
      var k :| k in Links(t, rows) && !Settled(t, rows, k);
      var after := UnsettledHistory(t, rows, k, NOTHING);
      assert after != NOTHING.Upsert(BatchCells(t, rows));
    }
  }

  lemma {:induction false} LinkSource(t: Text, rows: seq<Row>, k: Link) returns (i: nat)
    requires k in Links(t, rows)
    ensures i < |rows| && k.0 == PatentVid(rows[i])
  {
    var last := |rows| - 1;
    if k in Links(t, rows[..last]) {
      i := LinkSource(t, rows[..last], k);
    } else {
      i := last;
      LinkCellSource(t, rows[last], Words(t, rows[last].keywords), k);
    }
  }

  lemma {:induction false} LinkCellSource(t: Text, r: Row, words: seq<string>, k: Link)
    requires k in LinkCells(t, r, words)
    ensures k.0 == PatentVid(r)
  {
    if k != (PatentVid(r), KeywordVid(t, words[|words| - 1])) {
      LinkCellSource(t, r, words[..|words| - 1], k);
    }
  }

  lemma PatentVidInjective(a: Row, b: Row)
    requires PatentVid(a) == PatentVid(b)
    ensures Id(a) == Id(b)
  {
    assert PatentVid(a)[7..] == Id(a);
    assert PatentVid(b)[7..] == Id(b);
  }

  lemma DistinctLinks(t: Text, a: seq<Row>, b: seq<Row>)
    requires DistinctIds(a + b)
    ensures Links(t, a).Keys !! Links(t, b).Keys
  {
    forall k | k in Links(t, a) && k in Links(t, b)
      ensures false
    {
      var i := LinkSource(t, a, k);
      var j := LinkSource(t, b, k);
      assert (a + b)[i] == a[i] && (a + b)[|a| + j] == b[j];
      PatentVidInjective(a[i], b[j]);
    }
  }

  lemma {:induction false} DistinctIsSettled(t: Text, rows: seq<Row>, k: Link)
    requires DistinctIds(rows) && k in Links(t, rows)
    ensures Settled(t, rows, k)
    decreases |rows|
  {
    hide Links, BatchCells, Id;
    if |rows| > 1 {
      var left, right := Left(rows), Right(rows);
      assert left + right == rows;
      BatchSplit(t, rows);
      DistinctLinks(t, left, right);
      if k in Links(t, right) {
        DistinctIsSettled(t, right, k);
      } else {
        DistinctIsSettled(t, left, k);
      }
    }
  }

  /** With distinct patent ids a normal return always leaves the graph of one accepted batch. */
  lemma DistinctIsConfluent(t: Text, rows: seq<Row>, before: Entities, after: Entities)
    requires DistinctIds(rows) && Returns(t, rows, before, after)
    ensures after == before.Upsert(BatchCells(t, rows))
  {
    forall k | k in Links(t, rows) {
      DistinctIsSettled(t, rows, k);
    }
    SettledIsConfluent(t, rows, before, after);
  }

  /** Two paddings of one patent id in a batch: a rejection changes the surviving record id. */
  lemma PaddedDuplicateDiverges() returns (t: Text, rows: seq<Row>)
    ensures NoBlankId(rows) && |rows| == 2 && rows[0].patentId != rows[1].patentId
    ensures !Confluent(t, rows)
  {
    hide RecordId, Links, Settled, Confluent, NoBlankId, Strip;
    t := Text(s => s, s => s, s => s);
    var first, second := PaddedRows();
    rows := [first, second];
    PaddedRow(t, first, ["x", "y"]);
    PaddedRow(t, second, ["y"]);
    RecordIdsDiffer(first, second);
    UnsettledPair(t, first, second, (PatentVid(first), KeywordVid(t, "y")));
    ConfluentIff(t, rows);
  }

  lemma PaddedRows() returns (first: Row, second: Row)
    ensures first.keywords == ["x", "y"] && second.keywords == ["y"] && first.patentId != second.patentId
    ensures NoBlankId([first, second]) && PatentVid(first) == PatentVid(second)
  {
    first, second := Row(1, "A", ["x", "y"], "", ""), Row(2, " A", ["y"], "", "");
    assert Id(first) == "A" && Id(second) == "A";
  }

  lemma UnsettledPair(t: Text, first: Row, second: Row, k: Link)
    requires k in Links(t, [first]) && k in Links(t, [second]) && Links(t, [first])[k] != Links(t, [second])[k]
    ensures k in Links(t, [first, second]) && !Settled(t, [first, second], k)
  {
    hide Links;
    var rows := [first, second];
    assert Left(rows) == [first] && Right(rows) == [second];
    BatchSplit(t, rows);
  }

  /** Text functions that change nothing. */
  ghost predicate Plain(t: Text) {
    forall s :: t.squash(s) == s && t.fold(s) == s && t.digest(s) == s
  }

  lemma RecordIdsDiffer(a: Row, b: Row)
    ensures RecordId(a, 1) != RecordId(b, 0)
  {
    assert RecordId(a, 1)[|RecordId(a, 1)| - 1] == '1';
    assert RecordId(b, 0)[|RecordId(b, 0)| - 1] == '0';
  }

  lemma SingleRowLinks(t: Text, r: Row)
    ensures Links(t, [r]) == HasKeywordCells(t, r)
  {
    var cells := (row: Row) => HasKeywordCells(t, row);
    assert FirstWins([r][..0], cells) == map[];
    UnionEmpty(cells(r));
  }

  lemma PaddedRow(t: Text, r: Row, words: seq<string>)
    requires Plain(t) && (words == ["y"] || words == ["x", "y"]) && r.keywords == words
    ensures var k := (PatentVid(r), KeywordVid(t, "y"));
            k in Links(t, [r]) && Links(t, [r])[k] == RecordId(r, |words| - 1)
  {
    hide RecordId, Strip;
    SingleRowLinks(t, r);
    var before := words[..|words| - 1];
    assert before == [] || (before == ["x"] && before[..0] == []);
    PlainWords(t, words);
    assert LinkCells(t, r, []) == map[];
    if before == ["x"] {
      assert KeywordVid(t, "y")[8..] == "y" && KeywordVid(t, "x")[8..] == "x";
      assert LinkCells(t, r, before) == map[(PatentVid(r), KeywordVid(t, "x")) := RecordId(r, 0)];
    }
  }

  lemma PlainWords(t: Text, words: seq<string>)
    requires Plain(t) && (words == ["y"] || words == ["x", "y"])
    ensures Words(t, words) == words
  {
    var before := words[..|words| - 1];
    assert before == [] || (before == ["x"] && before[..0] == []);
    assert Words(t, before) == before;
  }

  // ---------------------------------------------------------------------------
  // Loading the whole table by key-set pages
  // ---------------------------------------------------------------------------

  /** The extraction query's row order: by numeric id, which two rows may share ("7" and "07"). Each query
      may order such rows as it likes; but no two queries return the same id, so one table order is enough. */
  ghost predicate NonDecreasing(table: seq<Row>) {
    forall i, j | 0 <= i < j < |table| :: table[i].sourceId <= table[j].sourceId
  }

  /** Rows with an id above `last`, in order. */
  function After(table: seq<Row>, last: nat): seq<Row> {
    if table == [] then []
    else
      var before, row := After(table[..|table| - 1], last), table[|table| - 1];
      if row.sourceId > last then before + [row] else before
  }

  function MaxId(rows: seq<Row>): nat
    requires rows != []
  {
    if |rows| == 1 then rows[0].sourceId
    else if rows[0].sourceId > MaxId(rows[1..]) then rows[0].sourceId else MaxId(rows[1..])
  }

  lemma {:induction false} MaxIdIsGreatest(rows: seq<Row>)
    requires rows != []
    ensures forall i | 0 <= i < |rows| :: rows[i].sourceId <= MaxId(rows)
  {
    if |rows| > 1 {
      MaxIdIsGreatest(rows[1..]);
      assert rows == [rows[0]] + rows[1..];
    }
  }

  lemma {:induction false} AfterConcat(a: seq<Row>, b: seq<Row>, last: nat)
    ensures After(a + b, last) == After(a, last) + After(b, last)
  {
    if b == [] {
      assert a + b == a;
    } else {
      AfterConcat(a, b[..|b| - 1], last);
      assert (a + b)[..|a + b| - 1] == a + b[..|b| - 1];
    }
  }

  lemma {:induction false} AfterNone(rows: seq<Row>, last: nat)
    requires forall i | 0 <= i < |rows| :: rows[i].sourceId <= last
    ensures After(rows, last) == []
  {
    if rows != [] {
      AfterNone(rows[..|rows| - 1], last);
    }
  }

  lemma {:induction false} AfterAll(rows: seq<Row>, last: nat)
    requires forall i | 0 <= i < |rows| :: rows[i].sourceId > last
    ensures After(rows, last) == rows
  {
    if rows != [] {
      AfterAll(rows[..|rows| - 1], last);
    }
  }

  lemma {:induction false} AfterBounds(rows: seq<Row>, last: nat)
    ensures |After(rows, last)| <= |rows|
    ensures forall i | 0 <= i < |After(rows, last)| :: After(rows, last)[i].sourceId > last
  {
    if rows != [] {
      AfterBounds(rows[..|rows| - 1], last);
    }
  }

  lemma {:induction false} AfterAfter(table: seq<Row>, last: nat, next: nat)
    requires last <= next
    ensures After(After(table, last), next) == After(table, next)
  {
    if table != [] {
      AfterAfter(table[..|table| - 1], last, next);
      var kept, row := After(table[..|table| - 1], last), table[|table| - 1];
      if row.sourceId > last {
        AfterConcat(kept, [row], next);
        AfterOne(row, next);
      }
    }
  }

  lemma AfterOne(row: Row, last: nat)
    ensures After([row], last) == if row.sourceId > last then [row] else []
  {
    assert [row][..0] == [];
  }

  /** A page's own rows never come again. */
  lemma AfterPage(rows: seq<Row>, n: nat)
    requires 0 < n <= |rows|
    ensures After(rows, MaxId(rows[..n])) == After(rows[n..], MaxId(rows[..n]))
    ensures |After(rows, MaxId(rows[..n]))| <= |rows| - n
  {
    hide MaxId, After;
    var page, rest := rows[..n], rows[n..];
    assert page + rest == rows;
    MaxIdIsGreatest(page);
    AfterConcat(page, rest, MaxId(page));
    AfterNone(page, MaxId(page));
    AfterBounds(rest, MaxId(page));
  }

  function PageOf(rows: seq<Row>, size: nat): seq<Row> { if |rows| <= size then rows else rows[..size] }

  /** The rows that the pages bring, when each page continues above the greatest id of the one before. */
  function Fetched(rows: seq<Row>, size: nat): seq<Row>
    requires size > 0
    decreases |rows|
  {
    if rows == [] then []
    else
      var page := PageOf(rows, size);
      AfterPage(rows, |page|);
      assert rows[..|page|] == page;
      page + Fetched(After(rows, MaxId(page)), size)
  }

  /** Position `i` is a positive multiple of the page size. */
  predicate IsBoundary(i: int, size: nat)
    requires size > 0
    decreases i
  {
    i == size || (i > size && IsBoundary(i - size, size))
  }

  /** No page ends between two rows of one numeric id. */
  ghost predicate NoTieCut(rows: seq<Row>, size: nat)
    requires size > 0
  {
    forall i | 0 < i < |rows| && IsBoundary(i, size) :: rows[i - 1].sourceId < rows[i].sourceId
  }

  lemma {:induction false} FetchedLength(rows: seq<Row>, size: nat)
    requires size > 0
    ensures |Fetched(rows, size)| <= |rows|
    decreases |rows|
  {
    hide MaxId, After;
    if rows != [] {
      var page := PageOf(rows, size);
      AfterPage(rows, |page|);
      assert rows[..|page|] == page;
      FetchedLength(After(rows, MaxId(page)), size);
    }
  }

  lemma {:induction false} MaxIdOfPage(rows: seq<Row>)
    requires rows != [] && NonDecreasing(rows)
    ensures MaxId(rows) == rows[|rows| - 1].sourceId
  {
    if |rows| > 1 {
      MaxIdOfPage(rows[1..]);
      assert rows[1..][|rows| - 2] == rows[|rows| - 1];
    }
  }

  /** The rows after a full page are all still to come iff the page does not end inside a tie. */
  lemma AfterFullPage(rows: seq<Row>, size: nat)
    requires NonDecreasing(rows) && 0 < size < |rows|
    ensures var next := After(rows, MaxId(rows[..size]));
            if rows[size - 1].sourceId < rows[size].sourceId then next == rows[size..] else |next| < |rows| - size
  {
    hide MaxId, After;
    var last, rest := MaxId(rows[..size]), rows[size..];
    MaxIdOfPage(rows[..size]);
    AfterPage(rows, size);
    if rows[size - 1].sourceId < rows[size].sourceId {
      AfterAll(rest, last);
    } else {
      assert rest == [rest[0]] + rest[1..];
      AfterConcat([rest[0]], rest[1..], last);
      AfterOne(rest[0], last);
      AfterBounds(rest[1..], last);
    }
  }

  lemma NoTieCutAfterPage(rows: seq<Row>, size: nat)
    requires 0 < size < |rows|
    ensures NoTieCut(rows, size) <==> rows[size - 1].sourceId < rows[size].sourceId && NoTieCut(rows[size..], size)
  {
    if NoTieCut(rows, size) {
      forall i | 0 < i < |rows[size..]| && IsBoundary(i, size)
        ensures rows[size..][i - 1].sourceId < rows[size..][i].sourceId
      {
        assert IsBoundary(size + i, size);
      }
      assert IsBoundary(size, size);
    }
    if rows[size - 1].sourceId < rows[size].sourceId && NoTieCut(rows[size..], size) {
      forall i | 0 < i < |rows| && IsBoundary(i, size)
        ensures rows[i - 1].sourceId < rows[i].sourceId
      {
        if i > size {
          assert IsBoundary(i - size, size);
          assert rows[size..][i - size - 1] == rows[i - 1] && rows[size..][i - size] == rows[i];
        }
      }
    }
  }

  lemma {:induction false} PagedAllIff(rows: seq<Row>, size: nat)
    requires NonDecreasing(rows) && size > 0
    ensures Fetched(rows, size) == rows <==> NoTieCut(rows, size)
    ensures !NoTieCut(rows, size) ==> |Fetched(rows, size)| < |rows|
    decreases |rows|
  {
    hide MaxId, After, NoTieCut;
    if |rows| <= size {
      OnlyPage(rows, size);
    } else {
      var page, rest := rows[..size], rows[size..];
      var next := After(rows, MaxId(page));
      AfterFullPage(rows, size);
      NoTieCutAfterPage(rows, size);
      FetchedLength(next, size);
      assert page + rest == rows;
      if next == rest {
        PagedAllIff(rest, size);
      }
    }
  }

  lemma OnlyPage(rows: seq<Row>, size: nat)
    requires 0 < size && |rows| <= size
    ensures Fetched(rows, size) == rows && NoTieCut(rows, size)
  {
    hide MaxId, After;
    if rows != [] {
      AfterPage(rows, |rows|);
      assert rows[..|rows|] == rows;
    }
  }

  /** Two rows of one numeric id and pages of one row: the second row is never loaded. */
  lemma TieLosesARow(a: Row, b: Row)
    requires 0 < a.sourceId == b.sourceId
    ensures NonDecreasing([a, b]) && After([a, b], 0) == [a, b] && Fetched([a, b], 1) == [a]
  {
    AfterAll([a, b], 0);
    assert [a, b][..1] == [a] && MaxId([a]) == a.sourceId;
    AfterNone([a, b], a.sourceId);
  }

  lemma {:induction false} AfterFewer(rows: seq<Row>, last: nat, i: nat)
    requires i < |rows| && rows[i].sourceId <= last
    ensures |After(rows, last)| < |rows|
  {
    var front := rows[..|rows| - 1];
    AfterBounds(front, last);
    if i < |front| {
      AfterFewer(front, last, i);
    }
  }

  /** A load reads the whole table iff no row has the numeric id 0, where the query starts, and no page ends
      between two rows of one numeric id. */
  lemma FetchedAllIff(table: seq<Row>, size: nat)
    requires NonDecreasing(table) && size > 0
    ensures Fetched(After(table, 0), size) == table
            <==> (forall i | 0 <= i < |table| :: table[i].sourceId != 0) && NoTieCut(table, size)
  {
    hide After, Fetched, NoTieCut;
    if i: nat :| i < |table| && table[i].sourceId == 0 {
      AfterFewer(table, 0, i);
      FetchedLength(After(table, 0), size);
    } else {
      AfterAll(table, 0);
      PagedAllIff(table, size);
    }
  }

  /** A row of numeric id 0 is never loaded. */
  lemma ZeroIdLosesARow(r: Row, size: nat)
    requires size > 0 && r.sourceId == 0
    ensures NonDecreasing([r]) && NoTieCut([r], size) && Fetched(After([r], 0), size) == []
  {
    AfterNone([r], 0);
  }

  function RawId(r: Row): string { r.patentId }

  /** Last row per raw patent id, at the id's first position. */
  function UniqueRows(rows: seq<Row>): seq<Row> { Dict(rows, RawId) }

  lemma DistinctRowsAreUnique(rows: seq<Row>)
    requires DistinctIds(rows)
    ensures UniqueRows(rows) == rows
  {
    hide Strip, Dict;
    forall i, j | 0 <= i < j < |rows|
      ensures RawId(rows[i]) != RawId(rows[j])
    {
      assert Id(rows[i]) != Id(rows[j]);
    }
    DictOfDistinct(rows, RawId);
  }

  lemma DistinctPagesConcat(t: Text, a: seq<Row>, b: seq<Row>)
    requires DistinctIds(a + b)
    ensures BatchCells(t, a + b) == BatchCells(t, a).Upsert(BatchCells(t, b))
  {
    BatchConcat(t, a, b);
    DistinctLinks(t, a, b);
    UnionDisjoint(Links(t, a), Links(t, b));
  }

  // ---------------------------------------------------------------------------
  // The graph after a load: one write per page
  // ---------------------------------------------------------------------------

  /** The pages that the key-set query brings. */
  function Pages(rows: seq<Row>, size: nat): seq<seq<Row>>
    requires size > 0
    decreases |rows|
  {
    if rows == [] then []
    else
      var page := PageOf(rows, size);
      AfterPage(rows, |page|);
      assert rows[..|page|] == page;
      [page] + Pages(After(rows, MaxId(page)), size)
  }

  function Flat(pages: seq<seq<Row>>): seq<Row> {
    if pages == [] then [] else Flat(pages[..|pages| - 1]) + pages[|pages| - 1]
  }

  lemma {:induction false} FlatCons(page: seq<Row>, pages: seq<seq<Row>>)
    ensures Flat([page] + pages) == page + Flat(pages)
  {
    if pages == [] {
      assert ([page] + pages)[..0] == [];
    } else {
      var front, last := pages[..|pages| - 1], pages[|pages| - 1];
      FlatCons(page, front);
      assert ([page] + pages)[..|pages|] == [page] + front;
      assert (page + Flat(front)) + last == page + (Flat(front) + last);
    }
  }

  lemma {:induction false} PagesAreFetched(rows: seq<Row>, size: nat)
    requires size > 0
    ensures Flat(Pages(rows, size)) == Fetched(rows, size)
    decreases |rows|
  {
    hide After, MaxId;
    if rows != [] {
      var page := PageOf(rows, size);
      AfterPage(rows, |page|);
      assert rows[..|page|] == page;
      PagesAreFetched(After(rows, MaxId(page)), size);
      FlatCons(page, Pages(After(rows, MaxId(page)), size));
    }
  }

  /** The cells of one accepted write per page. */
  function PagesCells(t: Text, pages: seq<seq<Row>>): Entities {
    if pages == [] then NOTHING
    else PagesCells(t, pages[..|pages| - 1]).Upsert(BatchCells(t, UniqueRows(pages[|pages| - 1])))
  }

  function RowsWritten(pages: seq<seq<Row>>): nat {
    if pages == [] then 0 else RowsWritten(pages[..|pages| - 1]) + |UniqueRows(pages[|pages| - 1])|
  }

  /** The graphs a returning load may leave, over every history of rejections. */
  ghost predicate LoadReturns(t: Text, pages: seq<seq<Row>>, before: Entities, after: Entities) {
    if pages == [] then after == before
    else
      var front, last := pages[..|pages| - 1], UniqueRows(pages[|pages| - 1]);
      exists between :: LoadReturns(t, front, before, between) && Returns(t, last, between, after)
  }

  /** A load that raises has written some pages and then touched only cells of the next one. */
  ghost predicate LoadStops(t: Text, pages: seq<seq<Row>>, before: Entities, after: Entities) {
    exists n, between :: 0 <= n < |pages| && LoadReturns(t, pages[..n], before, between)
                      && Partial(t, UniqueRows(pages[n]), between, after)
  }

  /** The edge is settled within the last page that writes it. */
  predicate LoadSettled(t: Text, pages: seq<seq<Row>>, k: Link) {
    pages == [] ||
    (var last := UniqueRows(pages[|pages| - 1]);
     if k in Links(t, last) then Settled(t, last, k) else LoadSettled(t, pages[..|pages| - 1], k))
  }

  ghost predicate NoBlankPage(pages: seq<seq<Row>>) {
    forall i | 0 <= i < |pages| :: NoBlankId(UniqueRows(pages[i]))
  }

  ghost predicate LoadConfluent(t: Text, pages: seq<seq<Row>>) {
    forall before, after | LoadReturns(t, pages, before, after) :: after == before.Upsert(PagesCells(t, pages))
  }

  ghost predicate AllLinksSettled(t: Text, pages: seq<seq<Row>>) {
    forall k | k in PagesCells(t, pages).hasKeyword :: LoadSettled(t, pages, k)
  }

  /** Everything but the keyword edges is that of one accepted write per page. */
  lemma {:induction false} LoadVertices(t: Text, pages: seq<seq<Row>>, before: Entities, after: Entities)
    requires LoadReturns(t, pages, before, after)
    ensures after == before.Upsert(PagesCells(t, pages)).(hasKeyword := after.hasKeyword)
  {
    hide Returns, BatchCells, UniqueRows;
    UpsertNothing(before);
    if pages != [] {
      var front, last := pages[..|pages| - 1], UniqueRows(pages[|pages| - 1]);
      var between :| LoadReturns(t, front, before, between) && Returns(t, last, between, after);
      LoadVertices(t, front, before, between);
      VerticesConfluent(t, last, between, after);
      PageOfVertices(before, PagesCells(t, front), between, BatchCells(t, last), after);
    }
  }

  /** Which keyword edges exist does not depend on the rejections either. */
  lemma {:induction false} LoadLinkKeys(t: Text, pages: seq<seq<Row>>, before: Entities, after: Entities)
    requires LoadReturns(t, pages, before, after)
    ensures WritesOver(before.hasKeyword, after.hasKeyword, PagesCells(t, pages).hasKeyword)
  {
    hide Returns, UniqueRows, Links;
    if pages != [] {
      var front, last := pages[..|pages| - 1], UniqueRows(pages[|pages| - 1]);
      var between :| LoadReturns(t, front, before, between) && Returns(t, last, between, after);
      LoadLinkKeys(t, front, before, between);
      LinkKeys(t, last, between, after);
      WritesOverBoth(before.hasKeyword, between.hasKeyword, after.hasKeyword,
                     PagesCells(t, front).hasKeyword, Links(t, last));
    }
  }

  lemma {:induction false} BlankPageRaises(t: Text, pages: seq<seq<Row>>, before: Entities, after: Entities)
    requires LoadReturns(t, pages, before, after)
    ensures NoBlankPage(pages)
  {
    hide Returns, UniqueRows, NoBlankId;
    if pages != [] {
      var front, last := pages[..|pages| - 1], UniqueRows(pages[|pages| - 1]);
      var between :| LoadReturns(t, front, before, between) && Returns(t, last, between, after);
      BlankPageRaises(t, front, before, between);
      BlankRaises(t, last, between, after);
      assert pages == front + [pages[|pages| - 1]];
    }
  }

  lemma PageOfVertices(before: Entities, front: Entities, between: Entities, last: Entities, after: Entities)
    requires between == before.Upsert(front).(hasKeyword := between.hasKeyword)
    requires after == between.Upsert(last).(hasKeyword := after.hasKeyword)
    ensures after == before.Upsert(front.Upsert(last)).(hasKeyword := after.hasKeyword)
  {
    UnionAssociative(before.patents, front.patents, last.patents);
    UnionAssociative(before.keywords, front.keywords, last.keywords);
    UnionAssociative(before.families, front.families, last.families);
    UnionAssociative(before.members, front.members, last.members);
  }

  lemma WritesOverBoth<K, V>(before: map<K, V>, between: map<K, V>, after: map<K, V>, first: map<K, V>, second: map<K, V>)
    requires WritesOver(before, between, first) && WritesOver(between, after, second)
    ensures WritesOver(before, after, first + second)
  {
  }

  lemma {:induction false} LoadLinkSettled(t: Text, pages: seq<seq<Row>>, before: Entities, after: Entities, k: Link)
    requires LoadReturns(t, pages, before, after)
    requires k in PagesCells(t, pages).hasKeyword && LoadSettled(t, pages, k)
    ensures k in after.hasKeyword && after.hasKeyword[k] == PagesCells(t, pages).hasKeyword[k]
  {
    hide Returns, UniqueRows, Settled;
    var front, last := pages[..|pages| - 1], UniqueRows(pages[|pages| - 1]);
    var between :| LoadReturns(t, front, before, between) && Returns(t, last, between, after);
    if k in Links(t, last) {
      LinkSettled(t, last, between, after, k);
    } else {
      LoadLinkSettled(t, front, before, between, k);
      LinkKeys(t, last, between, after);
    }
  }

  lemma {:induction false} AcceptedLoad(t: Text, pages: seq<seq<Row>>, before: Entities)
    requires NoBlankPage(pages)
    ensures LoadReturns(t, pages, before, before.Upsert(PagesCells(t, pages)))
  {
    hide NoBlankId, UniqueRows, BatchCells;
    UpsertNothing(before);
    if pages != [] {
      var front, last := pages[..|pages| - 1], UniqueRows(pages[|pages| - 1]);
      AcceptedLoad(t, front, before);
      UpsertAssociative(before, PagesCells(t, front), BatchCells(t, last));
      AcceptedReturns(t, last, before.Upsert(PagesCells(t, front)));
    }
  }

  lemma AcceptedReturns(t: Text, rows: seq<Row>, before: Entities)
    requires NoBlankId(rows)
    ensures Returns(t, rows, before, before.Upsert(BatchCells(t, rows)))
  {
    UpsertNothing(before);
  }

  /** A history that leaves another record id on an unsettled edge. */
  lemma {:induction false} UnsettledLoad(t: Text, pages: seq<seq<Row>>, k: Link, before: Entities) returns (after: Entities)
    requires NoBlankPage(pages) && k in PagesCells(t, pages).hasKeyword && !LoadSettled(t, pages, k)
    ensures LoadReturns(t, pages, before, after)
    ensures k in after.hasKeyword && after.hasKeyword[k] != PagesCells(t, pages).hasKeyword[k]
  {
    hide NoBlankId, UniqueRows, Returns, Settled;
    var front, last := pages[..|pages| - 1], UniqueRows(pages[|pages| - 1]);
    if k in Links(t, last) {
      AcceptedLoad(t, front, before);
      after := UnsettledHistory(t, last, k, before.Upsert(PagesCells(t, front)));
    } else {
      var between := UnsettledLoad(t, front, k, before);
      after := between.Upsert(BatchCells(t, last));
      AcceptedReturns(t, last, between);
    }
  }

  /** Exactly when rejections cannot influence the graph that a whole load leaves, whether or not an id
      recurs within a page or on a later one. */
  lemma LoadConfluentIff(t: Text, pages: seq<seq<Row>>)
    ensures LoadConfluent(t, pages) <==> !NoBlankPage(pages) || AllLinksSettled(t, pages)
  {
    hide NoBlankPage, PagesCells, LoadSettled, LoadReturns;
    if AllLinksSettled(t, pages) || !NoBlankPage(pages) {
      forall before, after | LoadReturns(t, pages, before, after)
        ensures after == before.Upsert(PagesCells(t, pages))
      {
        BlankPageRaises(t, pages, before, after);
        LoadVertices(t, pages, before, after);
        LoadLinkKeys(t, pages, before, after);
        var links := PagesCells(t, pages).hasKeyword;
        forall k | k in links
          ensures after.hasKeyword[k] == links[k]
        {
          LoadLinkSettled(t, pages, before, after, k);
        }
        WritesOverExact(before.hasKeyword, after.hasKeyword, links);
      }
    } else {
      var k :| k in PagesCells(t, pages).hasKeyword && !LoadSettled(t, pages, k);
      var after := UnsettledLoad(t, pages, k, NOTHING);
      assert after != NOTHING.Upsert(PagesCells(t, pages));
    }
  }

  /** If no id recurs on any page, a load leaves the graph of one accepted write of all its rows. */
  lemma {:induction false} DistinctLoad(t: Text, pages: seq<seq<Row>>, before: Entities, after: Entities)
    requires DistinctIds(Flat(pages)) && LoadReturns(t, pages, before, after)
    ensures after == before.Upsert(BatchCells(t, Flat(pages))) && RowsWritten(pages) == |Flat(pages)|
  {
    hide Returns, BatchCells, UniqueRows, Id;
    NoRowsNoCells(t);
    UpsertNothing(before);
    if pages != [] {
      var front, page := pages[..|pages| - 1], pages[|pages| - 1];
      var between :| LoadReturns(t, front, before, between) && Returns(t, UniqueRows(page), between, after);
      DistinctParts(Flat(front), page);
      DistinctLoad(t, front, before, between);
      DistinctRowsAreUnique(page);
      DistinctIsConfluent(t, page, between, after);
      DistinctPagesConcat(t, Flat(front), page);
      UpsertAssociative(before, BatchCells(t, Flat(front)), BatchCells(t, page));
    }
  }

  lemma DistinctParts(a: seq<Row>, b: seq<Row>)
    requires DistinctIds(a + b)
    ensures DistinctIds(a) && DistinctIds(b)
  {
    hide Id;
    assert a == (a + b)[..|a|] && b == (a + b)[|a|..];
  }

  lemma NoRowsNoCells(t: Text)
    ensures BatchCells(t, []) == NOTHING
  {
  }

  lemma PageReturns(t: Text, pages: seq<seq<Row>>, page: seq<Row>, before: Entities, between: Entities, after: Entities)
    requires LoadReturns(t, pages, before, between) && Returns(t, UniqueRows(page), between, after)
    ensures LoadReturns(t, pages + [page], before, after)
    ensures RowsWritten(pages + [page]) == RowsWritten(pages) + |UniqueRows(page)|
  {
    assert (pages + [page])[..|pages|] == pages;
  }

  lemma PageStops(t: Text, done: seq<seq<Row>>, page: seq<Row>, rest: seq<seq<Row>>,
                  before: Entities, between: Entities, after: Entities)
    requires LoadReturns(t, done, before, between) && Partial(t, UniqueRows(page), between, after)
    ensures LoadStops(t, done + [page] + rest, before, after)
  {
    hide LoadReturns, Partial;
    var pages := done + [page] + rest;
    assert pages[..|done|] == done && pages[|done|] == page;
  }

  /** Where the key-set query continues after a page of the rows above `last`. */
  lemma NextPage(table: seq<Row>, last: nat, size: nat)
    requires size > 0 && After(table, last) != []
    ensures var rows := After(table, last);
            var next := After(table, MaxId(PageOf(rows, size)));
            Pages(rows, size) == [PageOf(rows, size)] + Pages(next, size) && |next| < |rows|
  {
    hide After, MaxId;
    var rows := After(table, last);
    var page := PageOf(rows, size);
    AfterBounds(table, last);
    MaxIdIsGreatest(page);
    assert page[0] == rows[0];
    AfterAfter(table, last, MaxId(page));
    AfterPage(rows, |page|);
    assert rows[..|page|] == page;
  }

  /** A load writes page after page, whatever is rejected on the way. What that leaves is the subject of
      `LoadConfluentIff`; if no id recurs, it is one accepted write of all the rows that the pages bring. */
  method LoadPatents(t: Text, g: EntityGraph, table: seq<Row>, batchSize: int) returns (ok: bool, loaded: nat)
    requires NonDecreasing(table)
    modifies g
    ensures batchSize < 1 ==> !ok && g.state == old(g.state)
    ensures ok ==> var pages := Pages(After(table, 0), batchSize);
                   LoadReturns(t, pages, old(g.state), g.state) && loaded == RowsWritten(pages)
    ensures !ok && batchSize >= 1 ==> LoadStops(t, Pages(After(table, 0), batchSize), old(g.state), g.state)
    ensures ok && DistinctIds(Fetched(After(table, 0), batchSize)) ==>
              var rows := Fetched(After(table, 0), batchSize);
              g.state == old(g.state).Upsert(BatchCells(t, rows)) && loaded == |rows|
  {
    hide After, MaxId, DistinctIds, BatchCells, Fetched, Pages, LoadReturns, LoadStops, UniqueRows, Returns, Partial, RowsWritten;
    if batchSize < 1 {
      return false, 0;
    }
    ok, loaded := true, 0;
    var last, size: nat := 0, batchSize;
    var rows := After(table, last);
    ghost var pages, done, before := Pages(rows, size), [], g.state;
    NothingLoaded(t, before);
    while rows != []
      invariant rows == After(table, last) && pages == done + Pages(rows, size)
      invariant LoadReturns(t, done, before, g.state) && loaded == RowsWritten(done)
      decreases |rows|
    {
      var page := PageOf(rows, size);
      NextPage(table, last, size);
      ghost var between := g.state;
      var uniqueRows := UniqueRows(page);
      ghost var calls: nat;
      ok, calls := WriteEntityBatch(t, g, uniqueRows);
      last := MaxId(page);
      rows := After(table, last);
      if !ok {
        PageStops(t, done, page, Pages(rows, size), before, between, g.state);
        assert pages == done + [page] + Pages(rows, size);
        return;
      }
      loaded := loaded + |uniqueRows|;
      PageReturns(t, done, page, before, between, g.state);
      done := done + [page];
    }
    NoPages(size);
    assert pages == done;
    PagesAreFetched(After(table, 0), size);
    if DistinctIds(Flat(pages)) {
      DistinctLoad(t, pages, before, g.state);
    }
  }

  lemma NoPages(size: nat)
    requires size > 0
    ensures Pages([], size) == []
  {
  }

  lemma NothingLoaded(t: Text, before: Entities)
    ensures LoadReturns(t, [], before, before) && RowsWritten([]) == 0
  {
  }
}
