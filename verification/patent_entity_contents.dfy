/** What a returning load of patents leaves in the graph, said of the source rows. */
module PatentEntityContents {
  import opened Dicts
  import opened MapFacts
  import opened PatentEntityWriter
  import opened TextOps

  // ---------------------------------------------------------------------------
  // What the graph says of one row
  // ---------------------------------------------------------------------------

  /** The graph holds the row's payload, its words and its family under the VID of its stripped id. */
  ghost predicate Holds(t: Text, r: Row, g: Entities) {
    var id := Strip(r.patentId);
    var vid := "patent_" + id;
    && vid in g.patents && g.patents[vid] == r.payload
    && (forall i | 0 <= i < |Words(t, r.keywords)| :: HoldsWord(t, id, Words(t, r.keywords), i, g))
    && (Strip(r.family) != "" && id != "" ==> HoldsFamily(id, Strip(r.family), g))
  }

  /** The word has a vertex, which bears a spelling of this VID, and an edge with its number in the row;
      if two words have one VID, with the first one's. */
  ghost predicate HoldsWord(t: Text, id: string, words: seq<string>, i: nat, g: Entities)
    requires i < |words|
  {
    var keyword := "keyword_" + t.digest(t.fold(words[i]));
    var link := ("patent_" + id, keyword);
    && keyword in g.keywords && "keyword_" + t.digest(t.fold(g.keywords[keyword])) == keyword
    && link in g.hasKeyword
    && ((forall j | 0 <= j < i :: t.digest(t.fold(words[j])) != t.digest(t.fold(words[i]))) ==>
          g.hasKeyword[link] == id + ":keywords:" + Decimal(i))
  }

  ghost predicate HoldsFamily(id: string, number: string, g: Entities) {
    var family := "patent_family_" + number;
    var link := ("patent_" + id, family);
    family in g.families && g.families[family] == number && link in g.members && g.members[link] == id
  }

  // ---------------------------------------------------------------------------
  // From cells to contents
  // ---------------------------------------------------------------------------

  ghost predicate Sub<K, V>(a: map<K, V>, b: map<K, V>) {
    forall k | k in a :: k in b && b[k] == a[k]
  }

  /** Every keyword vertex has a spelling of its own VID. */
  ghost predicate OwnSpellings(t: Text, keywords: map<string, string>, keys: set<string>) {
    forall k | k in keys :: k in keywords && KeywordVid(t, keywords[k]) == k
  }

  /** The graph has all cells of the row. */
  ghost predicate HasCells(t: Text, r: Row, g: Entities) {
    && Sub(PatentCell(r), g.patents) && Sub(HasKeywordCells(t, r), g.hasKeyword)
    && OwnSpellings(t, g.keywords, KeywordCells(t, r).Keys)
    && Sub(FamilyCell(r), g.families) && Sub(MemberCell(r), g.members)
  }

  lemma {:induction false} LinkCellsAre(t: Text, r: Row, words: seq<string>, i: nat)
    requires i < |words|
    ensures var k := ("patent_" + Strip(r.patentId), "keyword_" + t.digest(t.fold(words[i])));
            && k in LinkCells(t, r, words)
            && ((forall j | 0 <= j < i :: t.digest(t.fold(words[j])) != t.digest(t.fold(words[i]))) ==>
                  LinkCells(t, r, words)[k] == Strip(r.patentId) + ":keywords:" + Decimal(i))
  {
    hide Strip, Decimal;
    var before, last := words[..|words| - 1], |words| - 1;
    if i < last {
      LinkCellsAre(t, r, before, i);
    } else {
      var k := (PatentVid(r), KeywordVid(t, words[i]));
      if k in LinkCells(t, r, before) {
        var j := LinkCellOf(t, r, before, k);
        SameVid(t, words[j], words[i]);
      }
    }
  }

  lemma SameVid(t: Text, a: string, b: string)
    requires KeywordVid(t, a) == KeywordVid(t, b)
    ensures t.digest(t.fold(a)) == t.digest(t.fold(b))
  {
    assert KeywordVid(t, a)[8..] == t.digest(t.fold(a)) && KeywordVid(t, b)[8..] == t.digest(t.fold(b));
  }

  lemma {:induction false} LinkCellOf(t: Text, r: Row, words: seq<string>, k: Link) returns (j: nat)
    requires k in LinkCells(t, r, words)
    ensures j < |words| && k == (PatentVid(r), KeywordVid(t, words[j]))
  {
    hide PatentVid, KeywordVid, RecordId;
    j := |words| - 1;
    if k != (PatentVid(r), KeywordVid(t, words[j])) {
      j := LinkCellOf(t, r, words[..j], k);
    }
  }

  lemma {:induction false} WordCellsHave(t: Text, words: seq<string>, i: nat)
    requires i < |words|
    ensures KeywordVid(t, words[i]) in WordCells(t, words)
  {
    hide KeywordVid;
    if i < |words| - 1 {
      WordCellsHave(t, words[..|words| - 1], i);
    }
  }

  lemma {:induction false} WordCellsSpell(t: Text, words: seq<string>)
    ensures forall k | k in WordCells(t, words) :: KeywordVid(t, WordCells(t, words)[k]) == k
  {
    hide KeywordVid;
    if words != [] {
      WordCellsSpell(t, words[..|words| - 1]);
    }
  }

  lemma CellsHold(t: Text, r: Row, g: Entities)
    requires HasCells(t, r, g)
    ensures Holds(t, r, g)
  {
    hide Strip, Words, LinkCells, WordCells, Decimal;
    var id, words := Strip(r.patentId), Words(t, r.keywords);
    assert PatentVid(r) in PatentCell(r);
    forall i | 0 <= i < |words|
      ensures HoldsWord(t, id, words, i, g)
    {
      LinkCellsAre(t, r, words, i);
      WordCellsHave(t, words, i);
    }
    FamilyCellsHold(r, g);
  }

  lemma FamilyCellsHold(r: Row, g: Entities)
    requires Sub(FamilyCell(r), g.families) && Sub(MemberCell(r), g.members)
    ensures Strip(r.family) != "" && Strip(r.patentId) != "" ==> HoldsFamily(Strip(r.patentId), Strip(r.family), g)
  {
    hide Strip;
    if Strip(r.family) != "" && Strip(r.patentId) != "" {
      assert FamilyVid(Strip(r.family)) in FamilyCell(r);
      assert (PatentVid(r), FamilyVid(Strip(r.family))) in MemberCell(r);
    }
  }

  // ---------------------------------------------------------------------------
  // A write keeps what it does not touch
  // ---------------------------------------------------------------------------

  /** No other row of the list has this stripped id. */
  ghost predicate OnlyRow(rows: seq<Row>, u: int) {
    0 <= u < |rows| && forall v | 0 <= v < |rows| && v != u :: Id(rows[v]) != Id(rows[u])
  }

  ghost predicate NoSuchId(rows: seq<Row>, r: Row) {
    forall v | 0 <= v < |rows| :: Id(rows[v]) != Id(r)
  }

  lemma LinkOf(t: Text, rows: seq<Row>, k: Link) returns (i: nat)
    requires k in Links(t, rows)
    ensures i < |rows| && k.0 == PatentVid(rows[i])
    ensures k in HasKeywordCells(t, rows[i]) && Links(t, rows)[k] == HasKeywordCells(t, rows[i])[k]
  {
    hide FirstWins, PatentVid, LinkCells, Words;
    i := FirstWinsFrom(rows, r => HasKeywordCells(t, r), k);
    var j := LinkCellOf(t, rows[i], Words(t, rows[i].keywords), k);
  }

  lemma OnlyRowHalf(rows: seq<Row>, u: nat)
    requires u < |rows| && OnlyRow(rows, u)
    ensures var left, right := Left(rows), Right(rows);
            if u < |left| then left[u] == rows[u] && OnlyRow(left, u) && NoSuchId(right, rows[u])
            else right[u - |left|] == rows[u] && OnlyRow(right, u - |left|) && NoSuchId(left, rows[u])
  {
    hide Id;
    var left, right := Left(rows), Right(rows);
    assert forall v | 0 <= v < |left| :: left[v] == rows[v];
    assert forall v | 0 <= v < |right| :: right[v] == rows[v + |left|];
  }

  /** An edge of the only row with its id is settled, and its cell is that row's. */
  lemma {:induction false} OnlyRowSettled(t: Text, rows: seq<Row>, u: nat, k: Link)
    requires u < |rows| && OnlyRow(rows, u) && k in HasKeywordCells(t, rows[u])
    ensures k in Links(t, rows) && Links(t, rows)[k] == HasKeywordCells(t, rows[u])[k] && Settled(t, rows, k)
    decreases |rows|
  {
    hide Links, HasKeywordCells, Id, OnlyRow, NoSuchId;
    RowLink(t, rows, u, k);
    if |rows| > 1 {
      OnlyRowHalf(rows, u);
      var left, right := Left(rows), Right(rows);
      if u < |left| {
        OnlyRowSettled(t, left, u, k);
        NoOtherLink(t, right, rows[u], k);
      } else {
        OnlyRowSettled(t, right, u - |left|, k);
        NoOtherLink(t, left, rows[u], k);
      }
    }
  }

  lemma RowLink(t: Text, rows: seq<Row>, u: nat, k: Link)
    requires u < |rows| && OnlyRow(rows, u) && k in HasKeywordCells(t, rows[u])
    ensures k in Links(t, rows) && Links(t, rows)[k] == HasKeywordCells(t, rows[u])[k]
  {
    hide HasKeywordCells, Id, Links;
    LinkKey(t, rows[u], k);
    LinksHave(t, rows, u, k);
    var i := LinkOf(t, rows, k);
    PatentVidInjective(rows[i], rows[u]);
  }

  lemma LinksHave(t: Text, rows: seq<Row>, u: nat, k: Link)
    requires u < |rows| && k in HasKeywordCells(t, rows[u])
    ensures k in Links(t, rows)
  {
    hide HasKeywordCells;
    FirstWinsHas(rows, r => HasKeywordCells(t, r), u, k);
  }

  lemma LinkKey(t: Text, r: Row, k: Link)
    requires k in HasKeywordCells(t, r)
    ensures k.0 == PatentVid(r)
  {
    hide Words, LinkCells, PatentVid;
    var j := LinkCellOf(t, r, Words(t, r.keywords), k);
  }

  lemma NoOtherLink(t: Text, rows: seq<Row>, r: Row, k: Link)
    requires NoSuchId(rows, r) && k in HasKeywordCells(t, r)
    ensures k !in Links(t, rows)
  {
    hide HasKeywordCells, Id, Links;
    LinkKey(t, r, k);
    if k in Links(t, rows) {
      var i := LinkOf(t, rows, k);
      PatentVidInjective(rows[i], r);
    }
  }

  /** The other cells of the only row with its id. */
  lemma OnlyRowCells(t: Text, rows: seq<Row>, u: nat)
    requires OnlyRow(rows, u)
    ensures Sub(PatentCell(rows[u]), LastWins(rows, PatentCell)) && Sub(MemberCell(rows[u]), LastWins(rows, MemberCell))
  {
    hide Id, FamilyNumber, LastWins;
    var r := rows[u];
    LastWinsHas(rows, PatentCell, u, PatentVid(r));
    var i := LastWinsFrom(rows, PatentCell, PatentVid(r));
    PatentVidInjective(rows[i], r);
    forall k | k in MemberCell(r)
      ensures k in LastWins(rows, MemberCell) && LastWins(rows, MemberCell)[k] == MemberCell(r)[k]
    {
      LastWinsHas(rows, MemberCell, u, k);
      var j := LastWinsFrom(rows, MemberCell, k);
      PatentVidInjective(rows[j], r);
    }
  }

  /** Family vertices and keyword spellings agree whoever writes them. */
  lemma SharedCells(t: Text, rows: seq<Row>, u: nat)
    requires u < |rows|
    ensures Sub(FamilyCell(rows[u]), LastWins(rows, FamilyCell))
    ensures OwnSpellings(t, LastWins(rows, r => KeywordCells(t, r)), KeywordCells(t, rows[u]).Keys)
  {
    hide Id, FamilyNumber, LastWins, WordCells, Words, KeywordVid;
    forall k | k in FamilyCell(rows[u])
      ensures k in LastWins(rows, FamilyCell) && LastWins(rows, FamilyCell)[k] == FamilyCell(rows[u])[k]
    {
      LastWinsHas(rows, FamilyCell, u, k);
      FamilyNumberIs(rows, k);
      assert k[14..] == FamilyNumber(rows[u]);
    }
    var f := (r: Row) => KeywordCells(t, r);
    forall k | k in KeywordCells(t, rows[u])
      ensures k in LastWins(rows, f) && KeywordVid(t, LastWins(rows, f)[k]) == k
    {
      LastWinsHas(rows, f, u, k);
      KeywordSpelling(t, rows, k);
    }
  }

  lemma FamilyNumberIs(rows: seq<Row>, k: string)
    requires k in LastWins(rows, FamilyCell)
    ensures k == FamilyVid(LastWins(rows, FamilyCell)[k]) && k[14..] == LastWins(rows, FamilyCell)[k]
  {
    hide Id, FamilyNumber, LastWins;
    var i := LastWinsFrom(rows, FamilyCell, k);
    assert FamilyVid(FamilyNumber(rows[i]))[14..] == FamilyNumber(rows[i]);
  }

  lemma KeywordSpelling(t: Text, rows: seq<Row>, k: string)
    requires k in LastWins(rows, r => KeywordCells(t, r))
    ensures KeywordVid(t, LastWins(rows, r => KeywordCells(t, r))[k]) == k
  {
    hide LastWins, WordCells, Words, KeywordVid;
    var i := LastWinsFrom(rows, r => KeywordCells(t, r), k);
    WordCellsSpell(t, Words(t, rows[i].keywords));
  }

  // ---------------------------------------------------------------------------
  // A page, and a whole load
  // ---------------------------------------------------------------------------

  /** A write that returns leaves the cells of a row whose id no other row has. */
  lemma WriteHolds(t: Text, rows: seq<Row>, u: nat, before: Entities, after: Entities)
    requires u < |rows| && OnlyRow(rows, u) && Returns(t, rows, before, after)
    ensures HasCells(t, rows[u], after)
  {
    hide Returns, OnlyRow, PatentCell, MemberCell, FamilyCell, KeywordCells, HasKeywordCells, LastWins, Links, Settled;
    VerticesConfluent(t, rows, before, after);
    OnlyRowCells(t, rows, u);
    SharedCells(t, rows, u);
    forall k | k in HasKeywordCells(t, rows[u])
      ensures k in after.hasKeyword && after.hasKeyword[k] == HasKeywordCells(t, rows[u])[k]
    {
      OnlyRowSettled(t, rows, u, k);
      LinkSettled(t, rows, before, after, k);
    }
  }

  /** Row `j` is the last of its raw id on the page, and no other raw id of the page strips to its id. */
  ghost predicate Stays(page: seq<Row>, j: int) {
    && LastOfKey(page, RawId, j)
    && forall i | 0 <= i < |page| && page[i].patentId != page[j].patentId :: Id(page[i]) != Id(page[j])
  }

  lemma StaysAlone(page: seq<Row>, j: nat) returns (u: nat)
    requires j < |page| && Stays(page, j)
    ensures u < |UniqueRows(page)| && OnlyRow(UniqueRows(page), u) && UniqueRows(page)[u] == page[j]
  {
    hide Dict, Strip;
    var rows := UniqueRows(page);
    DictIff(page, RawId, page[j]);
    assert IsLast(page, RawId, page[j]);
    u :| 0 <= u < |rows| && rows[u] == page[j];
    forall v | 0 <= v < |rows| && v != u
      ensures Id(rows[v]) != Id(rows[u])
    {
      assert rows[v] in rows;
      DictIff(page, RawId, rows[v]);
      assert rows[v].patentId != rows[u].patentId;
    }
  }

  lemma OthersKeepOwn(rows: seq<Row>, r: Row)
    requires NoSuchId(rows, r)
    ensures PatentVid(r) !in LastWins(rows, PatentCell)
    ensures forall k | k in MemberCell(r) :: k !in LastWins(rows, MemberCell)
  {
    hide LastWins, Id, FamilyNumber;
    if PatentVid(r) in LastWins(rows, PatentCell) {
      var i := LastWinsFrom(rows, PatentCell, PatentVid(r));
      PatentVidInjective(rows[i], r);
    }
    forall k | k in MemberCell(r)
      ensures k !in LastWins(rows, MemberCell)
    {
      if k in LastWins(rows, MemberCell) {
        var i := LastWinsFrom(rows, MemberCell, k);
        PatentVidInjective(rows[i], r);
      }
    }
  }

  lemma OthersKeepShared(t: Text, rows: seq<Row>, r: Row)
    ensures forall k | k in FamilyCell(r) && k in LastWins(rows, FamilyCell) :: LastWins(rows, FamilyCell)[k] == FamilyCell(r)[k]
    ensures forall k | k in BatchCells(t, rows).keywords :: KeywordVid(t, BatchCells(t, rows).keywords[k]) == k
  {
    hide LastWins, Id, FamilyNumber, KeywordVid, KeywordCells;
    forall k | k in FamilyCell(r) && k in LastWins(rows, FamilyCell)
      ensures LastWins(rows, FamilyCell)[k] == FamilyCell(r)[k]
    {
      FamilyNumberIs(rows, k);
      assert FamilyVid(FamilyNumber(r))[14..] == FamilyNumber(r);
    }
    var spelt := BatchCells(t, rows).keywords;
    forall k | k in spelt
      ensures KeywordVid(t, spelt[k]) == k
    {
      KeywordSpelling(t, rows, k);
    }
  }

  lemma LinksKept(t: Text, rows: seq<Row>, r: Row, before: Entities, after: Entities)
    requires NoSuchId(rows, r) && Sub(HasKeywordCells(t, r), before.hasKeyword) && Returns(t, rows, before, after)
    ensures Sub(HasKeywordCells(t, r), after.hasKeyword)
  {
    hide Returns, Links, Id, HasKeywordCells;
    LinkKeys(t, rows, before, after);
    forall k | k in HasKeywordCells(t, r)
      ensures k in after.hasKeyword && after.hasKeyword[k] == HasKeywordCells(t, r)[k]
    {
      NoOtherLink(t, rows, r, k);
    }
  }

  /** A page keeps the row's cells if no row of the page has its id. */
  lemma PageKeeps(t: Text, rows: seq<Row>, r: Row, before: Entities, after: Entities)
    requires NoSuchId(rows, r) && HasCells(t, r, before) && Returns(t, rows, before, after)
    ensures HasCells(t, r, after)
  {
    hide Returns, LastWins, Links, Id, FamilyNumber, KeywordVid, HasKeywordCells, KeywordCells, MemberCell, FamilyCell, NoSuchId;
    VerticesConfluent(t, rows, before, after);
    LinksKept(t, rows, r, before, after);
    OthersKeepOwn(rows, r);
    OthersKeepShared(t, rows, r);
  }

  lemma NoSuchUnique(page: seq<Row>, r: Row)
    requires NoSuchId(page, r)
    ensures NoSuchId(UniqueRows(page), r)
  {
    hide Dict, Strip;
    var rows := UniqueRows(page);
    forall v | 0 <= v < |rows|
      ensures Id(rows[v]) != Id(r)
    {
      assert rows[v] in rows;
      DictIff(page, RawId, rows[v]);
    }
  }

  lemma {:induction false} LoadHasCells(t: Text, pages: seq<seq<Row>>, before: Entities, after: Entities, p: nat, j: nat)
    requires LoadReturns(t, pages, before, after) && p < |pages| && j < |pages[p]| && Stays(pages[p], j)
    requires forall q | p < q < |pages| :: NoSuchId(pages[q], pages[p][j])
    ensures HasCells(t, pages[p][j], after)
  {
    hide Returns, UniqueRows, HasCells, Stays, NoSuchId, OnlyRow;
    var front, last := pages[..|pages| - 1], |pages| - 1;
    var between :| LoadReturns(t, front, before, between) && Returns(t, UniqueRows(pages[last]), between, after);
    if p == last {
      var u := StaysAlone(pages[p], j);
      WriteHolds(t, UniqueRows(pages[p]), u, between, after);
    } else {
      assert front[p] == pages[p];
      LoadHasCells(t, front, before, between, p, j);
      NoSuchUnique(pages[last], pages[p][j]);
      PageKeeps(t, UniqueRows(pages[last]), pages[p][j], between, after);
    }
  }

  /** Whatever was rejected on the way, a returning load leaves under each id the payload, the words and the
      family of the last row with its raw id on the last page that has the id, unless another raw id of that
      page strips to the same. */
  lemma LastRowsStay(t: Text, pages: seq<seq<Row>>, before: Entities, after: Entities, p: nat, j: nat)
    requires LoadReturns(t, pages, before, after) && p < |pages| && j < |pages[p]| && Stays(pages[p], j)
    requires forall q | p < q < |pages| :: NoSuchId(pages[q], pages[p][j])
    ensures Holds(t, pages[p][j], after)
  {
    hide LoadReturns, HasCells, Holds;
    LoadHasCells(t, pages, before, after, p, j);
    CellsHold(t, pages[p][j], after);
  }

  /** And nothing else hangs on that id: a keyword edge of the patent is one of the row's words, or was there
      before the page. */
  lemma OnlyItsWords(t: Text, page: seq<Row>, before: Entities, after: Entities, j: nat, k: Link)
    requires Returns(t, UniqueRows(page), before, after) && j < |page| && Stays(page, j)
    requires k.0 == "patent_" + Strip(page[j].patentId) && k in after.hasKeyword && k !in before.hasKeyword
    ensures exists i :: 0 <= i < |Words(t, page[j].keywords)| &&
                        k.1 == "keyword_" + t.digest(t.fold(Words(t, page[j].keywords)[i]))
  {
    hide Returns, UniqueRows, Links, Words, LinkCells, Strip;
    var rows := UniqueRows(page);
    LinkKeys(t, rows, before, after);
    var u := StaysAlone(page, j);
    var v := LinkOf(t, rows, k);
    PatentVidInjective(rows[v], page[j]);
    var i := LinkCellOf(t, rows[v], Words(t, rows[v].keywords), k);
  }

  /** What a page is deduplicated to, in full: the last row of each raw id, each id once, the ids in the order
      of their first occurrence. */
  lemma UniqueRowsAre(page: seq<Row>, r: Row, more: Row)
    ensures r in UniqueRows(page) <==>
              exists i | 0 <= i < |page| && page[i] == r :: forall j | i < j < |page| :: page[j].patentId != r.patentId
    ensures forall u, v | 0 <= u < v < |UniqueRows(page)| :: UniqueRows(page)[u].patentId != UniqueRows(page)[v].patentId
    ensures var now := UniqueRows(page + [more]);
            |UniqueRows(page)| <= |now| && forall u | 0 <= u < |UniqueRows(page)| :: now[u].patentId == UniqueRows(page)[u].patentId
  {
    hide Dict;
    DictIff(page, RawId, r);
    DictGrows(page, RawId, more);
    assert forall u, v | 0 <= u < v < |UniqueRows(page)| :: RawId(UniqueRows(page)[u]) != RawId(UniqueRows(page)[v]);
    if i :| 0 <= i < |page| && page[i] == r && forall j | i < j < |page| :: page[j].patentId != r.patentId {
      assert LastOfKey(page, RawId, i);
    }
  }

  /** A load counts the distinct raw ids of each page. */
  ghost function IdCount(pages: seq<seq<Row>>): nat {
    if pages == [] then 0
    else IdCount(pages[..|pages| - 1]) + |KeySetOf(pages[|pages| - 1], RawId)|
  }

  lemma {:induction false} LoadedAreIds(pages: seq<seq<Row>>)
    ensures RowsWritten(pages) == IdCount(pages)
  {
    hide Dict, KeySetOf;
    if pages != [] {
      var last := pages[|pages| - 1];
      LoadedAreIds(pages[..|pages| - 1]);
      DictSize(last, RawId);
    }
  }

  // ---------------------------------------------------------------------------
  // Which loads return, and what they write nothing of
  // ---------------------------------------------------------------------------

  ghost predicate NoBlankRow(page: seq<Row>) {
    forall r | r in page :: Strip(r.patentId) != ""
  }

  lemma UniqueBlankIff(page: seq<Row>)
    ensures NoBlankId(UniqueRows(page)) <==> NoBlankRow(page)
  {
    hide Dict, Strip;
    DictMembers(page, RawId);
    forall r | r in page && NoBlankId(UniqueRows(page))
      ensures Strip(r.patentId) != ""
    {
      var i := LastExists(page, RawId, r);
      DictIff(page, RawId, page[i]);
      assert IsLast(page, RawId, page[i]);
    }
  }

  /** A load can return exactly when no id of its pages is blank. */
  lemma LoadReturnsIff(t: Text, pages: seq<seq<Row>>, before: Entities)
    ensures (exists after :: LoadReturns(t, pages, before, after)) <==>
              forall p | 0 <= p < |pages| :: NoBlankRow(pages[p])
  {
    hide LoadReturns, UniqueRows, NoBlankId, NoBlankRow, PagesCells;
    forall p | 0 <= p < |pages|
      ensures NoBlankId(UniqueRows(pages[p])) <==> NoBlankRow(pages[p])
    {
      UniqueBlankIff(pages[p]);
    }
    if after :| LoadReturns(t, pages, before, after) {
      BlankPageRaises(t, pages, before, after);
    }
    if NoBlankPage(pages) {
      AcceptedLoad(t, pages, before);
    }
  }

  /** The row has an id and a family number. */
  ghost predicate HasFamily(r: Row, id: string, number: string) {
    id == Strip(r.patentId) != "" && number == Strip(r.family) != ""
  }

  ghost predicate PageHasFamily(page: seq<Row>, id: string, number: string) {
    exists r | r in page :: HasFamily(r, id, number)
  }

  lemma FamilyOfRow(page: seq<Row>, i: nat)
    requires i < |UniqueRows(page)| && (MemberCell(UniqueRows(page)[i]) != map[] || FamilyCell(UniqueRows(page)[i]) != map[])
    ensures PageHasFamily(page, Id(UniqueRows(page)[i]), FamilyNumber(UniqueRows(page)[i]))
  {
    hide Dict, Strip;
    DictMembers(page, RawId);
    var r := UniqueRows(page)[i];
    assert r in UniqueRows(page);
    assert HasFamily(r, Id(r), FamilyNumber(r));
  }

  lemma {:induction false} PagesFamilies(t: Text, pages: seq<seq<Row>>, k: Link) returns (p: nat, id: string, number: string)
    requires k in PagesCells(t, pages).members
    ensures p < |pages| && PageHasFamily(pages[p], id, number) && k == ("patent_" + id, "patent_family_" + number)
  {
    hide UniqueRows, LastWins, Strip, Links, KeywordCells;
    p := |pages| - 1;
    var rows := UniqueRows(pages[p]);
    if k in LastWins(rows, MemberCell) {
      var i := LastWinsFrom(rows, MemberCell, k);
      id, number := Id(rows[i]), FamilyNumber(rows[i]);
      FamilyOfRow(pages[p], i);
    } else {
      p, id, number := PagesFamilies(t, pages[..p], k);
    }
  }

  /** A membership that a load adds is that of a row with an id and a family number; a row without either
      gets none. */
  lemma OnlyItsFamilies(t: Text, pages: seq<seq<Row>>, before: Entities, after: Entities, k: Link)
    requires LoadReturns(t, pages, before, after) && k in after.members && k !in before.members
    ensures exists p, id, number :: 0 <= p < |pages| && PageHasFamily(pages[p], id, number)
                                 && k == ("patent_" + id, "patent_family_" + number)
  {
    hide LoadReturns, PageHasFamily, PagesCells;
    LoadVertices(t, pages, before, after);
    var p, id, number := PagesFamilies(t, pages, k);
  }

  ghost predicate HasNumber(page: seq<Row>, number: string) {
    exists id :: PageHasFamily(page, id, number)
  }

  lemma {:induction false} PagesNumbers(t: Text, pages: seq<seq<Row>>, k: string) returns (p: nat, number: string)
    requires k in PagesCells(t, pages).families
    ensures p < |pages| && HasNumber(pages[p], number) && k == "patent_family_" + number
  {
    hide UniqueRows, LastWins, Strip, Links, KeywordCells;
    p := |pages| - 1;
    var rows := UniqueRows(pages[p]);
    if k in LastWins(rows, FamilyCell) {
      var i := LastWinsFrom(rows, FamilyCell, k);
      number := FamilyNumber(rows[i]);
      FamilyOfRow(pages[p], i);
    } else {
      p, number := PagesNumbers(t, pages[..p], k);
    }
  }

  /** No family vertex comes from a row without an id. */
  lemma OnlyTheirNumbers(t: Text, pages: seq<seq<Row>>, before: Entities, after: Entities, k: string)
    requires LoadReturns(t, pages, before, after) && k in after.families && k !in before.families
    ensures exists p, number :: 0 <= p < |pages| && HasNumber(pages[p], number) && k == "patent_family_" + number
  {
    hide LoadReturns, HasNumber, PagesCells;
    LoadVertices(t, pages, before, after);
    var p, number := PagesNumbers(t, pages, k);
  }

  // ---------------------------------------------------------------------------
  // Which spelling a keyword vertex bears
  // ---------------------------------------------------------------------------

  ghost predicate HasWord(t: Text, r: Row, k: string) {
    exists j :: 0 <= j < |Words(t, r.keywords)| && "keyword_" + t.digest(t.fold(Words(t, r.keywords)[j])) == k
  }

  /** Word `j` of row `i` is the last of the batch, rows in order and words in order, with its VID. */
  ghost predicate LastOfVid(t: Text, rows: seq<Row>, i: nat, j: nat, k: string) {
    && i < |rows| && j < |Words(t, rows[i].keywords)|
    && "keyword_" + t.digest(t.fold(Words(t, rows[i].keywords)[j])) == k
    && (forall l | j < l < |Words(t, rows[i].keywords)| :: "keyword_" + t.digest(t.fold(Words(t, rows[i].keywords)[l])) != k)
    && forall m | i < m < |rows| :: !HasWord(t, rows[m], k)
  }

  lemma {:induction false} LastWordSpells(t: Text, words: seq<string>, j: nat)
    requires j < |words| && forall l | j < l < |words| :: KeywordVid(t, words[l]) != KeywordVid(t, words[j])
    ensures KeywordVid(t, words[j]) in WordCells(t, words) && WordCells(t, words)[KeywordVid(t, words[j])] == words[j]
  {
    hide KeywordVid;
    if j < |words| - 1 {
      LastWordSpells(t, words[..|words| - 1], j);
    }
  }

  lemma {:induction false} NoWordNoCell(t: Text, words: seq<string>, k: string)
    requires forall l | 0 <= l < |words| :: KeywordVid(t, words[l]) != k
    ensures k !in WordCells(t, words)
  {
    hide KeywordVid;
    if words != [] {
      NoWordNoCell(t, words[..|words| - 1], k);
    }
  }

  lemma {:induction false} LastRowSpells(t: Text, rows: seq<Row>, i: nat, j: nat, k: string)
    requires LastOfVid(t, rows, i, j, k)
    ensures var spelt := LastWins(rows, r => KeywordCells(t, r));
            k in spelt && spelt[k] == Words(t, rows[i].keywords)[j]
  {
    hide Words, WordCells;
    var last := |rows| - 1;
    if i < last {
      LastRowSpells(t, rows[..last], i, j, k);
      NoWordNoCell(t, Words(t, rows[last].keywords), k);
    } else {
      LastWordSpells(t, Words(t, rows[i].keywords), j);
    }
  }

  /** A keyword vertex bears the spelling of the last word with its VID, whatever was rejected. */
  lemma LastSpellingStays(t: Text, rows: seq<Row>, before: Entities, after: Entities, i: nat, j: nat, k: string)
    requires Returns(t, rows, before, after) && LastOfVid(t, rows, i, j, k)
    ensures k in after.keywords && after.keywords[k] == Words(t, rows[i].keywords)[j]
  {
    hide Returns, LastOfVid, Words, LastWins, Links;
    VerticesConfluent(t, rows, before, after);
    LastRowSpells(t, rows, i, j, k);
  }
}
