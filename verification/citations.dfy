/** Patent identifiers, their inverted index, and the citations merged from two source columns. */
module Citations {
  import opened EdgeRecords
  import opened Options
  import opened TextOps

  // ---------------------------------------------------------------------------
  // Identifier keys. `fold` is the foreign NFKC normalization with case folding.
  // ---------------------------------------------------------------------------

  predicate IsKeyChar(c: char) { IsDigit(c) || 'a' <= c <= 'z' }

  predicate IsKey(s: string) { forall c | c in s :: IsKeyChar(c) }

  function Clean(s: string): (r: string)
    ensures IsKey(r)
  {
    if s == "" then "" else Clean(s[..|s| - 1]) + if IsKeyChar(s[|s| - 1]) then [s[|s| - 1]] else ""
  }

  function NormalizeIdentifier(fold: string -> string, value: string): (key: string)
    ensures IsKey(key)
  {
    Clean(fold(value))
  }

  /** The part of a key after an optional `cn` or `zl`. */
  function Body(key: string): string {
    if |key| >= 2 && (key[..2] == "cn" || key[..2] == "zl") then key[2..] else key
  }

  /** Twelve digits, perhaps followed by one check character. */
  predicate IsCnBody(body: string) {
    (|body| == 12 || |body| == 13) && forall i | 0 <= i < 12 :: IsDigit(body[i])
  }

  function ApplicationNumberKey(fold: string -> string, value: string): (key: string)
    ensures IsKey(key)
  {
    var key := NormalizeIdentifier(fold, value);
    if IsCnBody(Body(key)) then
      assert IsKey("cn" + Body(key)[..12]) by { assert forall i | 0 <= i < 12 :: Body(key)[..12][i] == Body(key)[i]; }
      "cn" + Body(key)[..12]
    else key
  }

  /** Folding leaves lower-case ASCII letters and digits alone. */
  ghost predicate FoldsKeys(fold: string -> string) {
    forall s | IsKey(s) :: fold(s) == s
  }

  lemma {:induction false} CleanKey(s: string)
    requires IsKey(s)
    ensures Clean(s) == s
  {
    if s != "" {
      assert s[|s| - 1] in s;
      CleanKey(s[..|s| - 1]);
    }
  }

  lemma NormalizeIdempotent(fold: string -> string, value: string)
    requires FoldsKeys(fold)
    ensures NormalizeIdentifier(fold, NormalizeIdentifier(fold, value)) == NormalizeIdentifier(fold, value)
  {
    CleanKey(NormalizeIdentifier(fold, value));
  }

  lemma ApplicationNumberIdempotent(fold: string -> string, value: string)
    requires FoldsKeys(fold)
    ensures ApplicationNumberKey(fold, ApplicationNumberKey(fold, value)) == ApplicationNumberKey(fold, value)
  {
    var key := ApplicationNumberKey(fold, value);
    CleanKey(key);
    if IsCnBody(Body(NormalizeIdentifier(fold, value))) {
      assert key[..2] == "cn";
      assert key[2..] == Body(NormalizeIdentifier(fold, value))[..12];
      assert Body(key)[..12] == Body(key);
    }
  }

  /** The supplier formats of one Chinese application number meet in one key. */
  lemma ApplicationFormatsAgree(fold: string -> string, digits: string, prefix: string, check: string)
    requires FoldsKeys(fold) && |digits| == 12 && forall c | c in digits :: IsDigit(c)
    requires prefix in {"", "cn", "zl"} && |check| <= 1 && IsKey(check)
    ensures ApplicationNumberKey(fold, prefix + digits + check) == "cn" + digits
  {
    hide Clean;
    var value := prefix + digits + check;
    CleanKey(value);
    BodyOf(digits, prefix, check);
    assert Body(value)[..12] == digits;
  }

  lemma BodyOf(digits: string, prefix: string, check: string)
    requires |digits| == 12 && forall c | c in digits :: IsDigit(c)
    requires prefix in {"", "cn", "zl"}
    ensures Body(prefix + digits + check) == digits + check
  {
    var value := prefix + digits + check;
    assert value == prefix + (digits + check);
    if prefix == "" {
      assert digits[0] in digits;
      assert value[..2][0] == digits[0];
    } else {
      assert |prefix| == 2 && value[..2] == prefix;
    }
  }

  // ---------------------------------------------------------------------------
  // The inverted index
  // ---------------------------------------------------------------------------

  datatype Patent = Patent(vid: string, patentId: string, publication: string, application: string, granted: string)

  function FieldKeys(fold: string -> string, p: Patent): seq<string> {
    [NormalizeIdentifier(fold, p.patentId), NormalizeIdentifier(fold, p.publication),
     ApplicationNumberKey(fold, p.application), NormalizeIdentifier(fold, p.granted)]
  }

  /** VIDs, without repetition, of the patents one of whose four identifier fields has this key. */
  function Scan(fold: string -> string, rows: seq<Patent>, key: string): seq<string> {
    if rows == [] then []
    else
      var before, row := Scan(fold, rows[..|rows| - 1], key), rows[|rows| - 1];
      if key in FieldKeys(fold, row) && row.vid !in before then before + [row.vid] else before
  }

  type Index = map<string, seq<string>>

  function Lookup(index: Index, key: string): seq<string> {
    if key in index then index[key] else []
  }

  /** Looking a key up is scanning the four identifier fields of all patents. */
  ghost predicate Indexes(fold: string -> string, rows: seq<Patent>, index: Index) {
    forall key :: Lookup(index, key) == if key == "" then [] else Scan(fold, rows, key)
  }

  method IdentifierIndex(fold: string -> string, rows: seq<Patent>) returns (index: Index)
    ensures Indexes(fold, rows, index)
  {
    index := map[];
    for i := 0 to |rows|
      invariant Indexes(fold, rows[..i], index)
    {
      assert rows[..i + 1][..i] == rows[..i];
      index := AddPatent(index, rows[i].vid, FieldKeys(fold, rows[i]));
    }
    assert rows[..|rows|] == rows;
  }

  /** Enters a VID under its non-empty keys, once per key. */
  method AddPatent(start: Index, vid: string, keys: seq<string>) returns (index: Index)
    ensures forall key :: Lookup(index, key) ==
              Lookup(start, key) + if key != "" && key in keys && vid !in Lookup(start, key) then [vid] else []
  {
    index := start;
    for f := 0 to |keys|
      invariant forall key :: Lookup(index, key) ==
                  Lookup(start, key) + if key != "" && key in keys[..f] && vid !in Lookup(start, key) then [vid] else []
    {
      assert keys[..f + 1] == keys[..f] + [keys[f]];
      var key := keys[f];
      if key != "" && vid !in Lookup(index, key) {
        index := index[key := Lookup(index, key) + [vid]];
      }
    }
    assert keys[..|keys|] == keys;
  }

  lemma {:induction false} ScanMembers(fold: string -> string, rows: seq<Patent>, key: string)
    ensures forall vid :: vid in Scan(fold, rows, key) <==> exists p | p in rows :: p.vid == vid && key in FieldKeys(fold, p)
    ensures forall i, j | 0 <= i < j < |Scan(fold, rows, key)| :: Scan(fold, rows, key)[i] != Scan(fold, rows, key)[j]
  {
    if rows != [] {
      var before := rows[..|rows| - 1];
      ScanMembers(fold, before, key);
      assert rows == before + [rows[|rows| - 1]];
    }
  }

  /** The keys an identifier is looked up under: the general one and the application-number one. */
  function LookupKeys(fold: string -> string, value: string): set<string> {
    {NormalizeIdentifier(fold, value), ApplicationNumberKey(fold, value)} - {""}
  }

  /** The patents an identifier can denote. */
  function Named(fold: string -> string, rows: seq<Patent>, value: string): set<string> {
    set p, key | p in rows && key in LookupKeys(fold, value) && key in FieldKeys(fold, p) :: p.vid
  }

  ghost predicate Denotes(fold: string -> string, rows: seq<Patent>, value: string, vid: string) {
    Named(fold, rows, value) == {vid}
  }

  ghost predicate NoRepeats(vids: seq<string>) {
    forall i, j | 0 <= i < j < |vids| :: vids[i] != vids[j]
  }

  method PatentCandidates(fold: string -> string, ghost rows: seq<Patent>, index: Index, value: string)
    returns (vids: seq<string>)
    requires Indexes(fold, rows, index)
    ensures NoRepeats(vids) && (set v | v in vids) == Named(fold, rows, value)
    ensures |vids| == 1 ==> Denotes(fold, rows, value, vids[0])
    ensures |vids| != 1 ==> forall vid :: !Denotes(fold, rows, value, vid)
  {
    vids := [];
    var keys := LookupKeys(fold, value);
    var left := keys;
    while left != {}
      invariant left <= keys && NoRepeats(vids)
      invariant forall v :: v in vids <==> exists key | key in keys - left :: v in Scan(fold, rows, key)
      decreases left
    {
      var key :| key in left;
      assert keys - (left - {key}) == keys - left + {key};
      var found := Lookup(index, key);
      assert found == Scan(fold, rows, key);
      vids := AddAll(vids, found);
      left := left - {key};
    }
    assert keys - left == keys;
    CandidatesAreNamed(fold, rows, value, vids);
  }

  method AddAll(start: seq<string>, found: seq<string>) returns (vids: seq<string>)
    requires NoRepeats(start)
    ensures NoRepeats(vids) && forall v :: v in vids <==> v in start || v in found
  {
    vids := start;
    for i := 0 to |found|
      invariant NoRepeats(vids) && forall v :: v in vids <==> v in start || v in found[..i]
    {
      assert found[..i + 1] == found[..i] + [found[i]];
      if found[i] !in vids {
        vids := vids + [found[i]];
      }
    }
    assert found[..|found|] == found;
  }

  lemma CandidatesAreNamed(fold: string -> string, rows: seq<Patent>, value: string, vids: seq<string>)
    requires forall v :: v in vids <==> exists key | key in LookupKeys(fold, value) :: v in Scan(fold, rows, key)
    requires NoRepeats(vids)
    ensures (set v | v in vids) == Named(fold, rows, value)
    ensures |vids| == 1 ==> Denotes(fold, rows, value, vids[0])
    ensures |vids| != 1 ==> forall vid :: !Denotes(fold, rows, value, vid)
  {
    hide LookupKeys, FieldKeys, Scan;
    forall v
      ensures v in vids <==> v in Named(fold, rows, value)
    {
      if v in vids {
        var key :| key in LookupKeys(fold, value) && v in Scan(fold, rows, key);
        ScanMembers(fold, rows, key);
      }
      if v in Named(fold, rows, value) {
        var p, key :| p in rows && key in LookupKeys(fold, value) && key in FieldKeys(fold, p) && p.vid == v;
        ScanMembers(fold, rows, key);
      }
    }
    if |vids| > 1 {
      assert vids[0] in vids && vids[1] in vids;
    } else if |vids| == 1 {
      assert vids == [vids[0]];
    }
  }

  // ---------------------------------------------------------------------------
  // Citations
  // ---------------------------------------------------------------------------

  /** A row of the citation table: what a patent cites and what cites it. */
  datatype CitedRow = CitedRow(id: string, patentId: string, citations: seq<string>, citedBy: seq<string>)

  datatype Column = PatentCitations | CitedBy
  {
    function Name(): string { if PatentCitations? then "patent_citations" else "cited_by" }

    function Identifiers(row: CitedRow): seq<string> { if PatentCitations? then row.citations else row.citedBy }

    /** The direction of the edge between this row's patent and another one. */
    function Source(current: string, other: string): string { if PatentCitations? then current else other }

    function Target(current: string, other: string): string { if PatentCitations? then other else current }
  }

  function CitationEdge(row: CitedRow, column: Column, identifier: string, sequence: int, current: string, other: string): EdgeRecord {
    EdgeRecord("CITES", column.Source(current, other), column.Target(current, other), sequence,
               [("reference_identifier", Str(identifier)), ("sequence", Int(sequence)),
                ("confidence", Float(1_000_000)), ("match_method", Str("exact_patent_identifier")),
                ("match_evidence", Str("引用专利号与现有Patent唯一精确匹配")),
                ("source_table", Str("dwd_patent_cited")),
                ("source_record_id", Str(row.id + ":" + column.Name() + ":" + Signed(sequence)))])
  }

  /** The one patent an identifier denotes, if there is exactly one. */
  ghost function Denoted(fold: string -> string, patents: seq<Patent>, value: string): Option<string> {
    if exists vid :: Denotes(fold, patents, value, vid)
    then var vid :| Denotes(fold, patents, value, vid); Some(vid)
    else None
  }

  lemma OnlyCandidateIsDenoted(fold: string -> string, patents: seq<Patent>, value: string, vids: seq<string>)
    requires |vids| == 1 ==> Denotes(fold, patents, value, vids[0])
    requires |vids| != 1 ==> forall vid :: !Denotes(fold, patents, value, vid)
    ensures Denoted(fold, patents, value) == if |vids| == 1 then Some(vids[0]) else None
  {
    hide Named, Denotes;
    if |vids| == 1 {
      DenotedIs(fold, patents, value, vids[0]);
    }
  }

  /** The edges of the first `n` identifiers of a column. */
  ghost function ColumnEdges(fold: string -> string, patents: seq<Patent>, row: CitedRow, column: Column,
                             current: string, n: nat): seq<EdgeRecord>
    requires n <= |column.Identifiers(row)|
  {
    if n == 0 then []
    else
      var before := ColumnEdges(fold, patents, row, column, current, n - 1);
      var identifier := column.Identifiers(row)[n - 1];
      var other := Denoted(fold, patents, identifier);
      if other.None? || other.value == current then before
      else before + [CitationEdge(row, column, identifier, n, current, other.value)]
  }

  ghost function RowEdges(fold: string -> string, patents: seq<Patent>, row: CitedRow): seq<EdgeRecord> {
    var current := Denoted(fold, patents, row.patentId);
    if current.None? then []
    else ColumnEdges(fold, patents, row, PatentCitations, current.value, |row.citations|)
         + ColumnEdges(fold, patents, row, CitedBy, current.value, |row.citedBy|)
  }

  ghost function AllEdges(fold: string -> string, patents: seq<Patent>, rows: seq<CitedRow>): seq<EdgeRecord> {
    if rows == [] then []
    else AllEdges(fold, patents, rows[..|rows| - 1]) + RowEdges(fold, patents, rows[|rows| - 1])
  }

  method CitationEdges(fold: string -> string, ghost patents: seq<Patent>, index: Index, rows: seq<CitedRow>)
    returns (edges: seq<EdgeRecord>)
    requires Indexes(fold, patents, index)
    ensures edges == AllEdges(fold, patents, rows)
  {
    hide Denoted, Denotes, Named, Indexes, ColumnEdges;
    edges := [];
    for i := 0 to |rows|
      invariant edges == AllEdges(fold, patents, rows[..i])
    {
      assert rows[..i + 1][..i] == rows[..i];
      var row := rows[i];
      var current := PatentCandidates(fold, patents, index, row.patentId);
      OnlyCandidateIsDenoted(fold, patents, row.patentId, current);
      if |current| == 1 {
        var citing := ColumnCitations(fold, patents, index, row, PatentCitations, current[0]);
        var cited := ColumnCitations(fold, patents, index, row, CitedBy, current[0]);
        edges := edges + (citing + cited);
      }
    }
    assert rows[..|rows|] == rows;
  }

  method ColumnCitations(fold: string -> string, ghost patents: seq<Patent>, index: Index, row: CitedRow,
                         column: Column, current: string)
    returns (edges: seq<EdgeRecord>)
    requires Indexes(fold, patents, index)
    ensures edges == ColumnEdges(fold, patents, row, column, current, |column.Identifiers(row)|)
  {
    hide Denoted, Denotes, Named, CitationEdge, Indexes;
    edges := [];
    var identifiers := column.Identifiers(row);
    for n := 0 to |identifiers|
      invariant edges == ColumnEdges(fold, patents, row, column, current, n)
    {
      var candidates := PatentCandidates(fold, patents, index, identifiers[n]);
      OnlyCandidateIsDenoted(fold, patents, identifiers[n], candidates);
      if |candidates| == 1 && candidates[0] != current {
        edges := edges + [CitationEdge(row, column, identifiers[n], n + 1, current, candidates[0])];
      }
    }
  }

  // ---------------------------------------------------------------------------
  // The merge of the two columns
  // ---------------------------------------------------------------------------

  /** Identifier `i` of the column contributes the edge `k`. */
  ghost predicate Contributes(fold: string -> string, patents: seq<Patent>, row: CitedRow, column: Column,
                              current: string, i: int, k: EdgeKey) {
    && 0 <= i < |column.Identifiers(row)|
    && var other := Denoted(fold, patents, column.Identifiers(row)[i]);
       && other.Some? && other.value != current
       && k == EdgeKey("CITES", column.Source(current, other.value), column.Target(current, other.value), 0)
  }

  lemma {:induction false} ColumnKeys(fold: string -> string, patents: seq<Patent>, row: CitedRow, column: Column,
                                      current: string, n: nat, k: EdgeKey)
    requires n <= |column.Identifiers(row)|
    ensures k in KeySet(ColumnEdges(fold, patents, row, column, current, n)) <==>
            exists i | 0 <= i < n :: Contributes(fold, patents, row, column, current, i, k)
  {
    hide Denoted, KeySet;
    if n == 0 {
      assert KeySet([]) == {} by { KeySetOfNone(); }
    } else {
      ColumnKeys(fold, patents, row, column, current, n - 1, k);
      var identifier := column.Identifiers(row)[n - 1];
      var other := Denoted(fold, patents, identifier);
      if other.Some? && other.value != current {
        var e := CitationEdge(row, column, identifier, n, current, other.value);
        KeySetConcat(ColumnEdges(fold, patents, row, column, current, n - 1), [e]);
        KeySetOfOne(e);
        assert e.Key() == EdgeKey("CITES", column.Source(current, other.value), column.Target(current, other.value), 0);
        assert Contributes(fold, patents, row, column, current, n - 1, k) <==> k == e.Key();
      }
    }
  }

  lemma DenotedIs(fold: string -> string, patents: seq<Patent>, value: string, vid: string)
    ensures Denotes(fold, patents, value, vid) <==> Denoted(fold, patents, value) == Some(vid)
  {
    if Denotes(fold, patents, value, vid) {
      assert vid in Named(fold, patents, value);
    }
  }

  /** What one row says about the pair (a, b). */
  ghost predicate RowCites(fold: string -> string, patents: seq<Patent>, row: CitedRow, a: string, b: string) {
    || (Denotes(fold, patents, row.patentId, a) && exists v | v in row.citations :: Denotes(fold, patents, v, b))
    || (Denotes(fold, patents, row.patentId, b) && exists v | v in row.citedBy :: Denotes(fold, patents, v, a))
  }

  lemma ColumnCites(fold: string -> string, patents: seq<Patent>, row: CitedRow, column: Column, current: string, other: string)
    requires current != other
    ensures var k := EdgeKey("CITES", column.Source(current, other), column.Target(current, other), 0);
            k in KeySet(ColumnEdges(fold, patents, row, column, current, |column.Identifiers(row)|)) <==>
            exists v | v in column.Identifiers(row) :: Denotes(fold, patents, v, other)
  {
    hide KeySet, Denoted, Denotes;
    var k := EdgeKey("CITES", column.Source(current, other), column.Target(current, other), 0);
    var ids := column.Identifiers(row);
    ColumnKeys(fold, patents, row, column, current, |ids|, k);
    if v :| v in ids && Denotes(fold, patents, v, other) {
      DenotedIs(fold, patents, v, other);
      var i :| 0 <= i < |ids| && ids[i] == v;
      assert Contributes(fold, patents, row, column, current, i, k);
    }
    if i :| 0 <= i < |ids| && Contributes(fold, patents, row, column, current, i, k) {
      DenotedIs(fold, patents, ids[i], other);
      assert ids[i] in ids;
    }
  }

  /** Keys of a column always join this row's patent to another one. */
  lemma ColumnKeyShape(fold: string -> string, patents: seq<Patent>, row: CitedRow, column: Column,
                       current: string, k: EdgeKey)
    requires k in KeySet(ColumnEdges(fold, patents, row, column, current, |column.Identifiers(row)|))
    ensures exists other :: other != current
              && k == EdgeKey("CITES", column.Source(current, other), column.Target(current, other), 0)
  {
    hide KeySet, Denoted;
    ColumnKeys(fold, patents, row, column, current, |column.Identifiers(row)|, k);
    var i :| 0 <= i < |column.Identifiers(row)| && Contributes(fold, patents, row, column, current, i, k);
    assert Denoted(fold, patents, column.Identifiers(row)[i]).value != current;
  }

  lemma RowKeys(fold: string -> string, patents: seq<Patent>, row: CitedRow, a: string, b: string)
    ensures EdgeKey("CITES", a, b, 0) in KeySet(RowEdges(fold, patents, row)) <==>
            a != b && RowCites(fold, patents, row, a, b)
  {
    hide KeySet, Denoted, Denotes, ColumnEdges;
    var k := EdgeKey("CITES", a, b, 0);
    DenotedIs(fold, patents, row.patentId, a);
    DenotedIs(fold, patents, row.patentId, b);
    var current := Denoted(fold, patents, row.patentId);
    if current.None? {
      KeySetOfNone();
    } else {
      var citing := ColumnEdges(fold, patents, row, PatentCitations, current.value, |row.citations|);
      var cited := ColumnEdges(fold, patents, row, CitedBy, current.value, |row.citedBy|);
      KeySetConcat(citing, cited);
      if k in KeySet(citing) { ColumnKeyShape(fold, patents, row, PatentCitations, current.value, k); }
      if k in KeySet(cited) { ColumnKeyShape(fold, patents, row, CitedBy, current.value, k); }
      if current.value == a && a != b { ColumnCites(fold, patents, row, PatentCitations, a, b); }
      if current.value == b && a != b { ColumnCites(fold, patents, row, CitedBy, b, a); }
    }
  }

  lemma {:induction false} AllKeys(fold: string -> string, patents: seq<Patent>, rows: seq<CitedRow>, a: string, b: string)
    ensures EdgeKey("CITES", a, b, 0) in KeySet(AllEdges(fold, patents, rows)) <==>
            a != b && exists row | row in rows :: RowCites(fold, patents, row, a, b)
  {
    hide KeySet, RowEdges, RowCites;
    if rows == [] {
      KeySetOfNone();
    } else {
      var before, row := rows[..|rows| - 1], rows[|rows| - 1];
      AllKeys(fold, patents, before, a, b);
      RowKeys(fold, patents, row, a, b);
      KeySetConcat(AllEdges(fold, patents, before), RowEdges(fold, patents, row));
      assert rows == before + [row];
    }
  }

  /** After deduplication CITES holds the pair (a, b) exactly once iff the patents differ and some row
      says that `a` cites `b`: in the citation list of `a`, or in the cited-by list of `b`. */
  lemma CitationMerge(fold: string -> string, patents: seq<Patent>, rows: seq<CitedRow>, a: string, b: string)
    ensures var merged := Dedup(AllEdges(fold, patents, rows));
            var k := EdgeKey("CITES", a, b, 0);
            && ((exists i :: 0 <= i < |merged| && merged[i].Cell() == k) <==>
                a != b && exists row | row in rows :: RowCites(fold, patents, row, a, b))
            && forall i, j | 0 <= i < |merged| && 0 <= j < |merged| && merged[i].Cell() == k == merged[j].Cell() :: i == j
  {
    hide AllEdges, RowCites, Dedup, KeySet;
    AllKeys(fold, patents, rows, a, b);
    KeptCells(AllEdges(fold, patents, rows), EdgeKey("CITES", a, b, 0));
  }

  // ---------------------------------------------------------------------------
  // What an identifier denotes
  // ---------------------------------------------------------------------------

  /** Cleaning keeps the ASCII digits and lower-case letters, in order, and nothing else. */
  lemma {:induction false} CleanConcat(a: string, b: string)
    ensures Clean(a + b) == Clean(a) + Clean(b)
  {
    if b == "" {
      assert a + b == a;
    } else {
      CleanConcat(a, b[..|b| - 1]);
      assert (a + b)[..|a + b| - 1] == a + b[..|b| - 1];
    }
  }

  lemma CleanChar(c: char)
    ensures Clean([c]) == if '0' <= c <= '9' || 'a' <= c <= 'z' then [c] else ""
  {
    assert [c][..0] == "";
    assert Clean("") == "";
  }

  /** The key of twelve digits, perhaps between `cn` or `zl` and one more letter or digit. */
  ghost predicate IsApplication(key: string, digits: string) {
    && |digits| == 12 && (forall c | c in digits :: '0' <= c <= '9')
    && exists prefix, check :: prefix in {"", "cn", "zl"} && |check| <= 1 && key == prefix + digits + check
  }

  /** The application-number key of an identifier is `cn` and the twelve digits if it has that form, and
      the cleaned identifier itself if not. */
  lemma ApplicationKeyIs(fold: string -> string, value: string)
    ensures forall digits | IsApplication(Clean(fold(value)), digits) :: ApplicationNumberKey(fold, value) == "cn" + digits
    ensures (forall digits :: !IsApplication(Clean(fold(value)), digits)) ==> ApplicationNumberKey(fold, value) == Clean(fold(value))
  {
    hide Clean;
    var key := Clean(fold(value));
    forall digits | IsApplication(key, digits)
      ensures ApplicationNumberKey(fold, value) == "cn" + digits
    {
      var prefix, check :| prefix in {"", "cn", "zl"} && |check| <= 1 && key == prefix + digits + check;
      BodyOf(digits, prefix, check);
      assert Body(key)[..12] == digits;
      assert forall i | 0 <= i < 12 :: Body(key)[i] == digits[i] && digits[i] in digits;
    }
    if IsCnBody(Body(key)) {
      BodyIsApplication(key);
    }
  }

  lemma BodyIsApplication(key: string)
    requires IsCnBody(Body(key))
    ensures IsApplication(key, Body(key)[..12])
  {
    hide Body, IsApplication;
    var body := Body(key);
    BodyIsTail(key);
    assert body == body[..12] + body[12..];
    Assembled(key[..|key| - |body|], body[..12], body[12..]);
    assert key[..|key| - |body|] + body[..12] + body[12..] == key;
  }

  lemma Assembled(prefix: string, digits: string, check: string)
    requires prefix in {"", "cn", "zl"} && |digits| == 12 && |check| <= 1
    requires forall i | 0 <= i < |digits| :: '0' <= digits[i] <= '9'
    ensures IsApplication(prefix + digits + check, digits)
  {
  }

  lemma BodyIsTail(key: string)
    ensures |Body(key)| <= |key| && key[..|key| - |Body(key)|] in {"", "cn", "zl"} && key == key[..|key| - |Body(key)|] + Body(key)
  {
  }

  /** The patent has one of the identifier's two keys in one of its four fields: the general key, or the
      application-number key in the application field. */
  ghost predicate Matches(fold: string -> string, p: Patent, value: string) {
    exists key :: key != "" && key in {NormalizeIdentifier(fold, value), ApplicationNumberKey(fold, value)} && HasField(fold, p, key)
  }

  ghost predicate HasField(fold: string -> string, p: Patent, key: string) {
    || NormalizeIdentifier(fold, p.patentId) == key || NormalizeIdentifier(fold, p.publication) == key
    || ApplicationNumberKey(fold, p.application) == key || NormalizeIdentifier(fold, p.granted) == key
  }

  /** An identifier denotes a vertex iff some patent of that vertex matches it and no patent of another. */
  lemma DenotesIff(fold: string -> string, rows: seq<Patent>, value: string, vid: string)
    ensures Denotes(fold, rows, value, vid) <==>
              && (exists p | p in rows :: p.vid == vid && Matches(fold, p, value))
              && forall p | p in rows && Matches(fold, p, value) :: p.vid == vid
  {
    hide NormalizeIdentifier, ApplicationNumberKey;
    var named := Named(fold, rows, value);
    forall p | p in rows && Matches(fold, p, value)
      ensures p.vid in named
    {
      var key :| key != "" && key in {NormalizeIdentifier(fold, value), ApplicationNumberKey(fold, value)} && HasField(fold, p, key);
      assert key in LookupKeys(fold, value) && key in FieldKeys(fold, p);
    }
    forall v | v in named
      ensures exists p | p in rows :: p.vid == v && Matches(fold, p, value)
    {
      var p, key :| p in rows && key in LookupKeys(fold, value) && key in FieldKeys(fold, p) && p.vid == v;
      assert HasField(fold, p, key);
    }
  }

  lemma {:induction false} ColumnSource(fold: string -> string, patents: seq<Patent>, row: CitedRow, column: Column,
                                        current: string, n: nat, e: EdgeRecord) returns (i: nat, other: string)
    requires n <= |column.Identifiers(row)| && e in ColumnEdges(fold, patents, row, column, current, n)
    ensures i < |column.Identifiers(row)| && other != current && Denotes(fold, patents, column.Identifiers(row)[i], other)
    ensures e == CitationEdge(row, column, column.Identifiers(row)[i], i + 1, current, other)
  {
    hide Denoted, Denotes, CitationEdge;
    var identifier := column.Identifiers(row)[n - 1];
    var found := Denoted(fold, patents, identifier);
    if e in ColumnEdges(fold, patents, row, column, current, n - 1) {
      i, other := ColumnSource(fold, patents, row, column, current, n - 1, e);
    } else {
      i, other := n - 1, found.value;
      DenotedIs(fold, patents, identifier, other);
    }
  }

  /** The record comes from position `i` of a row's own citations. */
  ghost predicate FromCitations(fold: string -> string, patents: seq<Patent>, row: CitedRow, i: int, e: EdgeRecord) {
    && 0 <= i < |row.citations| && Denotes(fold, patents, row.patentId, e.source)
    && Denotes(fold, patents, row.citations[i], e.target)
    && e.rank == i + 1 && ("reference_identifier", Str(row.citations[i])) in e.properties
    && ("source_record_id", Str(row.id + ":patent_citations:" + Signed(i + 1))) in e.properties
  }

  /** The record comes from position `i` of a row's cited-by list. */
  ghost predicate FromCitedBy(fold: string -> string, patents: seq<Patent>, row: CitedRow, i: int, e: EdgeRecord) {
    && 0 <= i < |row.citedBy| && Denotes(fold, patents, row.patentId, e.target)
    && Denotes(fold, patents, row.citedBy[i], e.source)
    && e.rank == i + 1 && ("reference_identifier", Str(row.citedBy[i])) in e.properties
    && ("source_record_id", Str(row.id + ":cited_by:" + Signed(i + 1))) in e.properties
  }

  /** A citation between exactly matching identifiers, with its rank as number. */
  ghost predicate SaysExact(e: EdgeRecord) {
    && e.edgeType == "CITES" && ("sequence", Int(e.rank)) in e.properties && ("confidence", Float(1_000_000)) in e.properties
    && ("match_method", Str("exact_patent_identifier")) in e.properties && ("source_table", Str("dwd_patent_cited")) in e.properties
  }

  lemma RowSource(fold: string -> string, patents: seq<Patent>, row: CitedRow, e: EdgeRecord)
    requires e in RowEdges(fold, patents, row)
    ensures e.source != e.target && SaysExact(e)
    ensures exists i :: FromCitations(fold, patents, row, i, e) || FromCitedBy(fold, patents, row, i, e)
  {
    hide Denoted, Denotes, ColumnEdges, Signed, SaysExact;
    var current := Denoted(fold, patents, row.patentId).value;
    DenotedIs(fold, patents, row.patentId, current);
    if e in ColumnEdges(fold, patents, row, PatentCitations, current, |row.citations|) {
      var i, other := ColumnSource(fold, patents, row, PatentCitations, current, |row.citations|, e);
      SaysSource(row, PatentCitations, row.citations[i], i + 1, current, other);
      assert FromCitations(fold, patents, row, i, e);
    } else {
      var i, other := ColumnSource(fold, patents, row, CitedBy, current, |row.citedBy|, e);
      SaysSource(row, CitedBy, row.citedBy[i], i + 1, current, other);
      assert FromCitedBy(fold, patents, row, i, e);
    }
  }

  lemma CitationAt(row: CitedRow, column: Column, identifier: string, sequence: int, current: string, other: string)
    ensures var e := CitationEdge(row, column, identifier, sequence, current, other);
            var ps := e.properties;
            && e.edgeType == "CITES" && e.rank == sequence && |ps| == 7
            && ps[0] == ("reference_identifier", Str(identifier)) && ps[1] == ("sequence", Int(sequence))
            && ps[2] == ("confidence", Float(1_000_000)) && ps[3] == ("match_method", Str("exact_patent_identifier"))
            && ps[5] == ("source_table", Str("dwd_patent_cited"))
            && ps[6] == ("source_record_id", Str(row.id + ":" + column.Name() + ":" + Signed(sequence)))
  {
  }

  lemma SaysSource(row: CitedRow, column: Column, identifier: string, sequence: int, current: string, other: string)
    ensures var ps := CitationEdge(row, column, identifier, sequence, current, other).properties;
            var name := if column.PatentCitations? then ":patent_citations:" else ":cited_by:";
            && ("reference_identifier", Str(identifier)) in ps
            && ("source_record_id", Str(row.id + name + Signed(sequence))) in ps
    ensures SaysExact(CitationEdge(row, column, identifier, sequence, current, other))
  {
    hide Signed, CitationEdge;
    CitationAt(row, column, identifier, sequence, current, other);
    assert row.id + ":" + column.Name() + ":" == row.id + if column.PatentCitations? then ":patent_citations:" else ":cited_by:";
  }

  /** Every citation record names the row, the list and the position that it was read from, and both ends
      are the patents that the row and the identifier there denote. */
  lemma {:induction false} CitationsTraced(fold: string -> string, patents: seq<Patent>, rows: seq<CitedRow>, e: EdgeRecord)
    requires e in AllEdges(fold, patents, rows)
    ensures e.source != e.target && SaysExact(e)
    ensures exists row, i :: row in rows && (FromCitations(fold, patents, row, i, e) || FromCitedBy(fold, patents, row, i, e))
  {
    hide RowEdges, FromCitations, FromCitedBy, SaysExact;
    var before, row := rows[..|rows| - 1], rows[|rows| - 1];
    assert rows == before + [row];
    if e in RowEdges(fold, patents, row) {
      RowSource(fold, patents, row, e);
    } else {
      CitationsTraced(fold, patents, before, e);
    }
  }
}
