/** Reading projects from two tables, page by page, by prefix or by exact id. */
module ProjectPaging {
  import opened Options
  import opened Paging
  import opened TextOps

  datatype Row = Row(id: string, data: string)

  datatype Source = Zh | En

  type Loaded = seq<(Row, Source)>

  // ---------------------------------------------------------------------------
  // The filtered query
  // ---------------------------------------------------------------------------

  /** SQL LIKE: `%` matches any text, `_` any character, a backslash takes the next character literally. */
  predicate Like(pattern: string, s: string)
    decreases |pattern| + |s|
  {
    if pattern == "" then s == ""
    else if pattern[0] == '%' then Like(pattern[1..], s) || (s != "" && Like(pattern, s[1..]))
    else if pattern[0] == '\\' && |pattern| > 1 then s != "" && s[0] == pattern[1] && Like(pattern[2..], s[1..])
    else s != "" && (pattern[0] == '_' || pattern[0] == s[0]) && Like(pattern[1..], s[1..])
  }

  /** The rows whose id is LIKE the prefix followed by `%`; all rows when there is no prefix. */
  function Filter(table: seq<Row>, prefix: string): seq<Row> {
    if table == [] then []
    else
      var before, row := Filter(table[..|table| - 1], prefix), table[|table| - 1];
      if prefix == "" || Like(prefix + "%", row.id) then before + [row] else before
  }

  /** The primary key order. */
  ghost predicate Sorted(table: seq<Row>) {
    forall i, j | 0 <= i < j < |table| :: Less(table[i].id, table[j].id)
  }

  function WithId(rows: seq<Row>, id: string): seq<Row> {
    if rows == [] then []
    else
      var before, row := WithId(rows[..|rows| - 1], id), rows[|rows| - 1];
      if row.id == id then before + [row] else before
  }

  function Tagged(rows: seq<Row>, source: Source): Loaded {
    seq(|rows|, i requires 0 <= i < |rows| => (rows[i], source))
  }

  const PAGE := 200

  function PageSize(limit: Option<int>, have: nat): (n: nat)
    ensures n <= PAGE
  {
    if limit.None? then PAGE
    else if limit.value <= have then 0
    else if limit.value - have < PAGE then limit.value - have else PAGE
  }

  function Take<T>(items: seq<T>, limit: Option<int>): seq<T> {
    if limit.None? || limit.value >= |items| then items
    else if limit.value <= 0 then [] else items[..limit.value]
  }

  // ---------------------------------------------------------------------------
  // Without an id
  // ---------------------------------------------------------------------------

  /** The page loop over one table; `done` says that the limit was reached. */
  method LoadTable(table: seq<Row>, source: Source, prefix: string, limit: Option<int>, start: Loaded)
    returns (rows: Loaded, done: bool)
    requires limit.Some? ==> |start| <= limit.value
    ensures rows == Take(start + Tagged(Filter(table, prefix), source), limit)
    ensures done ==> limit.Some? && |rows| == limit.value
    ensures !done ==> rows == start + Tagged(Filter(table, prefix), source)
  {
    hide Filter;
    rows, done := start, false;
    var matching := Filter(table, prefix);
    var offset := 0;
    assert start + Tagged(matching[..0], source) == start;
    while true
      invariant offset <= |matching| && rows == start + Tagged(matching[..offset], source)
      invariant limit.Some? ==> |rows| <= limit.value
      decreases |matching| - offset
    {
      var size := PageSize(limit, |rows|);
      if size == 0 {
        TakeLoaded(start, matching, offset, source, limit);
        return rows, true;
      }
      var chunk := Page(matching, offset, size);
      if chunk == [] {
        break;
      }
      rows := rows + Tagged(chunk, source);
      ChunkLoaded(start, matching, offset, chunk, source);
      offset := offset + |chunk|;
      if limit.Some? && |rows| >= limit.value {
        TakeLoaded(start, matching, offset, source, limit);
        return rows, true;
      }
      if |chunk| < size {
        break;
      }
    }
    assert matching[..offset] == matching;
  }

  lemma ChunkLoaded(start: Loaded, matching: seq<Row>, offset: nat, chunk: seq<Row>, source: Source)
    requires offset + |chunk| <= |matching| && chunk == matching[offset..offset + |chunk|]
    ensures start + Tagged(matching[..offset], source) + Tagged(chunk, source)
         == start + Tagged(matching[..offset + |chunk|], source)
  {
    assert Tagged(matching[..offset], source) + Tagged(chunk, source) == Tagged(matching[..offset + |chunk|], source);
  }

  lemma TakeLoaded(start: Loaded, matching: seq<Row>, offset: nat, source: Source, limit: Option<int>)
    requires offset <= |matching| && limit.Some? && |start| + offset == limit.value
    ensures start + Tagged(matching[..offset], source) == Take(start + Tagged(matching, source), limit)
  {
  }

  /** Both tables, for every table size: the first `limit` of the zh rows followed by the en rows. */
  method LoadByPrefix(zh: seq<Row>, en: seq<Row>, prefix: string, limit: Option<int>) returns (rows: Loaded)
    ensures rows == Take(Tagged(Filter(zh, prefix), Zh) + Tagged(Filter(en, prefix), En), limit)
  {
    hide Filter;
    if limit.Some? && limit.value <= 0 {
      return [];
    }
    var done;
    rows, done := LoadTable(zh, Zh, prefix, limit, []);
    assert [] + Tagged(Filter(zh, prefix), Zh) == Tagged(Filter(zh, prefix), Zh);
    if done {
      return;
    }
    rows, done := LoadTable(en, En, prefix, limit, rows);
  }

  /** A table's matching rows, in its order. */
  lemma {:induction false} FilterIff(table: seq<Row>, prefix: string, r: Row)
    ensures r in Filter(table, prefix) <==> r in table && (prefix == "" || Like(prefix + "%", r.id))
    ensures table != [] ==> Filter(table[..|table| - 1], prefix) <= Filter(table, prefix)
  {
    hide Like;
    if table != [] {
      FilterIff(table[..|table| - 1], prefix, r);
      assert table == table[..|table| - 1] + [table[|table| - 1]];
    }
  }

  /** What is loaded by prefix, row by row. */
  lemma LoadedRows(zh: seq<Row>, en: seq<Row>, prefix: string, limit: Option<int>)
    ensures var a, b := Filter(zh, prefix), Filter(en, prefix);
            var rows := Take(Tagged(a, Zh) + Tagged(b, En), limit);
            && |rows| == (if limit.None? || limit.value > |a| + |b| then |a| + |b| else if limit.value > 0 then limit.value else 0)
            && forall i | 0 <= i < |rows| :: rows[i] == if i < |a| then (a[i], Zh) else (b[i - |a|], En)
  {
    hide Filter;
  }

  /** With an id: at most one row of a table has it, and it comes with that table's name. */
  lemma {:induction false} LoadedRow(table: seq<Row>, id: string, source: Source, r: Row)
    requires Sorted(table)
    ensures r in table && r.id == id ==> Tagged(WithId(table, id), source) == [(r, source)]
    ensures (forall x | x in table :: x.id != id) ==> Tagged(WithId(table, id), source) == []
  {
    if table != [] {
      var before, last := table[..|table| - 1], table[|table| - 1];
      assert table == before + [last];
      LoadedRow(before, id, source, r);
      if last.id == id {
        LoadedRow(before, id, source, last);
        forall x | x in before
          ensures x.id != id
        {
          LessIsTotal(x.id, last.id);
        }
      }
    }
  }

  // ---------------------------------------------------------------------------
  // With an id
  // ---------------------------------------------------------------------------

  /** Only one page of each table is searched for the exact id. */
  method LoadById(zh: seq<Row>, en: seq<Row>, id: string, limit: Option<int>) returns (rows: Loaded)
    requires id != ""
    ensures var size := if limit.None? || limit.value > 200 then 200 else if limit.value > 0 then limit.value else 0;
            var inZh, inEn := WithId(Page(Filter(zh, id), 0, size), id), WithId(Page(Filter(en, id), 0, size), id);
            rows == if inZh != [] then Take(Tagged(inZh, Zh), limit) else Take(Tagged(inEn, En), limit)
  {
    rows := [];
    var size := PageSize(limit, 0);
    if size == 0 {
      return;
    }
    var chunk := WithId(Page(Filter(zh, id), 0, size), id);
    if chunk != [] {
      return Take(Tagged(chunk, Zh), limit);
    }
    chunk := WithId(Page(Filter(en, id), 0, size), id);
    return Take(Tagged(chunk, En), limit);
  }

  /** The loader: an id takes precedence over a prefix. */
  method LoadProjectRows(zh: seq<Row>, en: seq<Row>, projectId: string, idPrefix: string, limit: Option<int>)
    returns (rows: Loaded)
    ensures projectId == "" ==>
              rows == Take(Tagged(Filter(zh, idPrefix), Zh) + Tagged(Filter(en, idPrefix), En), limit)
    ensures projectId != "" && Sorted(zh) && Sorted(en) ==>
              var size := if limit.None? || limit.value > 200 then 200 else if limit.value > 0 then limit.value else 0;
              rows == if FirstPageHas(zh, projectId, size) then Tagged(WithId(zh, projectId), Zh)
                      else if FirstPageHas(en, projectId, size) then Tagged(WithId(en, projectId), En) else []
  {
    hide Filter, WithId, Like, Rank;
    if projectId == "" {
      rows := LoadByPrefix(zh, en, idPrefix, limit);
      return;
    }
    rows := LoadById(zh, en, projectId, limit);
    if Sorted(zh) && Sorted(en) {
      FirstPage(zh, projectId, PageSize(limit, 0));
      FirstPage(en, projectId, PageSize(limit, 0));
    }
  }

  // ---------------------------------------------------------------------------
  // When one page suffices
  // ---------------------------------------------------------------------------

  /** How many rows the query puts before the exact id. */
  function Rank(table: seq<Row>, id: string): nat {
    if table == [] then 0
    else
      var row := table[|table| - 1];
      Rank(table[..|table| - 1], id) + if Like(id + "%", row.id) && Less(row.id, id) then 1 else 0
  }

  /** The row exists, matches its own pattern, and fewer than a page of matching rows precede it. */
  predicate FirstPageHas(table: seq<Row>, id: string, size: nat) {
    WithId(table, id) != [] && Like(id + "%", id) && Rank(table, id) < size
  }

  lemma {:induction false} NoneYet(table: seq<Row>, id: string)
    requires id != "" && forall r | r in table :: Less(r.id, id)
    ensures WithId(table, id) == [] && WithId(Filter(table, id), id) == []
    ensures |Filter(table, id)| == Rank(table, id)
  {
    if table != [] {
      var before, row := table[..|table| - 1], table[|table| - 1];
      assert table == before + [row];
      NoneYet(before, id);
      LessIsTotal(row.id, id);
    }
  }

  lemma PageFirst<T>(rows: seq<T>, size: nat)
    ensures Page(rows, 0, size) == rows[..if size < |rows| then size else |rows|]
  {
  }

  lemma {:induction false} WithIdPrefix(rows: seq<Row>, id: string, n: nat)
    requires WithId(rows, id) == [] && n <= |rows|
    ensures WithId(rows[..n], id) == []
  {
    if n < |rows| {
      WithIdPrefix(rows[..|rows| - 1], id, n);
      assert rows[..|rows| - 1][..n] == rows[..n];
    } else {
      assert rows[..n] == rows;
    }
  }

  lemma WithIdAppend(rows: seq<Row>, row: Row, id: string)
    ensures WithId(rows + [row], id) == WithId(rows, id) + if row.id == id then [row] else []
  {
    assert (rows + [row])[..|rows|] == rows;
  }

  /** What the first page of a table yields for an id. */
  lemma {:induction false} FirstPage(table: seq<Row>, id: string, size: nat)
    requires id != "" && Sorted(table)
    ensures WithId(Page(Filter(table, id), 0, size), id) == if FirstPageHas(table, id, size) then WithId(table, id) else []
    ensures |WithId(table, id)| <= 1
  {
    hide Like;
    if table != [] {
      var before, row := table[..|table| - 1], table[|table| - 1];
      assert forall i | 0 <= i < |before| :: before[i] == table[i];
      LessIsTotal(row.id, id);
      if Less(id, row.id) {
        FirstPage(before, id, size);
        PageOfLonger(Filter(before, id), row, id, size);
      } else {
        forall r | r in before
          ensures Less(r.id, id)
        {
          if row.id != id { LessChain(r.id, row.id, id); }
        }
        if row.id == id {
          NoneYet(before, id);
          PageAtRow(Filter(before, id), row, id, size);
        } else {
          assert table == before + [row];
          NoneYet(table, id);
        }
        PageFirst(Filter(table, id), size);
        if WithId(Filter(table, id), id) == [] {
          WithIdPrefix(Filter(table, id), id, if size < |Filter(table, id)| then size else |Filter(table, id)|);
        }
      }
    }
  }

  lemma LessChain(a: string, b: string, c: string)
    requires Less(a, b) && Less(b, c)
    ensures Less(a, c)
  {
    LessIsTotal(a, b);
    LessIsTotal(b, c);
    LessIsTotal(a, c);
    LessTransitive(a, b, c);
    if !Less(a, c) {
      LessTransitive(c, a, b);
    }
  }

  /** A later row of another id on the page changes nothing. */
  lemma PageOfLonger(rows: seq<Row>, row: Row, id: string, size: nat)
    requires row.id != id
    ensures WithId(Page(rows + [row], 0, size), id) == WithId(Page(rows, 0, size), id)
  {
    PageFirst(rows, size);
    PageFirst(rows + [row], size);
    if size <= |rows| {
      assert (rows + [row])[..size] == rows[..size];
    } else {
      assert rows[..|rows|] == rows && (rows + [row])[..|rows| + 1] == rows + [row];
      WithIdAppend(rows, row, id);
    }
  }

  /** The exact row is on the page iff the rows before it leave room. */
  lemma PageAtRow(rows: seq<Row>, row: Row, id: string, size: nat)
    requires row.id == id && WithId(rows, id) == []
    ensures WithId(Page(rows + [row], 0, size), id) == if |rows| < size then [row] else []
  {
    PageFirst(rows + [row], size);
    if |rows| < size {
      assert (rows + [row])[..|rows| + 1] == rows + [row];
      WithIdAppend(rows, row, id);
    } else {
      assert (rows + [row])[..size] == rows[..size];
      WithIdPrefix(rows, id, size);
    }
  }

  // ---------------------------------------------------------------------------
  // Ids without wildcards
  // ---------------------------------------------------------------------------

  predicate IsPlain(id: string) {
    forall c | c in id :: c != '%' && c != '_' && c != '\\'
  }

  lemma {:induction false} LikeAny(s: string)
    ensures Like("%", s)
  {
    if s != "" {
      LikeAny(s[1..]);
    } else {
      assert "%"[1..] == "";
    }
  }

  /** For a plain prefix, LIKE is the prefix test. */
  lemma {:induction false} LikePlain(prefix: string, s: string)
    requires IsPlain(prefix)
    ensures Like(prefix + "%", s) <==> prefix <= s
  {
    if prefix == "" {
      assert prefix + "%" == "%";
      LikeAny(s);
    } else {
      assert prefix[0] in prefix;
      assert (prefix + "%")[1..] == prefix[1..] + "%";
      if s != "" {
        assert forall c | c in prefix[1..] :: c in prefix;
        LikePlain(prefix[1..], s[1..]);
        assert prefix == [prefix[0]] + prefix[1..] && s == [s[0]] + s[1..];
      }
    }
  }

  lemma {:induction false} ExtensionsFollow(id: string, s: string)
    requires id <= s
    ensures !Less(s, id)
  {
    if id != "" {
      ExtensionsFollow(id[1..], s[1..]);
    }
  }

  lemma {:induction false} PlainRank(table: seq<Row>, id: string)
    requires IsPlain(id)
    ensures Rank(table, id) == 0
  {
    if table != [] {
      var row := table[|table| - 1];
      PlainRank(table[..|table| - 1], id);
      LikePlain(id, row.id);
      if id <= row.id {
        ExtensionsFollow(id, row.id);
      }
    }
  }

  /** A plain id sorts before all its extensions, so one page finds it exactly when the table has it. */
  lemma OnePageSuffices(table: seq<Row>, id: string, limit: Option<int>)
    requires IsPlain(id)
    ensures FirstPageHas(table, id, PageSize(limit, 0)) <==> WithId(table, id) != [] && (limit.Some? ==> limit.value > 0)
  {
    hide WithId, Rank;
    PlainRank(table, id);
    LikePlain(id, id);
  }

  /** An underscore in the id is a wildcard: a matching row that sorts before it fills the page. */
  lemma WildcardHidesARow()
    ensures var table := [Row("a1", ""), Row("a_", "")];
            && WithId(table, "a_") == [Row("a_", "")]
            && !FirstPageHas(table, "a_", PageSize(Some(1), 0))
  {
    var first, second := Row("a1", ""), Row("a_", "");
    var table := [first, second];
    assert table[..1] == [first] && [first][..0] == [];
    assert WithId([first], "a_") == [] && WithId(table, "a_") == [second];
    assert "a_" + "%" == "a_%" && "a_%"[1..] == "_%" && "_%"[1..] == "%" && "a1"[1..] == "1" && "1"[1..] == "";
    LikeAny("");
    assert Like("_%", "1");
    assert Like("a_%", "a1");
    assert Less("1", "_") && "a_"[1..] == "_";
    assert Rank([first], "a_") == 1;
  }

  // ---------------------------------------------------------------------------
  // Ids with backslashes
  // ---------------------------------------------------------------------------

  /** Without a backslash every id matches its own pattern. */
  lemma {:induction false} PlainMatchesItself(id: string)
    requires '\\' !in id
    ensures Like(id + "%", id)
  {
    if id == "" {
      LikeAny("");
      assert id + "%" == "%";
    } else {
      assert (id + "%")[1..] == id[1..] + "%" && id[0] in id;
      PlainMatchesItself(id[1..]);
    }
  }

  /** What the characters of a pattern without `%` stand for: any character, or the given one. */
  function Tokens(pattern: string): seq<Option<char>> {
    if pattern == "" then []
    else if pattern[0] == '\\' && |pattern| > 1 then [Some(pattern[1])] + Tokens(pattern[2..])
    else [if pattern[0] == '_' then None else Some(pattern[0])] + Tokens(pattern[1..])
  }

  /** The last backslash takes whatever is put behind the pattern literally. */
  predicate LoneTail(pattern: string) {
    pattern != "" && if pattern[0] == '\\' then |pattern| == 1 || LoneTail(pattern[2..]) else LoneTail(pattern[1..])
  }

  ghost predicate Fits(tokens: seq<Option<char>>, s: string) {
    |tokens| <= |s| && forall j | 0 <= j < |tokens| :: tokens[j].None? || tokens[j].value == s[j]
  }

  lemma FitsNext(token: Option<char>, tokens: seq<Option<char>>, s: string)
    ensures Fits([token] + tokens, s) <==> s != "" && (token.None? || token.value == s[0]) && Fits(tokens, s[1..])
  {
    var all := [token] + tokens;
    if s != "" && (token.None? || token.value == s[0]) && Fits(tokens, s[1..]) {
      forall j | 0 <= j < |all|
        ensures all[j].None? || all[j].value == s[j]
      {
        assert j > 0 ==> all[j] == tokens[j - 1] && s[j] == s[1..][j - 1];
      }
    }
    if Fits(all, s) {
      assert all[0] == token;
      forall j | 0 <= j < |tokens|
        ensures tokens[j].None? || tokens[j].value == s[1..][j]
      {
        assert all[j + 1] == tokens[j];
      }
    }
  }

  lemma {:induction false} LikeTokens(pattern: string, s: string)
    requires '%' !in pattern && !LoneTail(pattern)
    ensures Like(pattern + "%", s) <==> Fits(Tokens(pattern), s)
    decreases |pattern|
  {
    hide Fits;
    if pattern == "" {
      assert pattern + "%" == "%";
      LikeAny(s);
      FitsNone(s);
    } else {
      assert pattern[0] in pattern;
      var n := if pattern[0] == '\\' then 2 else 1;
      assert (pattern + "%")[n..] == pattern[n..] + "%";
      assert (pattern + "%")[0] == pattern[0];
      FitsNext(Tokens(pattern)[0], Tokens(pattern[n..]), s);
      if s != "" {
        LikeTokens(pattern[n..], s[1..]);
      }
    }
  }

  lemma FitsNone(s: string)
    ensures Fits([], s)
  {
  }

  lemma {:induction false} LoneTailNever(pattern: string, s: string)
    requires '%' !in pattern && '%' !in s && LoneTail(pattern)
    ensures !Like(pattern + "%", s)
    decreases |pattern|
  {
    assert pattern[0] in pattern;
    if pattern == "\\" {
      assert s != "" ==> s[0] in s;
    } else {
      var n := if pattern[0] == '\\' then 2 else 1;
      assert (pattern + "%")[n..] == pattern[n..] + "%";
      if s != "" {
        LoneTailNever(pattern[n..], s[1..]);
      }
    }
  }

  lemma {:induction false} TokensAreShort(pattern: string)
    ensures |Tokens(pattern)| <= |pattern|
    decreases |pattern|
  {
    if pattern != "" {
      TokensAreShort(pattern[if pattern[0] == '\\' && |pattern| > 1 then 2 else 1..]);
    }
  }

  /** An id without `%` matches its own pattern iff every one of its tokens is the character at the
      token's place, and its last backslash is not alone. */
  lemma MatchesItselfIff(id: string)
    requires '%' !in id
    ensures Like(id + "%", id) <==>
              !LoneTail(id) && forall j | 0 <= j < |Tokens(id)| :: Tokens(id)[j].None? || (j < |id| && Tokens(id)[j].value == id[j])
  {
    TokensAreShort(id);
    if LoneTail(id) {
      LoneTailNever(id, id);
    } else {
      LikeTokens(id, id);
    }
  }

  /** So an id whose first backslash is not doubled, and has no `%` before it, is never found, whatever
      follows: the backslash takes the next character literally, where the id has the backslash. */
  lemma {:induction false} BackslashNeverMatches(prefix: string, rest: string, s: string)
    requires '%' !in prefix && '\\' !in prefix && (rest != "" ==> rest[0] != '\\')
    requires |s| > |prefix| && s[|prefix|] == '\\'
    ensures !Like(prefix + "\\" + rest + "%", s)
  {
    var pattern := prefix + "\\" + rest + "%";
    if prefix == "" {
      assert pattern[0] == '\\' && pattern[1] == (if rest == "" then '%' else rest[0]);
    } else {
      assert prefix[0] in prefix;
      assert pattern[1..] == prefix[1..] + "\\" + rest + "%";
      BackslashNeverMatches(prefix[1..], rest, s[1..]);
    }
  }

  lemma BackslashNeverFound(table: seq<Row>, prefix: string, rest: string, size: nat)
    requires '%' !in prefix && '\\' !in prefix && (rest != "" ==> rest[0] != '\\')
    ensures !FirstPageHas(table, prefix + "\\" + rest, size)
  {
    BackslashNeverMatches(prefix, rest, prefix + "\\" + rest);
  }
}
