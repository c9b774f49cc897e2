/** Loading person affiliations with memoised lookups, without dangling edges. */
module AffiliationLoad {
  import opened Options
  import opened TextOps

  // ---------------------------------------------------------------------------
  // Graph, source and records
  // ---------------------------------------------------------------------------

  datatype Node = Node(isOrganization: bool, nameCn: string, nameEn: string)

  /** Vertices by VID. */
  type Vertices = map<string, Node>

  /** A row of the catalogue query over Organization vertices. */
  datatype Organization = Organization(vid: string, nameCn: string, nameEn: string)

  /** A row of one of the organization source tables. */
  datatype SourceRow = SourceRow(orgId: string, nameCn: string, nameEn: string)

  /** A scholar's affiliation; absent fields are empty. `isVirtual` is the synthetic-row verdict. */
  datatype Record = Record(scholarId: string, orgId: string, orgZh: string, orgEn: string, isVirtual: bool)
  {
    function OrgName(): string { if orgZh != "" then orgZh else orgEn }
  }

  datatype Edge = Edge(source: string, target: string, recordId: string, byName: bool)

  /** Foreign lower-casing and case folding. */
  datatype Text = Text(lower: string -> string, fold: string -> string)

  predicate IsOrganization(vertices: Vertices, vid: string) {
    vid in vertices && vertices[vid].isOrganization
  }

  function PersonVid(scholarId: string): string { "person_" + Strip(scholarId) }

  function OrgVid(orgId: string): string { "org_" + Strip(orgId) }

  // ---------------------------------------------------------------------------
  // Lookup by name
  // ---------------------------------------------------------------------------

  type NameIndex = map<string, string>

  function WithName(t: Text, index: NameIndex, name: string, vid: string): NameIndex {
    if Strip(name) == "" then index else index[Strip(name) := vid][t.lower(Strip(name)) := vid]
  }

  /** Later catalogue rows overwrite earlier ones. */
  function IndexOf(t: Text, catalogue: seq<Organization>): NameIndex {
    if catalogue == [] then map[]
    else
      var before, o := IndexOf(t, catalogue[..|catalogue| - 1]), catalogue[|catalogue| - 1];
      if o.vid == "" then before
      else WithName(t, WithName(t, before, o.nameCn, o.vid), o.nameEn, o.vid)
  }

  method BuildOrgNameVidIndex(t: Text, catalogue: Option<seq<Organization>>) returns (index: NameIndex)
    ensures index == if catalogue.None? then map[] else IndexOf(t, catalogue.value)
  {
    index := map[];
    if catalogue.None? {
      return;
    }
    var rows := catalogue.value;
    for i := 0 to |rows|
      invariant index == IndexOf(t, rows[..i])
    {
      assert rows[..i + 1][..i] == rows[..i];
      if rows[i].vid != "" {
        var names := [rows[i].nameCn, rows[i].nameEn];
        for k := 0 to 2
          invariant k == 0 ==> index == IndexOf(t, rows[..i])
          invariant k == 1 ==> index == WithName(t, IndexOf(t, rows[..i]), rows[i].nameCn, rows[i].vid)
          invariant k == 2 ==> index == IndexOf(t, rows[..i + 1])
        {
          var name := Strip(names[k]);
          if name != "" {
            index := index[name := rows[i].vid][t.lower(name) := rows[i].vid];
          }
        }
      }
    }
    assert rows[..|rows|] == rows;
  }

  /** The name as it is, then in lower case. */
  function FindName(t: Text, index: NameIndex, name: string): Option<string> {
    var key := Strip(name);
    if key == "" then None
    else if key in index then Some(index[key])
    else if t.lower(key) in index then Some(index[t.lower(key)])
    else None
  }

  /** The Chinese name, then the English one. */
  function ResolveByName(t: Text, nameZh: string, nameEn: string, index: NameIndex): Option<string> {
    if FindName(t, index, nameZh).Some? then FindName(t, index, nameZh) else FindName(t, index, nameEn)
  }

  // ---------------------------------------------------------------------------
  // Lookup in the source tables
  // ---------------------------------------------------------------------------

  /** A source row that bears one of the names, and whose vertex is an organization with one of the names. */
  predicate Confirms(t: Text, vertices: Vertices, names: set<string>, row: SourceRow) {
    var vid := OrgVid(row.orgId);
    && Strip(row.orgId) != "" && (row.nameCn in names || row.nameEn in names)
    && IsOrganization(vertices, vid)
    && exists name | name in names ::
         t.fold(name) == t.fold(Strip(vertices[vid].nameCn)) || t.fold(name) == t.fold(Strip(vertices[vid].nameEn))
  }

  function Names(name: string, nameEn: string): set<string> { {Strip(name), Strip(nameEn)} - {""} }

  function Candidates(t: Text, vertices: Vertices, rows: seq<SourceRow>, names: set<string>): set<string> {
    set row | row in rows && Confirms(t, vertices, names, row) :: OrgVid(row.orgId)
  }

  /** The only candidate, if there is exactly one. */
  ghost predicate IsResolved(t: Text, vertices: Vertices, rows: seq<SourceRow>, name: string, nameEn: string, r: Option<string>) {
    var candidates := Candidates(t, vertices, rows, Names(name, nameEn));
    if r.Some? then candidates == {r.value} else forall v :: candidates != {v}
  }

  lemma CandidatesOfNone(t: Text, vertices: Vertices, names: set<string>)
    ensures Candidates(t, vertices, [], names) == {}
  {
  }

  lemma CandidatesOfNext(t: Text, vertices: Vertices, rows: seq<SourceRow>, row: SourceRow, names: set<string>)
    ensures Candidates(t, vertices, rows + [row], names)
            == Candidates(t, vertices, rows, names) + if Confirms(t, vertices, names, row) then {OrgVid(row.orgId)} else {}
  {
    hide Confirms, OrgVid;
  }

  lemma OnlyMember<T>(s: set<T>, x: T)
    requires |s| == 1 && x in s
    ensures s == {x}
  {
    assert |s - {x}| == 0;
  }

  /** A vertex read may fail here, and then raises. */
  method ResolveFromSource(t: Text, vertices: Vertices, rows: seq<SourceRow>, name: string, nameEn: string)
    returns (ok: bool, r: Option<string>)
    ensures ok ==> IsResolved(t, vertices, rows, name, nameEn, r)
  {
    hide Candidates, Confirms, Names, OrgVid;
    r := None;
    var names := Names(name, nameEn);
    var candidates: set<string> := {};
    CandidatesOfNone(t, vertices, names);
    assert rows[..0] == [];
    for i := 0 to |rows|
      invariant candidates == Candidates(t, vertices, rows[..i], names)
    {
      ok := *;
      if !ok {
        return;
      }
      CandidatesOfNext(t, vertices, rows[..i], rows[i], names);
      assert rows[..i + 1] == rows[..i] + [rows[i]];
      if Confirms(t, vertices, names, rows[i]) {
        candidates := candidates + {OrgVid(rows[i].orgId)};
      }
    }
    assert rows[..|rows|] == rows;
    ok := true;
    if |candidates| == 1 {
      var vid :| vid in candidates;
      OnlyMember(candidates, vid);
      r := Some(vid);
    } else {
      forall v
        ensures candidates != {v}
      {
        assert |{v}| == 1;
      }
    }
  }

  lemma ResolvedUnique(t: Text, vertices: Vertices, rows: seq<SourceRow>, name: string, nameEn: string,
                       a: Option<string>, b: Option<string>)
    requires IsResolved(t, vertices, rows, name, nameEn, a) && IsResolved(t, vertices, rows, name, nameEn, b)
    ensures a == b
  {
    if a.Some? && b.Some? {
      assert a.value in {b.value};
    }
  }

  // ---------------------------------------------------------------------------
  // The load
  // ---------------------------------------------------------------------------

  /** `unreadable`: the VIDs whose existence read fails, which counts as absence. Each is read only once. */
  datatype Context = Context(text: Text, vertices: Vertices, unreadable: set<string>, index: NameIndex, rows: seq<SourceRow>)

  /** What the existence read of a VID answers. */
  predicate SeenInGraph(c: Context, vid: string) { IsOrganization(c.vertices, vid) && vid !in c.unreadable }

  /** The unmemoised source lookup. */
  ghost function FromSource(c: Context, name: string, nameEn: string): Option<string> {
    var candidates := Candidates(c.text, c.vertices, c.rows, Names(name, nameEn));
    if exists v :: candidates == {v} then var v :| candidates == {v}; Some(v) else None
  }

  /** The organization of a record, looked up directly. */
  ghost function Target(c: Context, r: Record): Option<string> {
    if r.isVirtual then None
    else if Strip(r.orgId) != "" then
      if SeenInGraph(c, OrgVid(r.orgId)) then Some(OrgVid(r.orgId)) else None
    else
      var named := ResolveByName(c.text, r.OrgName(), r.orgEn, c.index);
      if named.Some? && named.value != "" then named else FromSource(c, r.OrgName(), r.orgEn)
  }

  ghost function EdgeOf(c: Context, r: Record): seq<Edge> {
    if Target(c, r).None? then []
    else [Edge(PersonVid(r.scholarId), Target(c, r).value, r.scholarId, Strip(r.orgId) == "")]
  }

  ghost function EdgesOf(c: Context, records: seq<Record>): seq<Edge> {
    if records == [] then [] else EdgesOf(c, records[..|records| - 1]) + EdgeOf(c, records[|records| - 1])
  }

  /** Both memo tables answer like the direct lookups. */
  ghost predicate MemosHold(c: Context, known: map<string, bool>, matches: map<(string, string), Option<string>>) {
    && (forall vid | vid in known :: known[vid] == SeenInGraph(c, vid))
    && forall key | key in matches :: matches[key] == FromSource(c, key.0, key.1)
  }

  class AffiliationGraph {
    /** The edges merged so far. */
    var merged: seq<Edge>

    /** A call that fails may have taken effect. */
    method MergeEdge(edge: Edge) returns (ok: bool)
      modifies this
      ensures merged == old(merged) + [edge] || (!ok && merged == old(merged))
    {
      var applied: bool := *;
      ok := *;
      if ok || applied { merged := merged + [edge]; }
    }
  }

  /** Writes one edge per record that has an organization; the memo tables only save lookups. A failing
      merge or source lookup raises: the edges are then those of the first `n` records. */
  method LoadAffiliations(c: Context, g: AffiliationGraph, records: seq<Record>)
    returns (ok: bool, written: nat, skipped: nat, byName: nat, ghost n: nat)
    modifies g
    ensures n <= |records| && g.merged == old(g.merged) + EdgesOf(c, records[..n])
    ensures ok ==> n == |records| && written == |EdgesOf(c, records)| && written + skipped == |records|
    ensures ok ==> byName == |ByName(EdgesOf(c, records))|
  {
    hide Target, FromSource, ResolveByName, MemosHold, Strip, PersonVid, ByName, EdgesOf;
    ok, written, skipped, byName, n := true, 0, 0, 0, 0;
    var known: map<string, bool>, matches: map<(string, string), Option<string>> := map[], map[];
    NoMemos(c);
    ghost var edges: seq<Edge> := [];
    NoEdges(c);
    assert records[..0] == [];
    for i := 0 to |records|
      invariant ok && n == i && MemosHold(c, known, matches)
      invariant edges == EdgesOf(c, records[..i]) && g.merged == old(g.merged) + edges
      invariant written == |edges| && written + skipped == i && byName == |ByName(edges)|
    {
      EdgesNext(c, records, i);
      var r := records[i];
      var target;
      ok, target, known, matches := FindTarget(c, r, known, matches);
      if !ok {
        return;
      }
      if target.None? {
        skipped := skipped + 1;
      } else {
        var edge := Edge(PersonVid(r.scholarId), target.value, r.scholarId, Strip(r.orgId) == "");
        assert old(g.merged) + edges + [edge] == old(g.merged) + (edges + [edge]);
        ok := g.MergeEdge(edge);
        if !ok {
          n := if g.merged == old(g.merged) + edges then i else i + 1;
          return;
        }
        ByNameNext(edges, edge);
        edges := edges + [edge];
        byName := byName + if Strip(r.orgId) == "" then 1 else 0;
        written := written + 1;
      }
      n := i + 1;
    }
    assert records[..|records|] == records;
  }

  /** The edges whose organization was found by name. */
  function ByName(edges: seq<Edge>): seq<Edge> {
    if edges == [] then []
    else ByName(edges[..|edges| - 1]) + if edges[|edges| - 1].byName then [edges[|edges| - 1]] else []
  }

  lemma ByNameNext(edges: seq<Edge>, edge: Edge)
    ensures |ByName(edges + [edge])| == |ByName(edges)| + if edge.byName then 1 else 0
  {
    assert (edges + [edge])[..|edges|] == edges;
  }

  lemma NoEdges(c: Context)
    ensures EdgesOf(c, []) == [] && ByName([]) == []
  {
  }

  lemma EdgesNext(c: Context, records: seq<Record>, i: nat)
    requires i < |records|
    ensures EdgesOf(c, records[..i + 1]) == EdgesOf(c, records[..i]) + EdgeOf(c, records[i])
  {
    hide EdgeOf;
    assert records[..i + 1][..i] == records[..i];
  }

  lemma NoMemos(c: Context)
    ensures MemosHold(c, map[], map[])
  {
  }

  method FindTarget(c: Context, r: Record, known0: map<string, bool>, matches0: map<(string, string), Option<string>>)
    returns (ok: bool, target: Option<string>, known: map<string, bool>, matches: map<(string, string), Option<string>>)
    requires MemosHold(c, known0, matches0)
    ensures MemosHold(c, known, matches)
    ensures ok ==> target == Target(c, r)
  {
    ok, target, known, matches := true, None, known0, matches0;
    if r.isVirtual {
      return;
    }
    if Strip(r.orgId) != "" {
      var vid := OrgVid(r.orgId);
      if vid !in known {
        known := known[vid := SeenInGraph(c, vid)];
      }
      target := if known[vid] then Some(vid) else None;
      return;
    }
    target := ResolveByName(c.text, r.OrgName(), r.orgEn, c.index);
    if target.None? || target.value == "" {
      var key := (r.OrgName(), r.orgEn);
      if key !in matches {
        var found;
        ok, found := ResolveFromSource(c.text, c.vertices, c.rows, key.0, key.1);
        if !ok {
          return;
        }
        FromSourceIs(c, key.0, key.1, found);
        matches := matches[key := found];
      }
      target := matches[key];
    }
  }

  lemma FromSourceIs(c: Context, name: string, nameEn: string, r: Option<string>)
    requires IsResolved(c.text, c.vertices, c.rows, name, nameEn, r)
    ensures r == FromSource(c, name, nameEn)
  {
    hide Candidates, Names;
    var candidates := Candidates(c.text, c.vertices, c.rows, Names(name, nameEn));
    if r.Some? {
      assert candidates == {r.value};
    }
    ResolvedUnique(c.text, c.vertices, c.rows, name, nameEn, r, FromSource(c, name, nameEn));
  }

  // ---------------------------------------------------------------------------
  // No dangling edge
  // ---------------------------------------------------------------------------

  /** The catalogue lists Organization vertices of the graph. */
  ghost predicate CatalogueOf(vertices: Vertices, catalogue: seq<Organization>) {
    forall o | o in catalogue && o.vid != "" :: IsOrganization(vertices, o.vid)
  }

  lemma {:induction false} IndexedVids(t: Text, vertices: Vertices, catalogue: seq<Organization>)
    requires CatalogueOf(vertices, catalogue)
    ensures forall key | key in IndexOf(t, catalogue) :: IsOrganization(vertices, IndexOf(t, catalogue)[key])
  {
    hide Strip;
    if catalogue != [] {
      assert catalogue == catalogue[..|catalogue| - 1] + [catalogue[|catalogue| - 1]];
      IndexedVids(t, vertices, catalogue[..|catalogue| - 1]);
    }
  }

  /** Every edge a load writes ends at an Organization vertex that is in the graph. */
  lemma {:induction false} NoDanglingEdge(c: Context, catalogue: seq<Organization>, records: seq<Record>)
    requires CatalogueOf(c.vertices, catalogue) && c.index == IndexOf(c.text, catalogue)
    ensures forall e | e in EdgesOf(c, records) :: IsOrganization(c.vertices, e.target)
  {
    hide IndexOf, Strip;
    if records != [] {
      var r := records[|records| - 1];
      NoDanglingEdge(c, catalogue, records[..|records| - 1]);
      IndexedVids(c.text, c.vertices, catalogue);
      var found := FromSource(c, r.OrgName(), r.orgEn);
      if found.Some? {
        assert found.value in Candidates(c.text, c.vertices, c.rows, Names(r.OrgName(), r.orgEn));
      }
    }
  }

  /** The other end is not looked at: every edge starts at a present vertex iff every record with an
      organization has its Person. */
  lemma {:induction false} SourcesPresentIff(c: Context, records: seq<Record>)
    ensures (forall e | e in EdgesOf(c, records) :: e.source in c.vertices) <==>
              forall r | r in records && Target(c, r).Some? :: PersonVid(r.scholarId) in c.vertices
  {
    hide Target, PersonVid;
    if records != [] {
      SourcesPresentIff(c, records[..|records| - 1]);
      var r := records[|records| - 1];
      assert records == records[..|records| - 1] + [r];
      assert Target(c, r).Some? ==> EdgeOf(c, r)[0] in EdgeOf(c, r);
    }
  }

  /** A record whose organization is in the graph but could not be read. */
  ghost predicate Missed(c: Context, r: Record) {
    !r.isVirtual && Strip(r.orgId) != "" && IsOrganization(c.vertices, OrgVid(r.orgId)) && OrgVid(r.orgId) in c.unreadable
  }

  /** Failing existence reads change nothing but that their records are skipped: the load writes what it
      would write without them iff no record is missed. */
  lemma {:induction false} FailedReadsHarmlessIff(c: Context, records: seq<Record>)
    ensures |EdgesOf(c, records)| <= |EdgesOf(c.(unreadable := {}), records)|
    ensures EdgesOf(c, records) == EdgesOf(c.(unreadable := {}), records) <==> forall r | r in records :: !Missed(c, r)
    ensures |EdgesOf(c, records)| == |EdgesOf(c.(unreadable := {}), records)| ==> forall r | r in records :: !Missed(c, r)
  {
    hide Missed, EdgeOf;
    if records != [] {
      var before, r := records[..|records| - 1], records[|records| - 1];
      assert records == before + [r];
      FailedReadsHarmlessIff(c, before);
      SkippedIff(c, r);
    }
  }

  lemma SkippedIff(c: Context, r: Record)
    ensures EdgeOf(c, r) == if Missed(c, r) then [] else EdgeOf(c.(unreadable := {}), r)
    ensures Missed(c, r) ==> |EdgeOf(c.(unreadable := {}), r)| == 1
  {
    hide Strip, FromSource, ResolveByName;
    SameSource(c, r.OrgName(), r.orgEn);
  }

  lemma SameSource(c: Context, name: string, nameEn: string)
    ensures FromSource(c, name, nameEn) == FromSource(c.(unreadable := {}), name, nameEn)
  {
    hide Candidates;
  }

  /** One record of a scholar that is not in the graph: its edge starts nowhere. */
  lemma MissingPersonDangles(c: Context, r: Record)
    requires !r.isVirtual && Strip(r.orgId) != "" && SeenInGraph(c, OrgVid(r.orgId)) && PersonVid(r.scholarId) !in c.vertices
    ensures EdgesOf(c, [r]) == [Edge(PersonVid(r.scholarId), OrgVid(r.orgId), r.scholarId, false)]
  {
    hide Strip, PersonVid, OrgVid;
    assert [r][..0] == [] && EdgesOf(c, []) == [];
  }

  /** Some organization of the catalogue bears the name, ignoring case. */
  ghost predicate Borne(t: Text, catalogue: seq<Organization>, name: string) {
    exists o | o in catalogue :: o.vid != ""
      && ((Strip(o.nameCn) != "" && t.lower(Strip(o.nameCn)) == t.lower(Strip(name)))
          || (Strip(o.nameEn) != "" && t.lower(Strip(o.nameEn)) == t.lower(Strip(name))))
  }

  lemma {:induction false} IndexKeys(t: Text, catalogue: seq<Organization>, key: string)
    ensures key in IndexOf(t, catalogue) <==>
              exists o | o in catalogue :: o.vid != ""
                && ((Strip(o.nameCn) != "" && (key == Strip(o.nameCn) || key == t.lower(Strip(o.nameCn))))
                    || (Strip(o.nameEn) != "" && (key == Strip(o.nameEn) || key == t.lower(Strip(o.nameEn)))))
  {
    hide Strip;
    if catalogue != [] {
      assert catalogue == catalogue[..|catalogue| - 1] + [catalogue[|catalogue| - 1]];
      IndexKeys(t, catalogue[..|catalogue| - 1], key);
    }
  }

  /** The exact-then-lower-case lookup finds a name iff some organization bears it, ignoring case. */
  lemma NameFoundIff(t: Text, catalogue: seq<Organization>, name: string)
    requires forall s :: t.lower(t.lower(s)) == t.lower(s)
    ensures FindName(t, IndexOf(t, catalogue), name).Some? <==> Strip(name) != "" && Borne(t, catalogue, name)
  {
    hide Strip, IndexOf;
    IndexKeys(t, catalogue, Strip(name));
    IndexKeys(t, catalogue, t.lower(Strip(name)));
  }

  // ---------------------------------------------------------------------------
  // Which organization, said of the catalogue and the source tables
  // ---------------------------------------------------------------------------

  /** The organization is listed under the key: as a stripped name or as one in lower case. */
  ghost predicate ListedUnder(t: Text, o: Organization, key: string) {
    && o.vid != ""
    && exists name :: name in {o.nameCn, o.nameEn} && Strip(name) != "" && key in {Strip(name), t.lower(Strip(name))}
  }

  ghost predicate LastListed(t: Text, catalogue: seq<Organization>, key: string, i: int) {
    && 0 <= i < |catalogue| && ListedUnder(t, catalogue[i], key)
    && forall j | i < j < |catalogue| :: !ListedUnder(t, catalogue[j], key)
  }

  lemma WithNames(t: Text, before: NameIndex, o: Organization, key: string)
    requires o.vid != ""
    ensures var now := WithName(t, WithName(t, before, o.nameCn, o.vid), o.nameEn, o.vid);
            if ListedUnder(t, o, key) then key in now && now[key] == o.vid
            else (key in now <==> key in before) && (key in before ==> now[key] == before[key])
  {
    hide Strip;
    assert o.nameCn in {o.nameCn, o.nameEn} && o.nameEn in {o.nameCn, o.nameEn};
  }

  /** The index answers a key with the last organization listed under it. */
  lemma {:induction false} IndexIsLast(t: Text, catalogue: seq<Organization>, key: string)
    ensures key in IndexOf(t, catalogue) <==> exists i :: LastListed(t, catalogue, key, i)
    ensures forall i | LastListed(t, catalogue, key, i) :: IndexOf(t, catalogue)[key] == catalogue[i].vid
  {
    hide Strip, WithName;
    if catalogue != [] {
      var before, last := catalogue[..|catalogue| - 1], |catalogue| - 1;
      IndexIsLast(t, before, key);
      var o := catalogue[last];
      if ListedUnder(t, o, key) {
        WithNames(t, IndexOf(t, before), o, key);
        assert LastListed(t, catalogue, key, last);
      } else {
        if o.vid != "" {
          WithNames(t, IndexOf(t, before), o, key);
        }
        assert forall i :: LastListed(t, catalogue, key, i) <==> LastListed(t, before, key, i);
      }
    }
  }

  ghost predicate Answers(t: Text, catalogue: seq<Organization>, key: string, vid: string) {
    exists i :: LastListed(t, catalogue, key, i) && catalogue[i].vid == vid
  }

  ghost predicate NobodyListed(t: Text, catalogue: seq<Organization>, key: string) {
    forall o | o in catalogue :: !ListedUnder(t, o, key)
  }

  lemma {:induction false} LastListedExists(t: Text, catalogue: seq<Organization>, key: string)
    ensures NobodyListed(t, catalogue, key) <==> !exists i :: LastListed(t, catalogue, key, i)
  {
    if catalogue != [] {
      var before, last := catalogue[..|catalogue| - 1], |catalogue| - 1;
      assert catalogue == before + [catalogue[last]];
      LastListedExists(t, before, key);
      if ListedUnder(t, catalogue[last], key) {
        assert LastListed(t, catalogue, key, last);
      } else {
        assert forall i :: LastListed(t, catalogue, key, i) <==> LastListed(t, before, key, i);
      }
    }
  }

  /** A name is looked up stripped, as it is and then in lower case. */
  ghost predicate NamePointsTo(t: Text, catalogue: seq<Organization>, name: string, vid: string) {
    var key := Strip(name);
    key != "" && (Answers(t, catalogue, key, vid) || (NobodyListed(t, catalogue, key) && Answers(t, catalogue, t.lower(key), vid)))
  }

  lemma FindNameIff(t: Text, catalogue: seq<Organization>, name: string, vid: string)
    ensures FindName(t, IndexOf(t, catalogue), name) == Some(vid) <==> NamePointsTo(t, catalogue, name, vid)
  {
    hide Strip, IndexOf, LastListed, NobodyListed;
    var key := Strip(name);
    IndexIsLast(t, catalogue, key);
    IndexIsLast(t, catalogue, t.lower(key));
    LastListedExists(t, catalogue, key);
  }

  lemma FoundIff(t: Text, catalogue: seq<Organization>, name: string)
    ensures FindName(t, IndexOf(t, catalogue), name).Some? <==> exists vid :: NamePointsTo(t, catalogue, name, vid)
  {
    hide Strip, IndexOf, NamePointsTo;
    var found := FindName(t, IndexOf(t, catalogue), name);
    if found.Some? {
      FindNameIff(t, catalogue, name, found.value);
    }
    if vid :| NamePointsTo(t, catalogue, name, vid) {
      FindNameIff(t, catalogue, name, vid);
    }
  }

  /** A record's Chinese name decides if it points anywhere, and else its English one. */
  lemma ResolveByNameIff(t: Text, catalogue: seq<Organization>, nameZh: string, nameEn: string, vid: string)
    ensures ResolveByName(t, nameZh, nameEn, IndexOf(t, catalogue)) == Some(vid) <==>
              || NamePointsTo(t, catalogue, nameZh, vid)
              || ((forall other :: !NamePointsTo(t, catalogue, nameZh, other)) && NamePointsTo(t, catalogue, nameEn, vid))
  {
    hide Strip, IndexOf, FindName, NamePointsTo;
    FindNameIff(t, catalogue, nameZh, vid);
    FindNameIff(t, catalogue, nameEn, vid);
    FoundIff(t, catalogue, nameZh);
  }

  /** A source row with one of the two names, stripped, whose id names an Organization vertex that bears one
      of them too, ignoring case. */
  ghost predicate Vouches(c: Context, nameZh: string, nameEn: string, row: SourceRow, vid: string) {
    && Strip(row.orgId) != "" && vid == "org_" + Strip(row.orgId) && vid in c.vertices && c.vertices[vid].isOrganization
    && (exists name :: name in {nameZh, nameEn} && Strip(name) != "" && Strip(name) in {row.nameCn, row.nameEn})
    && exists name :: name in {nameZh, nameEn} && Strip(name) != "" &&
         c.text.fold(Strip(name)) in {c.text.fold(Strip(c.vertices[vid].nameCn)), c.text.fold(Strip(c.vertices[vid].nameEn))}
  }

  lemma ConfirmsIff(c: Context, nameZh: string, nameEn: string, row: SourceRow, vid: string)
    ensures Vouches(c, nameZh, nameEn, row, vid) <==>
              Confirms(c.text, c.vertices, Names(nameZh, nameEn), row) && vid == OrgVid(row.orgId)
  {
    hide Strip;
    var names := Names(nameZh, nameEn);
    assert forall s :: s in names <==> s != "" && (s == Strip(nameZh) || s == Strip(nameEn));
    if Vouches(c, nameZh, nameEn, row, vid) {
      var name :| name in {nameZh, nameEn} && Strip(name) != "" && Strip(name) in {row.nameCn, row.nameEn};
      assert Strip(name) in names;
      var other :| other in {nameZh, nameEn} && Strip(other) != "" &&
        c.text.fold(Strip(other)) in {c.text.fold(Strip(c.vertices[vid].nameCn)), c.text.fold(Strip(c.vertices[vid].nameEn))};
      assert Strip(other) in names;
    }
    if Confirms(c.text, c.vertices, names, row) && vid == OrgVid(row.orgId) {
      assert nameZh in {nameZh, nameEn} && nameEn in {nameZh, nameEn};
    }
  }

  /** The source tables decide on a vertex iff some row vouches for it and no row for another one. */
  lemma FromSourceIff(c: Context, nameZh: string, nameEn: string, vid: string)
    ensures FromSource(c, nameZh, nameEn) == Some(vid) <==>
              && (exists row | row in c.rows :: Vouches(c, nameZh, nameEn, row, vid))
              && forall row, other | row in c.rows && Vouches(c, nameZh, nameEn, row, other) :: other == vid
  {
    hide Vouches, Confirms, Names, OrgVid;
    var candidates := Candidates(c.text, c.vertices, c.rows, Names(nameZh, nameEn));
    forall row, other | row in c.rows && Vouches(c, nameZh, nameEn, row, other)
      ensures other in candidates
    {
      ConfirmsIff(c, nameZh, nameEn, row, other);
    }
    forall other | other in candidates
      ensures exists row | row in c.rows :: Vouches(c, nameZh, nameEn, row, other)
    {
      var row :| row in c.rows && Confirms(c.text, c.vertices, Names(nameZh, nameEn), row) && OrgVid(row.orgId) == other;
      ConfirmsIff(c, nameZh, nameEn, row, other);
    }
    if FromSource(c, nameZh, nameEn) == Some(vid) {
      assert candidates == {vid};
    }
    if vid in candidates && forall other | other in candidates :: other == vid {
      assert candidates == {vid};
    }
  }

  /** The organization a record belongs to. */
  ghost predicate BelongsTo(c: Context, catalogue: seq<Organization>, r: Record, vid: string) {
    && !r.isVirtual
    && if Strip(r.orgId) != "" then
         vid == "org_" + Strip(r.orgId) && vid in c.vertices && c.vertices[vid].isOrganization && vid !in c.unreadable
       else
         var name := if r.orgZh != "" then r.orgZh else r.orgEn;
         || (vid != "" && Named(c.text, catalogue, name, r.orgEn, vid))
         || ((forall other | other != "" :: !Named(c.text, catalogue, name, r.orgEn, other))
             && FromSource(c, name, r.orgEn) == Some(vid))
  }

  ghost predicate Named(t: Text, catalogue: seq<Organization>, nameZh: string, nameEn: string, vid: string) {
    || NamePointsTo(t, catalogue, nameZh, vid)
    || ((forall other :: !NamePointsTo(t, catalogue, nameZh, other)) && NamePointsTo(t, catalogue, nameEn, vid))
  }

  /** A load gives a record an edge iff it belongs to an organization: from the person of its stripped scholar
      id to that organization, with the scholar id as record id. */
  lemma EdgeOfIff(c: Context, catalogue: seq<Organization>, r: Record, e: Edge)
    requires c.index == IndexOf(c.text, catalogue)
    ensures e in EdgeOf(c, r) <==>
              && BelongsTo(c, catalogue, r, e.target) && e.source == "person_" + Strip(r.scholarId)
              && e.recordId == r.scholarId && e.byName == (Strip(r.orgId) == "")
    ensures |EdgeOf(c, r)| <= 1
  {
    hide Strip, IndexOf, FromSource, ResolveByName, NamePointsTo;
    var name := if r.orgZh != "" then r.orgZh else r.orgEn;
    forall vid
      ensures ResolveByName(c.text, name, r.orgEn, c.index) == Some(vid) <==> Named(c.text, catalogue, name, r.orgEn, vid)
    {
      ResolveByNameIff(c.text, catalogue, name, r.orgEn, vid);
    }
    TargetIff(c, catalogue, r, e.target);
  }

  lemma TargetIff(c: Context, catalogue: seq<Organization>, r: Record, vid: string)
    requires c.index == IndexOf(c.text, catalogue)
    ensures Target(c, r) == Some(vid) <==> BelongsTo(c, catalogue, r, vid)
  {
    hide Strip, IndexOf, FromSource, ResolveByName, NamePointsTo, Named;
    var name := if r.orgZh != "" then r.orgZh else r.orgEn;
    forall other
      ensures ResolveByName(c.text, name, r.orgEn, c.index) == Some(other) <==> Named(c.text, catalogue, name, r.orgEn, other)
    {
      NamedIff(c.text, catalogue, name, r.orgEn, other);
    }
  }

  lemma NamedIff(t: Text, catalogue: seq<Organization>, nameZh: string, nameEn: string, vid: string)
    ensures ResolveByName(t, nameZh, nameEn, IndexOf(t, catalogue)) == Some(vid) <==> Named(t, catalogue, nameZh, nameEn, vid)
  {
    hide Strip, IndexOf, NamePointsTo, ResolveByName;
    ResolveByNameIff(t, catalogue, nameZh, nameEn, vid);
  }
}
