/** Incremental loading of persons behind a watermark, over any history of runs, crashes and changes. */
module IncrementalLoad {
  import opened Options
  import opened Paging
  import opened TextOps

  // ---------------------------------------------------------------------------
  // Source rows, graph and watermark
  // ---------------------------------------------------------------------------

  /** A row of the scholar table, which is listed by scholar id. `version` stands for its contents, `time` is its
      update time (which may be NULL), `isVirtual` the verdict of the synthetic-row filter. Nothing keeps
      two rows from having one scholar id. */
  datatype Row = Row(id: string, version: nat, time: Option<nat>, active: bool, isVirtual: bool)

  function Vid(r: Row): string { "person_" + Strip(r.id) }

  /** A Person vertex: written without any property, or with the contents of some row version. */
  datatype Vertex = Empty | Contents(version: nat)

  type Persons = map<string, Vertex>

  /** The watermark file: absent, unreadable, or a valid time stamp. */
  datatype Mark = Missing | Garbage | Stamp(at: nat)

  class Watermark {
    var content: Mark

    method Read() returns (since: Option<nat>)
      ensures since == Since(content)
    {
      since := match content case Stamp(t) => Some(t) case _ => None;
    }

    /** Replaces the file atomically. */
    method Write(at: nat)
      modifies this
      ensures content == Stamp(at)
    {
      content := Stamp(at);
    }

    method AdvanceIfHigher(at: nat)
      modifies this
      ensures content == Advanced(old(content), Some(at))
    {
      var current := Read();
      if current.Some? && at <= current.value {
        return;
      }
      Write(at);
    }
  }

  function Since(m: Mark): Option<nat> { if m.Stamp? then Some(m.at) else None }

  function Advanced(m: Mark, at: Option<nat>): Mark {
    if at.None? || (m.Stamp? && at.value <= m.at) then m else Stamp(at.value)
  }

  // ---------------------------------------------------------------------------
  // One run
  // ---------------------------------------------------------------------------

  /** The rows an unfiltered query returns, in table order. */
  function Selected(table: seq<Row>, since: Option<nat>): seq<Row> {
    if table == [] then []
    else
      var before, row := Selected(table[..|table| - 1], since), table[|table| - 1];
      if Wanted(row, since) then before + [row] else before
  }

  predicate Wanted(r: Row, since: Option<nat>) {
    r.active && (since.None? || (r.time.Some? && r.time.value > since.value))
  }

  /** What a row's INSERT writes. `described`: DESCRIBE TAG listed fields that a person has; if it failed,
      or listed none, the statement carries no property at all. */
  function VertexOf(r: Row, described: bool): Vertex { if described then Contents(r.version) else Empty }

  function Written(g: Persons, described: bool, r: Row): Persons {
    if r.isVirtual then g else g[Vid(r) := VertexOf(r, described)]
  }

  /** The graph after loading the rows in order. */
  function Loaded(g: Persons, described: bool, rows: seq<Row>): Persons {
    if rows == [] then g else Written(Loaded(g, described, rows[..|rows| - 1]), described, rows[|rows| - 1])
  }

  function Later(a: Option<nat>, r: Row): Option<nat> {
    if r.isVirtual || r.time.None? || (a.Some? && r.time.value <= a.value) then a else r.time
  }

  /** The greatest update time among the non-virtual rows. */
  function MaxTime(rows: seq<Row>): Option<nat> {
    if rows == [] then None else Later(MaxTime(rows[..|rows| - 1]), rows[|rows| - 1])
  }

  /** `at` is the greatest stamp of the rows that the synthetic-row filter lets through, if any has one. */
  ghost predicate GreatestStamp(rows: seq<Row>, at: Option<nat>) {
    && (at.Some? <==> exists r | r in rows :: !r.isVirtual && r.time.Some?)
    && (at.Some? ==> exists r | r in rows :: !r.isVirtual && r.time == at)
    && forall r | r in rows && !r.isVirtual && r.time.Some? :: at.Some? && r.time.value <= at.value
  }

  lemma {:induction false} MaxTimeIsStamp(rows: seq<Row>)
    ensures GreatestStamp(rows, MaxTime(rows))
  {
    if rows != [] {
      var before, last := rows[..|rows| - 1], rows[|rows| - 1];
      MaxTimeIsStamp(before);
      assert rows == before + [last];
    }
  }

  /** The positions of the rows that the filter stops. */
  function VirtualAt(rows: seq<Row>): set<int> { set i | 0 <= i < |rows| && rows[i].isVirtual }

  lemma VirtualNext(rows: seq<Row>, r: Row)
    ensures |VirtualAt(rows + [r])| == |VirtualAt(rows)| + if r.isVirtual then 1 else 0
  {
    assert VirtualAt(rows + [r]) == VirtualAt(rows) + if r.isVirtual then {|rows|} else {};
  }

  class PersonGraph {
    var persons: Persons

    /** Whether DESCRIBE TAG Person lists fields; a failing query answers like an empty one. */
    method Describe() returns (described: bool)
    {
      described := *;
    }

    /** A call that fails may have taken effect. */
    method ExecuteWrite(vid: string, vertex: Vertex) returns (ok: bool)
      modifies this
      ensures persons == old(persons)[vid := vertex] || (!ok && persons == old(persons))
    {
      var applied: bool := *;
      ok := *;
      if ok || applied { persons := persons[vid := vertex]; }
    }
  }

  /** Writes the rows one by one; a failing write raises, with the rows before it written
      and perhaps its own. */
  method LoadPersons(g: PersonGraph, rows: seq<Row>)
    returns (ok: bool, written: nat, skipped: nat, maxTime: Option<nat>, ghost described: bool, ghost n: nat)
    modifies g
    ensures n <= |rows| && g.persons == Loaded(old(g.persons), described, rows[..n])
    ensures ok ==> n == |rows| && maxTime == MaxTime(rows) && GreatestStamp(rows, maxTime)
    ensures ok ==> skipped == |VirtualAt(rows)| && written == |rows| - skipped
  {
    var fields := g.Describe();
    ok, written, skipped, maxTime, described, n := true, 0, 0, None, fields, 0;
    for i := 0 to |rows|
      invariant n == i && g.persons == Loaded(old(g.persons), fields, rows[..i])
      invariant written + skipped == i && skipped == |VirtualAt(rows[..i])| && maxTime == MaxTime(rows[..i])
      invariant ok
    {
      assert rows[..i + 1][..i] == rows[..i];
      VirtualNext(rows[..i], rows[i]);
      assert rows[..i + 1] == rows[..i] + [rows[i]];
      var row := rows[i];
      if row.isVirtual {
        skipped := skipped + 1;
      } else {
        if row.time.Some? && (maxTime.None? || row.time.value > maxTime.value) {
          maxTime := row.time;
        }
        ghost var before := g.persons;
        ok := g.ExecuteWrite(Vid(row), VertexOf(row, fields));
        if !ok {
          n := if g.persons == before then i else i + 1;
          return;
        }
        written := written + 1;
      }
      n := i + 1;
    }
    assert rows[..|rows|] == rows;
    MaxTimeIsStamp(rows);
  }

  /** The rows a query chooses: all wanted ones, or only those of one scholar. */
  function Chosen(table: seq<Row>, since: Option<nat>, scholarId: Option<string>): seq<Row> {
    if scholarId.None? then Selected(table, since) else OfScholar(Selected(table, since), scholarId.value)
  }

  function OfScholar(rows: seq<Row>, id: string): seq<Row> {
    if rows == [] then []
    else
      var before, last := OfScholar(rows[..|rows| - 1], id), rows[|rows| - 1];
      if last.id == id then before + [last] else before
  }

  /** An order in which a query may return the chosen rows: by id, and rows of one id in any order. */
  ghost predicate IsOrder(chosen: seq<Row>, order: seq<Row>) {
    && |order| == |chosen| && multiset(order) == multiset(chosen)
    && forall i | 0 <= i < |chosen| :: order[i].id == chosen[i].id
  }

  /** Each page query may have an order of its own. */
  ghost predicate Serves(chosen: seq<Row>, orders: nat -> seq<Row>) {
    forall k :: IsOrder(chosen, orders(k))
  }

  /** The pages from `offset` on, the next one answered by query `k`. */
  function PagesFrom(orders: nat -> seq<Row>, total: nat, offset: nat, size: nat, k: nat): seq<Row>
    decreases total - offset
  {
    if offset >= total || size == 0 then []
    else Page(orders(k), offset, size) + PagesFrom(orders, total, offset + size, size, k + 1)
  }

  /** The rows a run reads: in a single query with a limit, or page by page. */
  function ReadRows(orders: nat -> seq<Row>, total: nat, limit: Option<nat>, size: nat): seq<Row> {
    if limit.Some? then Page(orders(0), 0, limit.value) else PagesFrom(orders, total, 0, size, 0)
  }

  /** The next page: empty or short only at the end. */
  lemma NextOfPages(chosen: seq<Row>, orders: nat -> seq<Row>, offset: nat, size: nat, k: nat)
    requires Serves(chosen, orders) && offset <= |chosen|
    ensures var page := Page(orders(k), offset, size);
            && |page| == (if offset + size <= |chosen| then size else |chosen| - offset)
            && PagesFrom(orders, |chosen|, offset, size, k)
               == page + if |page| < size || size == 0 then [] else PagesFrom(orders, |chosen|, offset + size, size, k + 1)
  {
    hide IsOrder;
    assert |orders(k)| == |chosen| by {
      SameLength(chosen, orders, k);
    }
    if offset < |chosen| && size > 0 && offset + size >= |chosen| {
      assert PagesFrom(orders, |chosen|, offset + size, size, k + 1) == [];
    }
  }

  lemma SameLength(chosen: seq<Row>, orders: nat -> seq<Row>, k: nat)
    requires Serves(chosen, orders)
    ensures |orders(k)| == |chosen|
  {
    assert IsOrder(chosen, orders(k));
  }

  method IterScholars(orders: nat -> seq<Row>, limit: Option<nat>, size: nat, ghost chosen: seq<Row>) returns (rows: seq<Row>)
    requires Serves(chosen, orders)
    ensures rows == ReadRows(orders, |chosen|, limit, size)
  {
    hide Serves, PagesFrom, Page;
    if limit.Some? {
      return Page(orders(0), 0, limit.value);
    }
    rows := [];
    var offset, k := 0, 0;
    while true
      invariant offset <= |chosen|
      invariant rows + PagesFrom(orders, |chosen|, offset, size, k) == ReadRows(orders, |chosen|, limit, size)
      decreases |chosen| - offset
    {
      NextOfPages(chosen, orders, offset, size, k);
      var page := Page(orders(k), offset, size);
      if page == [] {
        break;
      }
      ghost var rest := if |page| < size then [] else PagesFrom(orders, |chosen|, offset + size, size, k + 1);
      assert rows + (page + rest) == rows + page + rest;
      rows := rows + page;
      offset := offset + |page|;
      if |page| < size {
        break;
      }
      k := k + 1;
    }
  }

  const BATCH_SIZE := 500

  /** The new watermark is above the old one, if that could be read, and is the stamp of a row that was
      written. */
  ghost predicate Advances(before: Mark, after: Mark, rows: seq<Row>) {
    && after.Stamp? && (before.Stamp? ==> before.at < after.at)
    && exists r | r in rows :: !r.isVirtual && r.time == Some(after.at)
  }

  /** A writing run against the table as it is; `orders` are the answers to its queries. The watermark
      moves only after every row is written. */
  method Run(table: seq<Row>, incremental: bool, scholarId: Option<string>, limit: Option<nat>,
             orders: nat -> seq<Row>, watermark: Watermark, g: PersonGraph)
    returns (ok: bool, ghost described: bool, ghost n: nat)
    requires Serves(Chosen(table, if incremental then Since(watermark.content) else None, scholarId), orders)
    modifies watermark, g
    ensures var chosen := Chosen(table, if incremental then Since(old(watermark.content)) else None, scholarId);
            var rows := ReadRows(orders, |chosen|, limit, 500);
            && n <= |rows|
            && g.persons == Loaded(old(g.persons), described, rows[..n])
            && (ok ==> n == |rows|)
            && watermark.content == (if ok && incremental then Advanced(old(watermark.content), MaxTime(rows))
                                     else old(watermark.content))
            && (watermark.content != old(watermark.content) ==>
                  ok && incremental && Advances(old(watermark.content), watermark.content, rows))
            && (ok && incremental ==> forall r | r in rows && !r.isVirtual && r.time.Some? ::
                  watermark.content.Stamp? && r.time.value <= watermark.content.at)
  {
    hide Serves, Chosen, ReadRows;
    var since: Option<nat> := None;
    if incremental {
      since := watermark.Read();
    }
    var rows := IterScholars(orders, limit, BATCH_SIZE, Chosen(table, since, scholarId));
    var written, skipped, maxTime;
    ok, written, skipped, maxTime, described, n := LoadPersons(g, rows);
    if ok && incremental && maxTime.Some? {
      watermark.AdvanceIfHigher(maxTime.value);
    }
  }

  // ---------------------------------------------------------------------------
  // Whether the orders of the page queries matter
  // ---------------------------------------------------------------------------

  function Cut(rows: seq<Row>, limit: Option<nat>): seq<Row> {
    if limit.Some? && limit.value < |rows| then rows[..limit.value] else rows
  }

  lemma PageMembers(rows: seq<Row>, offset: nat, size: nat)
    ensures forall r | r in Page(rows, offset, size) :: r in rows
  {
  }

  lemma {:induction false} PagesMembers(chosen: seq<Row>, orders: nat -> seq<Row>, offset: nat, size: nat, k: nat)
    requires Serves(chosen, orders)
    ensures forall r | r in PagesFrom(orders, |chosen|, offset, size, k) :: r in chosen
    decreases |chosen| - offset
  {
    hide IsOrder, Page;
    if offset < |chosen| && size > 0 {
      PagesMembers(chosen, orders, offset + size, size, k + 1);
      OrderMembers(chosen, orders, k);
      PageMembers(orders(k), offset, size);
    }
  }

  lemma OrderMembers(chosen: seq<Row>, orders: nat -> seq<Row>, k: nat)
    requires Serves(chosen, orders)
    ensures forall r :: r in orders(k) <==> r in chosen
  {
    assert IsOrder(chosen, orders(k));
    forall r
      ensures r in orders(k) <==> r in chosen
    {
      assert r in orders(k) <==> r in multiset(orders(k));
      assert r in chosen <==> r in multiset(chosen);
    }
  }

  lemma ReadMembers(chosen: seq<Row>, orders: nat -> seq<Row>, limit: Option<nat>, size: nat)
    requires Serves(chosen, orders)
    ensures forall r | r in ReadRows(orders, |chosen|, limit, size) :: r in chosen
  {
    hide Serves;
    PagesMembers(chosen, orders, 0, size, 0);
    OrderMembers(chosen, orders, 0);
    if limit.Some? {
      PageMembers(orders(0), 0, limit.value);
    }
  }

  lemma {:induction false} SameOrder(orders: nat -> seq<Row>, order: seq<Row>, offset: nat, size: nat, k: nat)
    requires size > 0 && forall j :: orders(j) == order
    ensures PagesFrom(orders, |order|, offset, size, k) == if offset < |order| then order[offset..] else []
    decreases |order| - offset
  {
    if offset < |order| {
      SameOrder(orders, order, offset + size, size, k + 1);
    }
  }

  /** The first `n` chosen rows have no rival: no other row with the same id. */
  ghost predicate NoRivals(chosen: seq<Row>, n: nat) {
    forall i, j | 0 <= i < n && i < |chosen| && 0 <= j < |chosen| && chosen[i].id == chosen[j].id :: chosen[i] == chosen[j]
  }

  lemma OnlyOrder(chosen: seq<Row>, orders: nat -> seq<Row>, n: nat, k: nat)
    requires Serves(chosen, orders) && NoRivals(chosen, n) && n <= |chosen|
    ensures |orders(k)| == |chosen| && orders(k)[..n] == chosen[..n]
  {
    OrderMembers(chosen, orders, k);
    assert IsOrder(chosen, orders(k));
    forall i | 0 <= i < n
      ensures orders(k)[i] == chosen[i]
    {
      assert orders(k)[i] in orders(k);
      var j :| 0 <= j < |chosen| && chosen[j] == orders(k)[i];
    }
  }

  /** An order with rival rows exchanged. */
  lemma Exchanged(chosen: seq<Row>, i: nat, j: nat) returns (order: seq<Row>)
    requires i < |chosen| && j < |chosen| && chosen[i].id == chosen[j].id
    ensures IsOrder(chosen, order) && order[i] == chosen[j]
  {
    order := chosen[i := chosen[j]][j := chosen[i]];
  }

  /** A run reads the chosen rows in their order, whatever order each of its queries has, iff no row that it
      is to read has a rival. */
  lemma ReadOrderIff(chosen: seq<Row>, limit: Option<nat>, size: nat)
    requires size > 0
    ensures (forall orders: nat -> seq<Row> | Serves(chosen, orders) ::
               ReadRows(orders, |chosen|, limit, size) == Cut(chosen, limit))
            <==> NoRivals(chosen, |Cut(chosen, limit)|)
  {
    hide Serves, IsOrder;
    var n := |Cut(chosen, limit)|;
    if NoRivals(chosen, n) {
      forall orders: nat -> seq<Row> | Serves(chosen, orders)
        ensures ReadRows(orders, |chosen|, limit, size) == Cut(chosen, limit)
      {
        UniqueOrderRead(chosen, orders, limit, size);
      }
    } else {
      var i, j :| 0 <= i < n && i < |chosen| && 0 <= j < |chosen| && chosen[i].id == chosen[j].id && chosen[i] != chosen[j];
      var order := Exchanged(chosen, i, j);
      OtherOrderRead(chosen, order, limit, size, i);
    }
  }

  lemma UniqueOrderRead(chosen: seq<Row>, orders: nat -> seq<Row>, limit: Option<nat>, size: nat)
    requires size > 0 && Serves(chosen, orders) && NoRivals(chosen, |Cut(chosen, limit)|)
    ensures ReadRows(orders, |chosen|, limit, size) == Cut(chosen, limit)
  {
    hide Serves, NoRivals;
    var n := |Cut(chosen, limit)|;
    if limit.Some? {
      OnlyOrder(chosen, orders, n, 0);
      assert Page(orders(0), 0, limit.value) == orders(0)[..n];
    } else {
      forall k
        ensures orders(k) == chosen
      {
        OnlyOrder(chosen, orders, n, k);
        assert orders(k)[..n] == orders(k) && chosen[..n] == chosen;
      }
      SameOrder(orders, chosen, 0, size, 0);
    }
  }

  lemma OtherOrderRead(chosen: seq<Row>, order: seq<Row>, limit: Option<nat>, size: nat, i: nat)
    requires size > 0 && IsOrder(chosen, order) && i < |Cut(chosen, limit)| && order[i] != chosen[i]
    ensures exists orders: nat -> seq<Row> :: Serves(chosen, orders) && ReadRows(orders, |chosen|, limit, size) != Cut(chosen, limit)
  {
    var orders: nat -> seq<Row> := k => order;
    assert Serves(chosen, orders);
    SameOrder(orders, order, 0, size, 0);
    assert ReadRows(orders, |chosen|, limit, size)[i] == order[i];
  }

  lemma EitherOrder(a: Row, b: Row)
    requires a.id == b.id
    ensures IsOrder([a, b], [a, b]) && IsOrder([a, b], [b, a])
  {
    assert [b, a] == [a, b][0 := b][1 := a];
  }

  /** Two rows of one id at the end of a page: one is read twice, and the other never. */
  lemma RivalIsNeverRead(a: Row, b: Row)
    requires a.id == b.id && a != b
    ensures var orders := (k: nat) => if k == 0 then [a, b] else [b, a];
            Serves([a, b], orders) && ReadRows(orders, 2, None, 1) == [a, a]
  {
    hide IsOrder;
    var orders := (k: nat) => if k == 0 then [a, b] else [b, a];
    EitherOrder(a, b);
    assert Page(orders(0), 0, 1) == [a] && Page(orders(1), 1, 1) == [a];
    assert PagesFrom(orders, 2, 2, 1, 2) == [];
    assert PagesFrom(orders, 2, 1, 1, 1) == [a];
  }

  // ---------------------------------------------------------------------------
  // Histories
  // ---------------------------------------------------------------------------

  /** A run in progress, over the rows its query returned. */
  datatype Progress =
    | Idle
    | Running(incremental: bool, described: bool, snapshot: seq<Row>, next: nat)

  datatype State = State(table: seq<Row>, persons: Persons, mark: Mark, run: Progress)

  datatype Step =
    | Insert(i: nat, row: Row)
    | Replace(i: nat, row: Row) // by any row, active or not, with any stamp
    | Begin(incremental: bool, described: bool, rows: seq<Row>) // rows: what the query brings, all or only some
    | WriteRow
    | Crash
    | Finish
    | LoseMark(left: Mark)

  predicate Enabled(s: State, step: Step) {
    match step
    case Insert(i, _) => i <= |s.table|
    case Replace(i, _) => i < |s.table|
    case Begin(incremental, _, rows) =>
      s.run.Idle? && forall q | q in rows :: q in s.table && Wanted(q, if incremental then Since(s.mark) else None)
    case WriteRow => s.run.Running? && s.run.next < |s.run.snapshot|
    case Crash => s.run.Running?
    case Finish => s.run.Running? && s.run.next == |s.run.snapshot|
    case LoseMark(left) => !left.Stamp?
  }

  function Apply(s: State, step: Step): State
    requires Enabled(s, step)
  {
    match step
    case Insert(i, row) => s.(table := s.table[..i] + [row] + s.table[i..])
    case Replace(i, row) => s.(table := s.table[i := row])
    case Begin(incremental, described, rows) => s.(run := Running(incremental, described, rows, 0))
    case WriteRow =>
      s.(persons := Written(s.persons, s.run.described, s.run.snapshot[s.run.next]), run := s.run.(next := s.run.next + 1))
    case Crash => s.(run := Idle)
    case Finish => s.(run := Idle, mark := EndMark(s))
    case LoseMark(left) => s.(mark := left)
  }

  /** The watermark when the current run finishes. */
  function EndMark(s: State): Mark
    requires s.run.Running?
  {
    MarkAfter(s.mark, s.run.incremental, s.run.snapshot)
  }

  function MarkAfter(mark: Mark, incremental: bool, rows: seq<Row>): Mark {
    if incremental then Advanced(mark, MaxTime(rows)) else mark
  }

  function Pending(s: State): seq<Row> {
    if s.run.Running? && s.run.next <= |s.run.snapshot| then s.run.snapshot[s.run.next..] else []
  }

  // ---------------------------------------------------------------------------
  // The claim
  // ---------------------------------------------------------------------------

  predicate IsCurrent(persons: Persons, r: Row) {
    Vid(r) in persons && persons[Vid(r)] == Contents(r.version)
  }

  /** A watermark claims the active non-virtual rows stamped at or below it. */
  predicate Claimed(r: Row, at: Option<nat>) {
    r.active && !r.isVirtual && r.time.Some? && at.Some? && r.time.value <= at.value
  }

  /** No lost row: every claimed row is in the graph at its current version. */
  ghost predicate Claims(table: seq<Row>, persons: Persons, at: Option<nat>) {
    forall r | r in table && Claimed(r, at) :: IsCurrent(persons, r)
  }

  /** The claim holds now and wherever the current run stops: at a crash after any of its writes, or at
      its end. */
  ghost predicate Good(s: State) {
    && Claims(s.table, s.persons, Since(s.mark))
    && (s.run.Running? ==>
          && s.run.next <= |s.run.snapshot|
          && CrashSafe(s.table, s.persons, s.run.described, Pending(s), Since(s.mark))
          && Claims(s.table, Loaded(s.persons, s.run.described, Pending(s)), Since(EndMark(s))))
  }

  ghost predicate CrashSafe(table: seq<Row>, persons: Persons, described: bool, rows: seq<Row>, at: Option<nat>) {
    forall k | 0 <= k <= |rows| :: Claims(table, Loaded(persons, described, rows[..k]), at)
  }

  // ---------------------------------------------------------------------------
  // What a list of writes leaves
  // ---------------------------------------------------------------------------

  /** The last row that writes this vertex. */
  function LastOf(rows: seq<Row>, vid: string): Option<Row> {
    if rows == [] then None
    else
      var last := rows[|rows| - 1];
      if !last.isVirtual && Vid(last) == vid then Some(last) else LastOf(rows[..|rows| - 1], vid)
  }

  lemma {:induction false} LoadedVertex(g: Persons, described: bool, rows: seq<Row>, vid: string)
    ensures var now, q := Loaded(g, described, rows), LastOf(rows, vid);
            && (q.Some? ==> vid in now && now[vid] == VertexOf(q.value, described))
            && (q.None? ==> (vid in now <==> vid in g) && (vid in g ==> now[vid] == g[vid]))
  {
    hide Vid, VertexOf;
    if rows != [] {
      LoadedVertex(g, described, rows[..|rows| - 1], vid);
    }
  }

  lemma {:induction false} LastOfMember(rows: seq<Row>, vid: string)
    ensures LastOf(rows, vid).Some? <==> exists q | q in rows :: !q.isVirtual && Vid(q) == vid
    ensures var q := LastOf(rows, vid); q.Some? ==> q.value in rows && !q.value.isVirtual && Vid(q.value) == vid
  {
    hide Vid;
    if rows != [] {
      LastOfMember(rows[..|rows| - 1], vid);
      assert rows == rows[..|rows| - 1] + [rows[|rows| - 1]];
    }
  }

  /** Whether the writes leave the row current: the last one to its vertex has its contents. */
  predicate EndsCurrent(g: Persons, described: bool, rows: seq<Row>, r: Row) {
    var q := LastOf(rows, Vid(r));
    if q.Some? then described && q.value.version == r.version else IsCurrent(g, r)
  }

  lemma EndsCurrentIff(g: Persons, described: bool, rows: seq<Row>, r: Row)
    ensures IsCurrent(Loaded(g, described, rows), r) <==> EndsCurrent(g, described, rows, r)
  {
    hide Loaded, LastOf, Vid;
    LoadedVertex(g, described, rows, Vid(r));
  }

  lemma ClaimsAfter(table: seq<Row>, g: Persons, described: bool, rows: seq<Row>, at: Option<nat>)
    ensures Claims(table, Loaded(g, described, rows), at) <==>
              forall r | r in table && Claimed(r, at) :: EndsCurrent(g, described, rows, r)
  {
    hide Loaded, EndsCurrent, IsCurrent, Claimed;
    forall r
      ensures IsCurrent(Loaded(g, described, rows), r) <==> EndsCurrent(g, described, rows, r)
    {
      EndsCurrentIff(g, described, rows, r);
    }
  }

  /** Every write to the row's vertex writes the row's contents. */
  ghost predicate WritesAgree(described: bool, rows: seq<Row>, r: Row) {
    forall q | q in rows && !q.isVirtual && Vid(q) == Vid(r) :: described && q.version == r.version
  }

  lemma AgreeingWrites(g: Persons, described: bool, rows: seq<Row>, r: Row)
    requires IsCurrent(g, r)
    ensures (forall k | 0 <= k <= |rows| :: EndsCurrent(g, described, rows[..k], r)) <==> WritesAgree(described, rows, r)
  {
    hide LastOf, Vid;
    if WritesAgree(described, rows, r) {
      forall k | 0 <= k <= |rows|
        ensures EndsCurrent(g, described, rows[..k], r)
      {
        LastOfMember(rows[..k], Vid(r));
      }
    } else {
      var j :| 0 <= j < |rows| && !rows[j].isVirtual && Vid(rows[j]) == Vid(r) && !(described && rows[j].version == r.version);
      LastWritten(rows, j);
      assert !EndsCurrent(g, described, rows[..j + 1], r);
    }
  }

  lemma LastWritten(rows: seq<Row>, j: nat)
    requires j < |rows| && !rows[j].isVirtual
    ensures LastOf(rows[..j + 1], Vid(rows[j])) == Some(rows[j])
  {
    hide Vid;
  }

  lemma CrashSafeIff(table: seq<Row>, g: Persons, described: bool, rows: seq<Row>, at: Option<nat>)
    requires Claims(table, g, at)
    ensures CrashSafe(table, g, described, rows, at) <==>
              forall r | r in table && Claimed(r, at) :: WritesAgree(described, rows, r)
  {
    hide Loaded, EndsCurrent, IsCurrent, Claimed, WritesAgree;
    forall k | 0 <= k <= |rows|
      ensures Claims(table, Loaded(g, described, rows[..k]), at) <==>
                forall r | r in table && Claimed(r, at) :: EndsCurrent(g, described, rows[..k], r)
    {
      ClaimsAfter(table, g, described, rows[..k], at);
    }
    forall r | r in table && Claimed(r, at)
      ensures (forall k | 0 <= k <= |rows| :: EndsCurrent(g, described, rows[..k], r)) <==> WritesAgree(described, rows, r)
    {
      AgreeingWrites(g, described, rows, r);
    }
  }

  // ---------------------------------------------------------------------------
  // When a run is safe
  // ---------------------------------------------------------------------------

  /** No write of the run spoils a row that is claimed already; and each row that will be claimed is
      written last with its own contents, or is not written and in the graph already. */
  ghost predicate RunSafe(s: State, incremental: bool, described: bool, rows: seq<Row>) {
    && (forall r | r in s.table && Claimed(r, Since(s.mark)) :: WritesAgree(described, rows, r))
    && forall r | r in s.table && Claimed(r, Since(MarkAfter(s.mark, incremental, rows))) ::
         EndsCurrent(s.persons, described, rows, r)
  }

  /** A run begun where the claim holds is safe wherever it stops, iff it is `RunSafe`. */
  lemma BeginKeepsIff(s: State, incremental: bool, described: bool, rows: seq<Row>)
    requires Good(s) && Enabled(s, Begin(incremental, described, rows))
    ensures Good(Apply(s, Begin(incremental, described, rows))) <==> RunSafe(s, incremental, described, rows)
  {
    hide Loaded, MaxTime, IsCurrent, Claimed, LastOf, Vid, WritesAgree, CrashSafe, EndsCurrent, Wanted;
    var after := Apply(s, Begin(incremental, described, rows));
    assert Pending(after) == rows;
    CrashSafeIff(s.table, s.persons, described, rows, Since(s.mark));
    ClaimsAfter(s.table, s.persons, described, rows, Since(EndMark(after)));
  }

  // ---------------------------------------------------------------------------
  // When a change of the source is safe
  // ---------------------------------------------------------------------------

  /** The new row is not claimed, or the graph has its contents and the current run leaves them; and if
      the end of the run will claim it, the run ends with its contents. */
  ghost predicate ChangeSafe(s: State, row: Row) {
    && (Claimed(row, Since(s.mark)) ==>
          IsCurrent(s.persons, row) && (s.run.Running? ==> WritesAgree(s.run.described, Pending(s), row)))
    && (s.run.Running? && Claimed(row, Since(EndMark(s))) ==>
          EndsCurrent(s.persons, s.run.described, Pending(s), row))
  }

  ghost predicate Changes(table: seq<Row>, now: seq<Row>, row: Row) {
    row in now && forall r | r in now :: r == row || r in table
  }

  lemma ChangedClaims(table: seq<Row>, now: seq<Row>, row: Row, persons: Persons, at: Option<nat>)
    requires Changes(table, now, row) && Claims(table, persons, at)
    ensures Claims(now, persons, at) <==> (Claimed(row, at) ==> IsCurrent(persons, row))
  {
    hide IsCurrent, Claimed;
  }

  lemma ChangedRun(s: State, now: seq<Row>, row: Row)
    requires Good(s) && s.run.Running? && Changes(s.table, now, row)
    ensures Good(s.(table := now)) <==> ChangeSafe(s, row)
  {
    hide IsCurrent, Claimed, Loaded, EndsCurrent, WritesAgree, MaxTime, Changes;
    var d, rows, at := s.run.described, Pending(s), Since(s.mark);
    ChangedClaims(s.table, now, row, s.persons, at);
    ChangedClaims(s.table, now, row, Loaded(s.persons, d, rows), Since(EndMark(s)));
    EndsCurrentIff(s.persons, d, rows, row);
    forall k | 0 <= k <= |rows|
      ensures Claims(now, Loaded(s.persons, d, rows[..k]), at) <==>
                (Claimed(row, at) ==> EndsCurrent(s.persons, d, rows[..k], row))
    {
      ChangedClaims(s.table, now, row, Loaded(s.persons, d, rows[..k]), at);
      EndsCurrentIff(s.persons, d, rows[..k], row);
    }
    if IsCurrent(s.persons, row) {
      AgreeingWrites(s.persons, d, rows, row);
    }
  }

  /** A change in a state where the claim holds leaves it safe iff it is `ChangeSafe`. Between runs: iff
      the new row is inactive, virtual, unstamped, stamped after the watermark, or in the graph already.
      During a run also the stamps up to what the run will claim count. */
  lemma ChangeKeepsIff(s: State, now: seq<Row>, row: Row)
    requires Good(s) && Changes(s.table, now, row)
    ensures Good(s.(table := now)) <==> ChangeSafe(s, row)
  {
    hide IsCurrent, Claimed, EndsCurrent, WritesAgree, Changes;
    if s.run.Running? {
      ChangedRun(s, now, row);
    } else {
      ChangedClaims(s.table, now, row, s.persons, Since(s.mark));
    }
  }

  // ---------------------------------------------------------------------------
  // The other steps
  // ---------------------------------------------------------------------------

  lemma {:induction false} LoadedCons(g: Persons, described: bool, q: Row, rows: seq<Row>)
    ensures Loaded(g, described, [q] + rows) == Loaded(Written(g, described, q), described, rows)
  {
    hide Written;
    if rows == [] {
      assert [q] + rows == [q] && [q][..0] == [];
    } else {
      LoadedCons(g, described, q, rows[..|rows| - 1]);
      assert ([q] + rows)[..|rows|] == [q] + rows[..|rows| - 1];
    }
  }

  lemma WriteKeepsGood(s: State)
    requires Good(s) && Enabled(s, WriteRow)
    ensures Good(Apply(s, WriteRow))
  {
    hide Claims, Written, Loaded, MaxTime;
    var after, d := Apply(s, WriteRow), s.run.described;
    var q, rows := Pending(s)[0], Pending(after);
    assert Pending(s) == [q] + rows;
    forall k | 0 <= k <= |rows|
      ensures Claims(s.table, Loaded(after.persons, d, rows[..k]), Since(s.mark))
    {
      LoadedCons(s.persons, d, q, rows[..k]);
      assert Pending(s)[..k + 1] == [q] + rows[..k];
    }
    LoadedCons(s.persons, d, q, rows);
    LoadedNone(after.persons, d);
    assert rows[..0] == [];
  }

  lemma LoadedNone(g: Persons, described: bool)
    ensures Loaded(g, described, []) == g
  {
  }

  lemma ClaimsLess(table: seq<Row>, persons: Persons, at: Option<nat>, less: Option<nat>)
    requires Claims(table, persons, at) && (less.Some? ==> at.Some? && less.value <= at.value)
    ensures Claims(table, persons, less)
  {
    hide IsCurrent;
  }

  lemma FinishKeepsGood(s: State)
    requires Good(s) && Enabled(s, Finish)
    ensures Good(Apply(s, Finish))
  {
    hide Claims, Loaded, MaxTime;
    assert Pending(s) == [];
    LoadedNone(s.persons, s.run.described);
    assert Claims(s.table, s.persons, Since(EndMark(s)));
  }

  lemma LossKeepsGood(s: State, left: Mark)
    requires Good(s) && !left.Stamp?
    ensures Good(s.(mark := left))
  {
    hide Loaded, MaxTime;
    if s.run.Running? {
      ClaimsLess(s.table, Loaded(s.persons, s.run.described, Pending(s)), Since(EndMark(s)), Since(EndMark(s.(mark := left))));
    }
  }

  ghost predicate StepSafe(s: State, step: Step) {
    match step
    case Insert(_, row) => ChangeSafe(s, row)
    case Replace(_, row) => ChangeSafe(s, row)
    case Begin(incremental, described, rows) => RunSafe(s, incremental, described, rows)
    case _ => true
  }

  lemma ChangesApplied(s: State, step: Step)
    requires (step.Insert? || step.Replace?) && Enabled(s, step)
    ensures Changes(s.table, Apply(s, step).table, step.row)
  {
    var now := Apply(s, step).table;
    assert now[step.i] == step.row;
  }

  /** Exactly when a step keeps the claim at every stop of the current run. */
  lemma StepKeepsIff(s: State, step: Step)
    requires Good(s) && Enabled(s, step)
    ensures Good(Apply(s, step)) <==> StepSafe(s, step)
  {
    hide Claims, ChangeSafe, RunSafe, Loaded, Selected, MaxTime, Changes;
    match step
    case Insert(i, row) =>
      ChangesApplied(s, step);
      ChangeKeepsIff(s, Apply(s, step).table, row);
    case Replace(i, row) =>
      ChangesApplied(s, step);
      ChangeKeepsIff(s, Apply(s, step).table, row);
    case Begin(incremental, described, rows) => BeginKeepsIff(s, incremental, described, rows);
    case WriteRow => WriteKeepsGood(s);
    case Crash =>
    case Finish => FinishKeepsGood(s);
    case LoseMark(left) => LossKeepsGood(s, left);
  }

  // ---------------------------------------------------------------------------
  // Whole histories
  // ---------------------------------------------------------------------------

  /** A fresh installation: any table, any graph, no watermark yet. */
  ghost predicate Initial(s: State) {
    !s.mark.Stamp? && s.run.Idle?
  }

  ghost predicate History(states: seq<State>, steps: seq<Step>) {
    && |states| == |steps| + 1 && Initial(states[0])
    && forall i | 0 <= i < |steps| :: Enabled(states[i], steps[i]) && states[i + 1] == Apply(states[i], steps[i])
  }

  lemma {:induction false} SafeHistory(states: seq<State>, steps: seq<Step>, i: nat)
    requires History(states, steps) && i < |states|
    requires forall k | 0 <= k < i :: StepSafe(states[k], steps[k])
    ensures Good(states[i])
  {
    hide StepSafe;
    if i == 0 {
      NothingClaimed(states[0]);
    } else {
      SafeHistory(states, steps, i - 1);
      StepKeepsIff(states[i - 1], steps[i - 1]);
    }
  }

  lemma NothingClaimed(s: State)
    requires Initial(s)
    ensures Good(s)
  {
  }

  /** Over every history, with any changes, any DESCRIBE answers and any ids: the claim holds at every
      moment and at every possible stop of a run, iff every run begun and every change made was safe. */
  lemma NoLostRowIff(states: seq<State>, steps: seq<Step>)
    requires History(states, steps)
    ensures (forall i | 0 <= i < |states| :: Good(states[i])) <==>
              forall i | 0 <= i < |steps| :: StepSafe(states[i], steps[i])
  {
    hide StepSafe, Good;
    if forall i | 0 <= i < |steps| :: StepSafe(states[i], steps[i]) {
      forall i | 0 <= i < |states|
        ensures Good(states[i])
      {
        SafeHistory(states, steps, i);
      }
    }
    if forall i | 0 <= i < |states| :: Good(states[i]) {
      forall i | 0 <= i < |steps|
        ensures StepSafe(states[i], steps[i])
      {
        assert Good(states[i + 1]);
        StepKeepsIff(states[i], steps[i]);
      }
    }
  }

  /** The new row is stamped after the watermark and after all that the current run will claim. */
  predicate StampedAfter(s: State, row: Row) {
    !Claimed(row, Since(s.mark)) && (s.run.Running? ==> !Claimed(row, Since(EndMark(s))))
  }

  /** Active non-virtual rows of one vertex have one version. */
  ghost predicate NoClash(table: seq<Row>) {
    forall q, r | q in table && r in table && q.active && r.active && !q.isVirtual && !r.isVirtual && Vid(q) == Vid(r) ::
      q.version == r.version
  }

  /** An ordinary step: DESCRIBE answers, the query brings all the wanted rows, no two rows clash, changes
      are stamped late enough. */
  ghost predicate Ordinary(s: State, step: Step) {
    match step
    case Insert(_, row) => StampedAfter(s, row)
    case Replace(_, row) => StampedAfter(s, row)
    case Begin(incremental, described, rows) =>
      described && NoClash(s.table) && rows == Selected(s.table, if incremental then Since(s.mark) else None)
    case _ => true
  }

  lemma {:induction false} SelectedMembers(table: seq<Row>, since: Option<nat>)
    ensures forall r :: r in Selected(table, since) <==> r in table && Wanted(r, since)
  {
    hide Wanted;
    if table != [] {
      SelectedMembers(table[..|table| - 1], since);
      assert table == table[..|table| - 1] + [table[|table| - 1]];
    }
  }

  /** A row that will be claimed is selected, unless it is claimed already. */
  lemma ClaimedOrSelected(s: State, incremental: bool, r: Row)
    requires r in s.table
    ensures var rows := Selected(s.table, if incremental then Since(s.mark) else None);
            Claimed(r, Since(MarkAfter(s.mark, incremental, rows))) ==> Claimed(r, Since(s.mark)) || r in rows
  {
    hide Selected;
    SelectedMembers(s.table, if incremental then Since(s.mark) else None);
  }

  lemma ClaimedIsActive(r: Row, at: Option<nat>)
    requires Claimed(r, at)
    ensures r.active && !r.isVirtual
  {
  }

  lemma OrdinaryRunIsSafe(s: State, incremental: bool)
    requires Good(s) && NoClash(s.table)
    ensures RunSafe(s, incremental, true, Selected(s.table, if incremental then Since(s.mark) else None))
  {
    hide Selected, LastOf, Vid, MaxTime, IsCurrent, Claimed;
    var rows := Selected(s.table, if incremental then Since(s.mark) else None);
    SelectedMembers(s.table, if incremental then Since(s.mark) else None);
    forall r, at | r in s.table && Claimed(r, at)
      ensures r.active && !r.isVirtual
    {
      ClaimedIsActive(r, at);
    }
    forall r | r in s.table && Claimed(r, Since(MarkAfter(s.mark, incremental, rows)))
      ensures EndsCurrent(s.persons, true, rows, r)
    {
      ClaimedOrSelected(s, incremental, r);
      LastOfMember(rows, Vid(r));
    }
  }

  lemma {:induction false} OrdinaryHistory(states: seq<State>, steps: seq<Step>, i: nat)
    requires History(states, steps) && i < |states|
    requires forall k | 0 <= k < |steps| :: Ordinary(states[k], steps[k])
    ensures Good(states[i])
  {
    hide RunSafe, Claimed, NoClash, MaxTime, Good, Selected;
    if i == 0 {
      NothingClaimed(states[0]);
    } else {
      var s, step := states[i - 1], steps[i - 1];
      OrdinaryHistory(states, steps, i - 1);
      assert Ordinary(s, step);
      if step.Begin? {
        OrdinaryRunIsSafe(s, step.incremental);
      }
      StepKeepsIff(s, step);
    }
  }

  /** So in every history of ordinary steps, at every moment every active non-virtual row stamped at or
      below the watermark is in the graph at its current version. */
  lemma NoLostRow(states: seq<State>, steps: seq<Step>, i: nat)
    requires History(states, steps) && i < |states|
    requires forall k | 0 <= k < |steps| :: Ordinary(states[k], steps[k])
    ensures var s := states[i];
            forall r | r in s.table && r.active && !r.isVirtual && r.time.Some? && s.mark.Stamp? && r.time.value <= s.mark.at ::
              var vid := "person_" + Strip(r.id);
              vid in s.persons && s.persons[vid] == Contents(r.version)
  {
    hide History, Strip;
    OrdinaryHistory(states, steps, i);
  }

  /** As long as the file is not lost, the watermark never decreases. */
  lemma {:induction false} WatermarkNeverDecreases(states: seq<State>, steps: seq<Step>, i: nat, j: nat)
    requires History(states, steps) && i <= j < |states| && states[i].mark.Stamp?
    requires forall k | i <= k < j :: !steps[k].LoseMark?
    ensures states[j].mark.Stamp? && states[i].mark.at <= states[j].mark.at
    decreases j
  {
    if i < j {
      WatermarkNeverDecreases(states, steps, i, j - 1);
      assert Enabled(states[j - 1], steps[j - 1]);
    }
  }

  // ---------------------------------------------------------------------------
  // A call of Run is such a run
  // ---------------------------------------------------------------------------

  /** The state after `n` writes of the current run. */
  function AfterWrites(s: State, n: nat): State
    requires s.run.Running? && s.run.next == 0 && n <= |s.run.snapshot|
    ensures AfterWrites(s, n).run == s.run.(next := n)
    ensures AfterWrites(s, n).mark == s.mark && AfterWrites(s, n).table == s.table
  {
    if n == 0 then s else Apply(AfterWrites(s, n - 1), WriteRow)
  }

  lemma {:induction false} WritesLoad(s: State, n: nat)
    requires s.run.Running? && s.run.next == 0 && n <= |s.run.snapshot|
    ensures AfterWrites(s, n).persons == Loaded(s.persons, s.run.described, s.run.snapshot[..n])
  {
    if n > 0 {
      WritesLoad(s, n - 1);
      assert s.run.snapshot[..n][..n - 1] == s.run.snapshot[..n - 1];
    }
  }

  /** The rows a call of Run reads are ones that a history can begin with. */
  lemma ReadCanBegin(s: State, incremental: bool, described: bool, scholarId: Option<string>, limit: Option<nat>, orders: nat -> seq<Row>)
    requires s.run.Idle?
    requires Serves(Chosen(s.table, if incremental then Since(s.mark) else None, scholarId), orders)
    ensures var chosen := Chosen(s.table, if incremental then Since(s.mark) else None, scholarId);
            Enabled(s, Begin(incremental, described, ReadRows(orders, |chosen|, limit, BATCH_SIZE)))
  {
    hide Selected, OfScholar, Wanted, Serves, ReadRows;
    var since := if incremental then Since(s.mark) else None;
    ReadMembers(Chosen(s.table, since, scholarId), orders, limit, BATCH_SIZE);
    SelectedMembers(s.table, since);
    if scholarId.Some? {
      OfScholarMembers(Selected(s.table, since), scholarId.value);
    }
  }

  /** The rows a call asks for: active, of the given scholar, and when the run is incremental and the file
      holds a stamp, changed strictly after it. A row without a time is no change after anything. */
  lemma ChosenIff(table: seq<Row>, incremental: bool, m: Mark, scholarId: Option<string>, r: Row)
    ensures r in Chosen(table, if incremental then Since(m) else None, scholarId) <==>
              && r in table && r.active && (scholarId.Some? ==> r.id == scholarId.value)
              && (incremental && m.Stamp? ==> r.time.Some? && m.at < r.time.value)
  {
    hide Selected, OfScholar;
    var since := if incremental then Since(m) else None;
    SelectedMembers(table, since);
    if scholarId.Some? {
      OfScholarMembers(Selected(table, since), scholarId.value);
    }
  }

  lemma {:induction false} OfScholarMembers(rows: seq<Row>, id: string)
    ensures forall r :: r in OfScholar(rows, id) <==> r in rows && r.id == id
  {
    if rows != [] {
      OfScholarMembers(rows[..|rows| - 1], id);
      assert rows == rows[..|rows| - 1] + [rows[|rows| - 1]];
    }
  }

  /** What Run leaves, whether it returns or raises, is what a history of Begin, writes, and Finish or
      Crash leaves. */
  lemma RunIsAHistory(s: State, begin: Step, n: nat)
    requires begin.Begin? && Enabled(s, begin) && n <= |begin.rows|
    ensures var t := AfterWrites(Apply(s, begin), n);
            && Apply(t, Crash) == s.(persons := Loaded(s.persons, begin.described, begin.rows[..n]))
            && (n == |begin.rows| ==>
                  Apply(t, Finish) == s.(persons := Loaded(s.persons, begin.described, begin.rows),
                                         mark := MarkAfter(s.mark, begin.incremental, begin.rows)))
  {
    hide AfterWrites, Loaded, MaxTime, Wanted;
    WritesLoad(Apply(s, begin), n);
    assert begin.rows[..|begin.rows|] == begin.rows;
  }

  /** A run that crashes after `k` writes. */
  function CrashedRun(s: State, begin: Step, k: nat): State
    requires begin.Begin? && Enabled(s, begin) && k <= |begin.rows|
  {
    Apply(AfterWrites(Apply(s, begin), k), Crash)
  }

  /** A run, begun, perhaps overtaken by a change, written to its end and finished. */
  function AfterRun(s: State, begin: Step, change: Option<Row>): State
    requires begin.Begin? && Enabled(s, begin) && (change.Some? ==> s.table != [])
  {
    var begun := Apply(s, begin);
    var now := if change.Some? then Apply(begun, Replace(0, change.value)) else begun;
    Apply(AfterWrites(now, |begin.rows|), Finish)
  }

  lemma AfterRunIs(s: State, begin: Step, change: Option<Row>)
    requires begin.Begin? && Enabled(s, begin) && (change.Some? ==> s.table != [])
    ensures var end := AfterRun(s, begin, change);
            && end.table == (if change.Some? then s.table[0 := change.value] else s.table)
            && end.persons == Loaded(s.persons, begin.described, begin.rows)
            && end.mark == MarkAfter(s.mark, begin.incremental, begin.rows)
  {
    hide Loaded, MaxTime, Wanted;
    var begun := Apply(s, begin);
    var now := if change.Some? then Apply(begun, Replace(0, change.value)) else begun;
    WritesLoad(now, |begin.rows|);
    assert begin.rows[..|begin.rows|] == begin.rows;
  }

  lemma CrashSafeMeans(s: State, begin: Step)
    requires begin.Begin? && Enabled(s, begin)
    ensures CrashSafe(s.table, s.persons, begin.described, begin.rows, Since(s.mark)) <==>
              forall k | 0 <= k <= |begin.rows| :: Claims(s.table, CrashedRun(s, begin, k).persons, Since(s.mark))
  {
    hide Claims, CrashedRun, Wanted;
    forall k | 0 <= k <= |begin.rows|
      ensures CrashedRun(s, begin, k).persons == Loaded(s.persons, begin.described, begin.rows[..k])
    {
      CrashedRunLoads(s, begin, k);
    }
  }

  lemma CrashedRunLoads(s: State, begin: Step, k: nat)
    requires begin.Begin? && Enabled(s, begin) && k <= |begin.rows|
    ensures CrashedRun(s, begin, k).persons == Loaded(s.persons, begin.described, begin.rows[..k])
  {
    hide Wanted;
    WritesLoad(Apply(s, begin), k);
  }

  /** And `Good` says just that the claim holds wherever a run can stop. */
  lemma GoodMeans(s: State, begin: Step)
    requires begin.Begin? && Enabled(s, begin) && Good(s)
    ensures var end := AfterRun(s, begin, None);
            Good(Apply(s, begin)) <==>
              && (forall k | 0 <= k <= |begin.rows| :: Claims(s.table, CrashedRun(s, begin, k).persons, Since(s.mark)))
              && Claims(end.table, end.persons, Since(end.mark))
  {
    hide MaxTime, Claims, CrashSafe, CrashedRun, AfterRun, Wanted;
    assert Pending(Apply(s, begin)) == begin.rows;
    CrashSafeMeans(s, begin);
    AfterRunIs(s, begin, None);
  }

  // ---------------------------------------------------------------------------
  // When DESCRIBE fails, and when ids clash
  // ---------------------------------------------------------------------------

  ghost predicate AllStamped(table: seq<Row>) {
    forall r | r in table :: r.time.Some?
  }

  /** Every row that an incremental run selects is claimed at its end. */
  lemma SelectedIsClaimed(s: State, r: Row)
    requires AllStamped(s.table) && r in Selected(s.table, Since(s.mark)) && !r.isVirtual
    ensures Claimed(r, Since(Advanced(s.mark, MaxTime(Selected(s.table, Since(s.mark))))))
  {
    hide Selected, MaxTime;
    SelectedMembers(s.table, Since(s.mark));
    MaxTimeIsStamp(Selected(s.table, Since(s.mark)));
  }

  /** Active non-virtual rows are claimed already or selected. */
  lemma ActiveRow(s: State, r: Row)
    requires AllStamped(s.table) && r in s.table && r.active && !r.isVirtual
    ensures Claimed(r, Since(s.mark)) || r in Selected(s.table, Since(s.mark))
  {
    hide Selected;
    SelectedMembers(s.table, Since(s.mark));
  }

  lemma SafeRunHasNoClash(s: State, described: bool)
    requires Good(s) && s.run.Idle? && AllStamped(s.table)
    requires RunSafe(s, true, described, Selected(s.table, Since(s.mark)))
    ensures (forall q | q in Selected(s.table, Since(s.mark)) :: q.isVirtual) || described
    ensures NoClash(s.table)
  {
    hide Selected, MaxTime, LastOf, Vid, Claimed, WritesAgree;
    var rows := Selected(s.table, Since(s.mark));
    SelectedMembers(s.table, Since(s.mark));
    forall q | q in rows && !q.isVirtual
      ensures described
    {
      SelectedIsClaimed(s, q);
      LastOfMember(rows, Vid(q));
    }
    forall q, r | q in s.table && r in s.table && q.active && r.active && !q.isVirtual && !r.isVirtual && Vid(q) == Vid(r)
      ensures q.version == r.version
    {
      EndClaims(s, q);
      EndClaims(s, r);
      assert EndsCurrent(s.persons, described, rows, q) && EndsCurrent(s.persons, described, rows, r);
    }
  }

  lemma EndClaims(s: State, r: Row)
    requires AllStamped(s.table) && r in s.table && r.active && !r.isVirtual
    ensures Claimed(r, Since(Advanced(s.mark, MaxTime(Selected(s.table, Since(s.mark))))))
  {
    hide Selected, MaxTime;
    ActiveRow(s, r);
    if r in Selected(s.table, Since(s.mark)) {
      SelectedIsClaimed(s, r);
    }
  }

  /** On a stamped table an incremental run keeps the claim iff DESCRIBE lists fields, or no non-virtual
      row is selected, and no two active non-virtual rows of one vertex differ. */
  lemma SafeRunIff(s: State, described: bool)
    requires Good(s) && s.run.Idle? && AllStamped(s.table)
    ensures RunSafe(s, true, described, Selected(s.table, Since(s.mark))) <==>
              (described || forall q | q in Selected(s.table, Since(s.mark)) :: q.isVirtual) && NoClash(s.table)
  {
    hide Selected, MaxTime, LastOf, Vid, NoClash, RunSafe;
    var rows := Selected(s.table, Since(s.mark));
    if RunSafe(s, true, described, rows) {
      SafeRunHasNoClash(s, described);
    } else if described && NoClash(s.table) {
      OrdinaryRunIsSafe(s, true);
    } else if forall q | q in rows :: q.isVirtual {
      EmptyRunIsSafe(s, described);
    }
  }

  lemma EmptyRunIsSafe(s: State, described: bool)
    requires Good(s) && forall q | q in Selected(s.table, Since(s.mark)) :: q.isVirtual
    ensures RunSafe(s, true, described, Selected(s.table, Since(s.mark)))
  {
    hide Selected, MaxTime, LastOf, Vid, Claimed, IsCurrent;
    var rows := Selected(s.table, Since(s.mark));
    forall r | r in s.table && Claimed(r, Since(MarkAfter(s.mark, true, rows)))
      ensures EndsCurrent(s.persons, described, rows, r)
    {
      ClaimedOrSelected(s, true, r);
      ClaimedIsActive(r, Since(MarkAfter(s.mark, true, rows)));
      LastOfMember(rows, Vid(r));
    }
  }

  lemma LoadedOne(described: bool, a: Row)
    requires !a.isVirtual
    ensures Loaded(map[], described, [a]) == map[Vid(a) := VertexOf(a, described)]
  {
    hide Vid, VertexOf;
    assert [a][..0] == [];
  }

  lemma LoadedTwo(a: Row, b: Row)
    requires !a.isVirtual && !b.isVirtual
    ensures Loaded(map[], true, [a, b]) == map[Vid(a) := Contents(a.version)][Vid(b) := Contents(b.version)]
  {
    hide Vid;
    LoadedOne(true, a);
    assert [a, b][..1] == [a];
  }

  /** DESCRIBE fails: the row is written without properties, and the watermark passes it. */
  lemma FailedDescribeLosesARow()
    ensures var a := Row("a", 1, Some(1), true, false);
            var end := AfterRun(State([a], map[], Missing, Idle), Begin(true, false, [a]), None);
            && end.mark == Stamp(1) && end.persons == map[Vid(a) := Empty]
            && !Claims(end.table, end.persons, Since(end.mark))
  {
    hide Vid, AfterRun, Selected, MaxTime, Loaded;
    var a := Row("a", 1, Some(1), true, false);
    OneRow(a);
    LoadedOne(false, a);
    AfterRunIs(State([a], map[], Missing, Idle), Begin(true, false, [a]), None);
    assert a in [a] && Claimed(a, Some(1));
  }

  lemma OneRow(a: Row)
    requires a.active && !a.isVirtual
    ensures Selected([a], None) == [a] && MaxTime([a]) == a.time
  {
    assert [a][..0] == [];
  }

  /** Two paddings of one scholar id share a vertex: only the last row written is current. */
  lemma PaddedIdsLoseARow()
    ensures var a, padded := Row("A", 1, Some(1), true, false), Row(" A", 2, Some(2), true, false);
            var end := AfterRun(State([a, padded], map[], Missing, Idle), Begin(true, true, [a, padded]), None);
            && Vid(a) == Vid(padded) && end.mark == Stamp(2) && end.persons == map[Vid(a) := Contents(2)]
            && !Claims(end.table, end.persons, Since(end.mark))
  {
    hide Vid, AfterRun, Selected, MaxTime, Loaded;
    var a, padded := Row("A", 1, Some(1), true, false), Row(" A", 2, Some(2), true, false);
    PaddedVids();
    TwoRows(a, padded);
    LoadedTwo(a, padded);
    AfterRunIs(State([a, padded], map[], Missing, Idle), Begin(true, true, [a, padded]), None);
    assert a in [a, padded] && Claimed(a, Some(2));
  }

  lemma PaddedVids()
    ensures Vid(Row("A", 1, Some(1), true, false)) == Vid(Row(" A", 2, Some(2), true, false))
  {
    assert Strip("A") == "A" && Strip(" A") == "A";
  }

  lemma TwoRows(a: Row, b: Row)
    requires a.active && !a.isVirtual && b.active && !b.isVirtual
    requires a.time.Some? && b.time.Some? && a.time.value < b.time.value
    ensures Selected([a, b], None) == [a, b] && MaxTime([a, b]) == b.time
  {
    OneRow(a);
    assert [a, b][..1] == [a];
  }

  // ---------------------------------------------------------------------------
  // Late changes
  // ---------------------------------------------------------------------------

  /** Between runs: a change is lost iff the new row is active, not virtual, stamped at or below the
      watermark, and not what the graph holds. */
  lemma IdleChangeIff(s: State, i: nat, row: Row)
    requires Good(s) && s.run.Idle? && i < |s.table|
    ensures Claims(s.table[i := row], s.persons, Since(s.mark)) <==>
              || !row.active || row.isVirtual || row.time.None? || !s.mark.Stamp?
              || row.time.value > s.mark.at || IsCurrent(s.persons, row)
  {
    hide IsCurrent;
    ChangesApplied(s, Replace(i, row));
    ChangedClaims(s.table, s.table[i := row], row, s.persons, Since(s.mark));
  }

  /** During a run, for contents that neither the graph has nor the run will write: the claim survives
      every stop of the run iff the stamp is after the watermark and after all that the run has read. */
  lemma MidRunChangeIff(s: State, i: nat, row: Row)
    requires Good(s) && s.run.Running? && s.run.incremental && i < |s.table|
    requires row.active && !row.isVirtual && row.time.Some? && !IsCurrent(s.persons, row)
    requires forall q | q in Pending(s) :: q.version != row.version
    ensures Good(Apply(s, Replace(i, row))) <==>
              && (s.mark.Stamp? ==> row.time.value > s.mark.at)
              && (MaxTime(s.run.snapshot).Some? ==> row.time.value > MaxTime(s.run.snapshot).value)
  {
    hide IsCurrent, Vid, MaxTime, LastOf, Good;
    ChangesApplied(s, Replace(i, row));
    ChangeKeepsIff(s, s.table[i := row], row);
    LastOfMember(Pending(s), Vid(row));
  }

  /** Row a changes while a run is writing, stamped below row b that the run has read: the run claims the
      change without having loaded it. */
  lemma MidRunChangeLosesARow()
    ensures var a, b, changed := Row("a", 1, Some(1), true, false), Row("b", 1, Some(5), true, false), Row("a", 2, Some(3), true, false);
            var end := AfterRun(State([a, b], map[], Missing, Idle), Begin(true, true, [a, b]), Some(changed));
            && end.table == [changed, b] && end.mark == Stamp(5) && end.persons == map[Vid(a) := Contents(1), Vid(b) := Contents(1)]
            && !Claims(end.table, end.persons, Since(end.mark))
  {
    hide Vid, AfterRun, Selected, MaxTime, Loaded;
    var a, b, changed := Row("a", 1, Some(1), true, false), Row("b", 1, Some(5), true, false), Row("a", 2, Some(3), true, false);
    PlainVids();
    TwoRows(a, b);
    LoadedTwo(a, b);
    AfterRunIs(State([a, b], map[], Missing, Idle), Begin(true, true, [a, b]), Some(changed));
    assert changed in [changed, b] && Claimed(changed, Some(5));
  }

  lemma PlainVids()
    ensures Vid(Row("a", 1, Some(1), true, false)) == Vid(Row("a", 2, Some(3), true, false))
    ensures Vid(Row("a", 1, Some(1), true, false)) != Vid(Row("b", 1, Some(5), true, false))
  {
    assert Strip("a") == "a" && Strip("b") == "b";
    assert Vid(Row("a", 1, Some(1), true, false))[7] == 'a' && Vid(Row("b", 1, Some(5), true, false))[7] == 'b';
  }

  /** Stamps have one-second resolution: new contents in the watermark's own second are lost for good. */
  lemma SameSecondChangeIsMissed(s: State, at: nat, i: nat, changed: Row)
    requires Good(s) && s.run.Idle? && s.mark == Stamp(at) && i < |s.table|
    requires changed.active && !changed.isVirtual && changed.time == Some(at) && !IsCurrent(s.persons, changed)
    ensures !Claims(s.table[i := changed], s.persons, Since(s.mark))
    ensures changed !in Selected(s.table[i := changed], Since(s.mark))
  {
    hide IsCurrent, Selected;
    IdleChangeIff(s, i, changed);
    SelectedMembers(s.table[i := changed], Since(s.mark));
  }

  // ---------------------------------------------------------------------------
  // Filtered runs
  // ---------------------------------------------------------------------------

  ghost predicate KeepsClaims(table: seq<Row>, mark: Mark, described: bool, picked: seq<Row>, g: Persons) {
    Claims(table, g, Since(mark)) ==>
      Claims(table, Loaded(g, described, picked), Since(Advanced(mark, MaxTime(picked))))
  }

  /** Each row that will be claimed is written last with its own contents, or is not written at all and
      its contents are claimed already. */
  ghost predicate NothingCutOff(table: seq<Row>, mark: Mark, described: bool, picked: seq<Row>) {
    forall r | r in table && Claimed(r, Since(Advanced(mark, MaxTime(picked)))) ::
      var q := LastOf(picked, Vid(r));
      if q.Some? then described && q.value.version == r.version
      else exists c | c in table :: Claimed(c, Since(mark)) && Vid(c) == Vid(r) && c.version == r.version
  }

  lemma NothingCutOffIsSafe(table: seq<Row>, mark: Mark, described: bool, picked: seq<Row>, g: Persons)
    requires NothingCutOff(table, mark, described, picked)
    ensures KeepsClaims(table, mark, described, picked, g)
  {
    hide Loaded, MaxTime, LastOf, Vid, Claimed;
    ClaimsAfter(table, g, described, picked, Since(Advanced(mark, MaxTime(picked))));
  }

  /** A graph that holds the claim before a run that cuts `r` off, and not after it. */
  lemma CutOffRun(table: seq<Row>, mark: Mark, described: bool, picked: seq<Row>, r: Row, held: Persons) returns (g: Persons)
    requires Claims(table, held, Since(mark))
    requires r in table && Claimed(r, Since(Advanced(mark, MaxTime(picked))))
    requires var q := LastOf(picked, Vid(r));
             if q.Some? then !(described && q.value.version == r.version)
             else forall c | c in table && Claimed(c, Since(mark)) && Vid(c) == Vid(r) :: c.version != r.version
    ensures !KeepsClaims(table, mark, described, picked, g)
  {
    hide Loaded, MaxTime, LastOf, Vid, Claimed;
    g := if exists c | c in table :: Claimed(c, Since(mark)) && Vid(c) == Vid(r) then held else held - {Vid(r)};
    assert Claims(table, g, Since(mark));
    EndsCurrentIff(g, described, picked, r);
  }

  /** A run that reads only part of the wanted rows still advances the watermark: it keeps the claim on
      every graph on which the claim held, iff nothing was cut off. */
  lemma FilteredRunSafeIff(table: seq<Row>, mark: Mark, described: bool, picked: seq<Row>, held: Persons)
    requires Claims(table, held, Since(mark))
    ensures (forall g :: KeepsClaims(table, mark, described, picked, g)) <==> NothingCutOff(table, mark, described, picked)
  {
    hide KeepsClaims, MaxTime, LastOf, Vid, Claimed, Claims;
    if NothingCutOff(table, mark, described, picked) {
      forall g
        ensures KeepsClaims(table, mark, described, picked, g)
      {
        NothingCutOffIsSafe(table, mark, described, picked, g);
      }
    } else {
      var end := Since(Advanced(mark, MaxTime(picked)));
      var r :| r in table && Claimed(r, end) &&
               !(var q := LastOf(picked, Vid(r));
                 if q.Some? then described && q.value.version == r.version
                 else exists c | c in table :: Claimed(c, Since(mark)) && Vid(c) == Vid(r) && c.version == r.version);
      var g := CutOffRun(table, mark, described, picked, r, held);
    }
  }

  /** A limit of one row: the second row's older change is behind the watermark and never loaded. */
  lemma LimitedRunLosesARow()
    ensures var table := [Row("a", 1, Some(2), true, false), Row("b", 1, Some(1), true, false)];
            var picked := Cut(Chosen(table, None, None), Some(1));
            && Advanced(Missing, MaxTime(picked)) == Stamp(2)
            && !NothingCutOff(table, Missing, true, picked)
  {
    var a, b := Row("a", 1, Some(2), true, false), Row("b", 1, Some(1), true, false);
    OtherVids();
    hide Vid;
    FirstOfTwo(a, b);
    OneRow(a);
    OnlyWriter(a, Vid(b));
    assert b in [a, b] && Claimed(b, Some(2));
  }

  lemma OtherVids()
    ensures Vid(Row("a", 1, Some(2), true, false)) != Vid(Row("b", 1, Some(1), true, false))
  {
    assert Strip("a") == "a" && Strip("b") == "b";
    assert Vid(Row("a", 1, Some(2), true, false))[7] == 'a' && Vid(Row("b", 1, Some(1), true, false))[7] == 'b';
  }

  lemma FirstOfTwo(a: Row, b: Row)
    requires a.active && b.active
    ensures Cut(Chosen([a, b], None, None), Some(1)) == [a]
  {
    assert [a, b][..1] == [a] && [a][..0] == [];
    assert Selected([a], None) == [a];
    assert Selected([a, b], None) == [a, b];
  }

  lemma OnlyWriter(a: Row, vid: string)
    requires Vid(a) != vid
    ensures LastOf([a], vid) == None
  {
    assert [a][..0] == [];
  }
}
