/** Building the patent vector index in runs that may be interrupted, limited and resumed. */
module IndexBuild {
  import opened Options
  import opened Paging

  // ---------------------------------------------------------------------------
  // What a run is to insert
  // ---------------------------------------------------------------------------

  const BATCH := 32

  /** The graph's VIDs, in the service's stable order, that are not indexed yet. */
  function Missing(rows: seq<string>, existing: set<string>): seq<string> {
    if rows == [] then []
    else
      var before, vid := Missing(rows[..|rows| - 1], existing), rows[|rows| - 1];
      if vid in existing then before else before + [vid]
  }

  function Min(a: int, b: int): int { if a < b then a else b }

  /** How many rows a returning run inserts: the limit is only noticed between full batches. */
  function Quota(missing: nat, maxRows: Option<int>): (n: nat)
    ensures n <= missing
  {
    if maxRows.None? then missing
    else if maxRows.value <= 0 then 0
    else Min(missing, BATCH * ((maxRows.value + BATCH - 1) / BATCH))
  }

  /** Where a build stops: it inserts in batches of 32 and looks at its limit before each row only, so
      the limit is rounded up to the next multiple of 32, unless the missing VIDs end before that. */
  lemma QuotaIs(missing: nat, limit: int)
    ensures Quota(missing, None) == missing
    ensures limit <= 0 ==> Quota(missing, Some(limit)) == 0
    ensures limit > 0 ==> var n := Quota(missing, Some(limit));
                          n < limit + 32 && (n == missing || (n % 32 == 0 && limit <= n < missing))
  {
    if limit > 0 {
      var k := (limit + 31) / 32;
      assert 32 * k % 32 == 0;
    }
  }

  function Members(s: seq<string>): set<string> { set v | v in s }

  // ---------------------------------------------------------------------------
  // The run
  // ---------------------------------------------------------------------------

  datatype Mode = Fresh | Resume | Rebuild

  /** The file of corpus statistics; `Torn` is what a write that was cut short leaves. */
  datatype Statistics = Absent | Torn | Whole(text: string)

  /** What is stored: the collection, by the VIDs inserted into it, the statistics file, and the statistics
      with which some row of the collection has been encoded. */
  datatype Stored = Stored(collection: Option<seq<string>>, statistics: Statistics, encodings: set<string>)

  function Rows(collection: Option<seq<string>>): seq<string> {
    if collection.Some? then collection.value else []
  }

  class IndexStore {
    var collection: Option<seq<string>>
    var statistics: Statistics
    ghost var encodings: set<string>

    ghost predicate Valid()
      reads this
    {
      encodings == {} <==> Rows(collection) == []
    }

    ghost function Value(): Stored
      reads this
    {
      Stored(collection, statistics, encodings)
    }

    /** Embeds and inserts a batch of rows encoded with `current`. A call that fails may have inserted some
        of them: the first `done`. */
    method Insert(batch: seq<string>, ghost current: string) returns (ok: bool, ghost done: nat)
      requires collection.Some?
      modifies this`collection, this`encodings
      ensures done <= |batch| && (ok ==> done == |batch|)
      ensures collection == Some(old(collection).value + batch[..done])
      ensures encodings == old(encodings) + if done > 0 then {current} else {}
    {
      ok := *;
      var inserted :| 0 <= inserted <= |batch| && (ok ==> inserted == |batch|);
      done := inserted;
      collection := Some(collection.value + batch[..inserted]);
      encodings := encodings + if done > 0 then {current} else {};
    }

    /** Writes the statistics file: a write that fails leaves the old file, a torn one, or the new one. */
    method WriteStatistics(current: string) returns (ok: bool)
      modifies this`statistics
      ensures statistics == Whole(current) || (!ok && statistics in {Torn, old(statistics)})
    {
      var before := statistics;
      statistics := Whole(current);
      ok := *;
      if !ok {
        var torn: bool, lost: bool := *, *;
        statistics := if torn then Torn else if lost then before else statistics;
      }
    }

    /** Drops the collection; a call that fails may have dropped it. */
    method Drop() returns (ok: bool)
      modifies this`collection, this`encodings
      ensures (collection == None && encodings == {})
              || (!ok && collection == old(collection) && encodings == old(encodings))
    {
      var applied: bool := *;
      ok := *;
      if ok || applied {
        collection, encodings := None, {};
      }
    }
  }

  /** How far a run gets. It stops before it changes anything; or while it writes the statistics; or after
      that, before it has come to terms with the rows of an earlier run; or later. */
  datatype End = Refused | Writing | Saved | Reached

  /** What a run leaves of the statistics and of the encodings. */
  ghost predicate Saves(current: string, mode: Mode, end: End, before: Stored, after: Stored) {
    && (end != Refused ==> Admits(current, mode, before))
    && (end != Reached ==> after.collection == before.collection && after.encodings == before.encodings)
    && after.statistics == SavedFile(current, end, before.statistics)
    && (end.Reached? ==> after.encodings == KeptEncodings(mode, before) + if Adds(mode, before, after) then {current} else {})
  }

  function SavedFile(current: string, end: End, before: Statistics): Statistics {
    match end
    case Refused => before
    case Writing => Torn
    case _ => Whole(current)
  }

  /** A run gets as far as writing the statistics. */
  predicate Admits(current: string, mode: Mode, before: Stored) {
    && (mode.Resume? ==> before.statistics == Whole(current))
    && (mode.Fresh? ==> before.collection.None?)
  }

  function KeptEncodings(mode: Mode, before: Stored): set<string> {
    if mode.Resume? then before.encodings else {}
  }

  predicate Adds(mode: Mode, before: Stored, after: Stored) {
    |Rows(after.collection)| > |Start(mode, before.collection)|
  }

  /** The rows a run starts from. */
  function Start(mode: Mode, before: Option<seq<string>>): seq<string> {
    if mode.Resume? then Rows(before) else []
  }

  /** What a run can leave behind: the collection untouched, or dropped and not created again, or the start
      of the run followed by the first `n` missing VIDs; a returning run has inserted its quota. */
  ghost predicate Leaves(rows: seq<string>, mode: Mode, maxRows: Option<int>, ok: bool,
                         before: Option<seq<string>>, after: Option<seq<string>>) {
    var start := Start(mode, before);
    var missing := Missing(rows, Members(start));
    || (!ok && (after == before || (mode.Rebuild? && after.None?)))
    || exists n: nat :: InsertedFirst(start, missing, n, after)
                     && (ok ==> n == Quota(|missing|, maxRows) && (maxRows.None? ==> |after.value| == |rows|))
  }

  ghost predicate InsertedFirst(start: seq<string>, missing: seq<string>, n: nat, after: Option<seq<string>>) {
    n <= |missing| && after == Some(start + missing[..n])
  }

  /** `statistics` is the foreign corpus summary. `total` is what a returning run reports. */
  method BuildOne(rows: seq<string>, store: IndexStore, pageSize: nat, mode: Mode, maxRows: Option<int>,
                  statistics: seq<string> -> string)
    returns (ok: bool, total: nat, ghost end: End)
    requires store.Valid()
    modifies store
    ensures store.Valid() && Saves(statistics(rows), mode, end, old(store.Value()), store.Value())
    ensures ok ==> end.Reached?
    ensures pageSize == 0 || rows == [] || !Admits(statistics(rows), mode, old(store.Value())) ==> end.Refused?
    ensures Leaves(rows, mode, maxRows, ok, old(store.collection), store.collection)
    ensures ok ==> total == |Members(Start(mode, old(store.collection)))|
                          + Quota(|Missing(rows, Members(Start(mode, old(store.collection))))|, maxRows)
  {
    hide Missing, Quota, Saves, Leaves, Admits, KeptEncodings, Members;
    total := 0;
    ghost var before := store.Value();
    var current: string;
    ok, current, end := PrepareStatistics(rows, store, pageSize, mode, statistics);
    SameRowsLeft(rows, mode, maxRows, before.collection);
    if !ok {
      return;
    }
    ghost var saved := store.Value();
    ok, end := PrepareCollection(store, mode, current);
    ghost var start := Start(mode, before.collection);
    if !ok {
      PreparedCollection(rows, current, mode, maxRows, end, before, saved, store.Value());
      return;
    }
    NoMembers();
    var existing := if mode.Resume? then Members(store.collection.value) else {};
    var n: nat;
    ghost var inserted: nat;
    ok, n, inserted := InsertMissing(rows, store, existing, maxRows, start, current);
    if ok {
      total := |existing| + n;
      var counted: bool := *;
      ok := counted && (maxRows.None? ==> |store.collection.value| == |rows|);
    }
    Inserted(rows, current, mode, maxRows, ok, inserted, before, saved, store.Value());
  }

  lemma NoMembers()
    ensures Members([]) == {}
  {
  }

  lemma SameRowsLeft(rows: seq<string>, mode: Mode, maxRows: Option<int>, collection: Option<seq<string>>)
    ensures Leaves(rows, mode, maxRows, false, collection, collection)
  {
  }

  lemma PreparedCollection(rows: seq<string>, current: string, mode: Mode, maxRows: Option<int>, end: End,
                           before: Stored, saved: Stored, after: Stored)
    requires Saves(current, mode, Saved, before, saved) && after.statistics == saved.statistics
    requires end == Saved ==> after == saved
    requires end == Reached ==> after.encodings == KeptEncodings(mode, saved)
    requires end == Reached ==> after.collection in {None, Some(Start(mode, before.collection))}
    requires end == Reached ==> mode.Rebuild? || before.collection.None?
    requires end in {Saved, Reached}
    ensures Saves(current, mode, end, before, after)
    ensures Leaves(rows, mode, maxRows, false, before.collection, after.collection)
  {
    hide Missing, Quota;
    StartInserted(Start(mode, before.collection), Missing(rows, Members(Start(mode, before.collection))));
  }

  lemma Inserted(rows: seq<string>, current: string, mode: Mode, maxRows: Option<int>, ok: bool, n: nat,
                 before: Stored, saved: Stored, after: Stored)
    requires Saves(current, mode, Saved, before, saved) && after.statistics == saved.statistics
    requires InsertedFirst(Start(mode, before.collection), Missing(rows, Members(Start(mode, before.collection))), n, after.collection)
    requires after.encodings == KeptEncodings(mode, saved) + if n > 0 then {current} else {}
    requires ok ==> n == Quota(|Missing(rows, Members(Start(mode, before.collection)))|, maxRows)
    requires ok && maxRows.None? ==> after.collection.Some? && |after.collection.value| == |rows|
    ensures Saves(current, mode, Reached, before, after)
    ensures Leaves(rows, mode, maxRows, ok, before.collection, after.collection)
  {
    hide Missing, Quota;
  }

  lemma StartInserted(start: seq<string>, missing: seq<string>)
    ensures InsertedFirst(start, missing, 0, Some(start))
  {
    assert start + missing[..0] == start;
  }

  /** The first pass over the graph, up to and including the statistics file. */
  method PrepareStatistics(rows: seq<string>, store: IndexStore, pageSize: nat, mode: Mode, statistics: seq<string> -> string)
    returns (ok: bool, current: string, ghost end: End)
    requires store.Valid()
    modifies store`statistics
    ensures end in {Refused, Writing, Saved} && (ok ==> end == Saved)
    ensures current == statistics(rows)
    ensures ok ==> store.statistics == Whole(current) && Admits(current, mode, store.Value())
    ensures Saves(current, mode, end, old(store.Value()), store.Value())
    ensures pageSize == 0 || rows == [] || !Admits(current, mode, old(store.Value())) ==> end.Refused?
  {
    current, end := statistics(rows), Refused;
    if store.collection.Some? && mode.Fresh? {
      return false, current, Refused;
    }
    var corpus := ReadPages(rows, pageSize);
    var readable: bool := *;
    if !readable || corpus == [] {
      return false, current, Refused;
    }
    ok := PersistStatistics(store, statistics(corpus), mode);
    end := if store.statistics == old(store.statistics) && !ok then Refused
           else if store.statistics == Torn then Writing else Saved;
  }

  /** Loads the embedding model and finds, or drops and creates, the collection. */
  method PrepareCollection(store: IndexStore, mode: Mode, ghost current: string) returns (ok: bool, ghost end: End)
    requires store.Valid() && store.statistics == Whole(current) && Admits(current, mode, store.Value())
    modifies store`collection, store`encodings
    ensures store.Valid() && end in {Saved, Reached} && (ok ==> end == Reached)
    ensures end == Saved ==> store.Value() == old(store.Value())
    ensures end == Reached ==> store.encodings == KeptEncodings(mode, old(store.Value()))
    ensures ok ==> store.collection == Some(Start(mode, old(store.collection)))
    ensures end == Reached && !ok ==> store.collection in {None, Some(Start(mode, old(store.collection)))}
                                      && (mode.Rebuild? || old(store.collection).None?)
  {
    ok, end := *, Saved;
    if !ok {
      return;
    }
    if store.collection.Some? {
      if mode.Resume? {
        return true, Reached;
      }
      ok := store.Drop();
      if !ok {
        end := if store.collection.None? then Reached else Saved;
        return;
      }
    }
    end, ok := Reached, *;
    var applied: bool := *;
    if ok || applied {
      store.collection := Some([]);
    }
  }

  /** Inserts the missing VIDs in batches of 32; `n` counts the rows of the batches that were accepted and
      `inserted` those that got in. */
  method InsertMissing(rows: seq<string>, store: IndexStore, existing: set<string>, maxRows: Option<int>,
                       ghost start: seq<string>, ghost current: string)
    returns (ok: bool, n: nat, ghost inserted: nat)
    requires store.collection == Some(start)
    modifies store`collection, store`encodings
    ensures InsertedFirst(start, Missing(rows, existing), inserted, store.collection)
    ensures store.encodings == old(store.encodings) + if inserted > 0 then {current} else {}
    ensures ok ==> n == inserted == Quota(|Missing(rows, existing)|, maxRows)
  {
    hide Quota, Missing;
    ok, n, inserted := true, 0, 0;
    ghost var missing := Missing(rows, existing);
    var batch: seq<string> := [];
    var i := 0;
    NoneMissing(existing);
    assert start + missing[..n] == start && rows[..i] == [];
    while i < |rows|
      invariant i <= |rows| && ok && n == inserted
      invariant n + |batch| == |Missing(rows[..i], existing)| && Missing(rows[..i], existing) <= missing
      invariant batch == missing[n..n + |batch|] && store.collection == Some(start + missing[..n])
      invariant WithinQuota(n, |batch|, maxRows)
      invariant store.encodings == old(store.encodings) + if n > 0 then {current} else {}
    {
      NextMissing(rows, existing, i, missing);
      var readable: bool := *;
      if !readable {
        return false, n, n;
      }
      if rows[i] !in existing {
        if maxRows.Some? && n >= maxRows.value {
          break;
        }
        batch := batch + [rows[i]];
        if |batch| >= BATCH {
          ok, inserted := Flush(store, batch, start, missing, n, current);
          if !ok {
            return;
          }
          batch, n := [], n + |batch|;
        }
      }
      i := i + 1;
    }
    assert i == |rows| ==> rows[..i] == rows;
    QuotaReached(n, |batch|, |missing|, maxRows);
    ok, inserted := Flush(store, batch, start, missing, n, current);
    n := n + |batch|;
  }

  lemma NoneMissing(existing: set<string>)
    ensures Missing([], existing) == []
  {
  }

  lemma NextMissing(rows: seq<string>, existing: set<string>, i: nat, missing: seq<string>)
    requires i < |rows| && missing == Missing(rows, existing)
    ensures Missing(rows[..i + 1], existing)
            == Missing(rows[..i], existing) + if rows[i] in existing then [] else [rows[i]]
    ensures Missing(rows[..i + 1], existing) <= missing
  {
    MissingPrefix(rows, existing, i + 1);
    assert rows[..i + 1][..i] == rows[..i];
  }

  /** `n` rows are flushed in full batches, `pending` more wait, and the limit has not stopped them. */
  ghost predicate WithinQuota(n: nat, pending: nat, maxRows: Option<int>) {
    && n % BATCH == 0 && pending < BATCH
    && (maxRows.Some? ==> (n == 0 || n - BATCH < maxRows.value) && (pending > 0 ==> n < maxRows.value))
  }

  /** The loop ends with the quota flushed or pending: at the limit, or out of rows. */
  lemma QuotaReached(n: nat, pending: nat, missing: nat, maxRows: Option<int>)
    requires WithinQuota(n, pending, maxRows) && n + pending <= missing
    requires n + pending == missing || (maxRows.Some? && n >= maxRows.value)
    ensures n + pending == Quota(missing, maxRows)
  {
  }

  method Flush(store: IndexStore, batch: seq<string>, ghost start: seq<string>, ghost missing: seq<string>, n: nat, ghost current: string)
    returns (ok: bool, ghost inserted: nat)
    requires n + |batch| <= |missing| && batch == missing[n..n + |batch|]
    requires store.collection == Some(start + missing[..n])
    modifies store`collection, store`encodings
    ensures n <= inserted <= n + |batch| && (ok ==> inserted == n + |batch|)
    ensures store.collection == Some(start + missing[..inserted])
    ensures store.encodings == old(store.encodings) + if inserted > n then {current} else {}
  {
    if batch == [] {
      return true, n;
    }
    ghost var done: nat;
    ok, done := store.Insert(batch, current);
    inserted := n + done;
    assert missing[..n] + batch[..done] == missing[..n + done];
    assert start + missing[..n] + batch[..done] == start + (missing[..n] + batch[..done]);
  }

  lemma {:induction false} MissingPrefix(rows: seq<string>, existing: set<string>, i: nat)
    requires i <= |rows|
    ensures Missing(rows[..i], existing) <= Missing(rows, existing)
  {
    if i < |rows| {
      assert rows[..|rows| - 1][..i] == rows[..i];
      MissingPrefix(rows[..|rows| - 1], existing, i);
    } else {
      assert rows[..i] == rows;
    }
  }

  method PersistStatistics(store: IndexStore, current: string, mode: Mode) returns (ok: bool)
    modifies store`statistics
    ensures mode.Resume? && old(store.statistics) != Whole(current) ==> !ok && store.statistics == old(store.statistics)
    ensures store.statistics == Whole(current) || (!ok && store.statistics in {Torn, old(store.statistics)})
  {
    if mode.Resume? {
      if store.statistics != Whole(current) {
        return false;
      }
    }
    ok := store.WriteStatistics(current);
  }

  // ---------------------------------------------------------------------------
  // Histories of runs, each over the graph of its time
  // ---------------------------------------------------------------------------

  datatype Run = Run(rows: seq<string>, mode: Mode, maxRows: Option<int>, ok: bool, end: End)

  ghost predicate RunLeads(summary: seq<string> -> string, run: Run, before: Stored, after: Stored) {
    && Saves(summary(run.rows), run.mode, run.end, before, after) && (run.ok ==> run.end.Reached?)
    && Leaves(run.rows, run.mode, run.maxRows, run.ok, before.collection, after.collection)
  }

  ghost predicate History(summary: seq<string> -> string, runs: seq<Run>, states: seq<Stored>) {
    && |states| == |runs| + 1 && states[0].collection.None? && states[0].encodings == {}
    && forall i | 0 <= i < |runs| :: RunLeads(summary, runs[i], states[i], states[i + 1])
  }

  // ---------------------------------------------------------------------------
  // Statistics and encodings
  // ---------------------------------------------------------------------------

  /** Every row of the collection has been encoded with the saved statistics. */
  ghost predicate Consistent(s: Stored) {
    forall e | e in s.encodings :: s.statistics == Whole(e)
  }

  /** A run spoils a consistent store: there are rows, and it ends before it has dropped them, with the
      statistics file torn or replaced by that of another corpus. */
  predicate Spoils(summary: seq<string> -> string, run: Run, before: Stored) {
    && before.encodings != {}
    && (run.end.Writing? || (run.end.Saved? && before.statistics != Whole(summary(run.rows))))
  }

  lemma ConsistentIff(summary: seq<string> -> string, run: Run, before: Stored, after: Stored)
    requires RunLeads(summary, run, before, after) && Consistent(before)
    ensures Consistent(after) <==> !Spoils(summary, run, before)
  {
    hide Leaves;
    if e :| e in before.encodings {
      assert before.statistics == Whole(e);
    }
  }

  /** A run that gets past the old rows leaves a consistent store iff it drops them or they were consistent. */
  lemma ReachedConsistentIff(summary: seq<string> -> string, run: Run, before: Stored, after: Stored)
    requires RunLeads(summary, run, before, after) && run.end.Reached?
    ensures Consistent(after) <==> !run.mode.Resume? || Consistent(before)
  {
    hide Leaves;
    if run.mode.Resume? {
      assert forall e | e in before.encodings :: e in after.encodings;
    }
  }

  /** From a consistent store on, all stores of a history are consistent iff no run spoils one. The first
      store of a history is consistent, and so is each after a rebuild that got past the old rows. */
  lemma {:induction false} HistoryConsistentIff(summary: seq<string> -> string, runs: seq<Run>, states: seq<Stored>, first: nat, last: nat)
    requires History(summary, runs, states) && first <= last < |states|
    requires first == 0 || (runs[first - 1].mode.Rebuild? && runs[first - 1].end.Reached?)
    ensures (forall i | first <= i <= last :: Consistent(states[i]))
            <==> forall i | first <= i < last :: !Spoils(summary, runs[i], states[i])
    decreases last
  {
    hide RunLeads, Consistent, Spoils;
    if first == last {
      FirstIsConsistent(summary, runs, states, first);
    } else {
      HistoryConsistentIff(summary, runs, states, first, last - 1);
      if Consistent(states[last - 1]) {
        ConsistentIff(summary, runs[last - 1], states[last - 1], states[last]);
      }
    }
  }

  lemma FirstIsConsistent(summary: seq<string> -> string, runs: seq<Run>, states: seq<Stored>, first: nat)
    requires History(summary, runs, states) && first < |states|
    requires first == 0 || (runs[first - 1].mode.Rebuild? && runs[first - 1].end.Reached?)
    ensures Consistent(states[first])
  {
    hide RunLeads;
    if first > 0 {
      assert RunLeads(summary, runs[first - 1], states[first - 1], states[first]);
      ReachedConsistentIff(summary, runs[first - 1], states[first - 1], states[first]);
    }
  }

  /** A rebuild over another corpus that stops between the statistics and the old rows, because the model
      does not load or the collection is not dropped; a resume that is accepted and inserts nothing new: the
      rows keep the encoding of the first corpus. */
  lemma FailedRebuildMixesEncodings(summary: seq<string> -> string, first: seq<string>, second: seq<string>, v: string)
    requires summary(first) != summary(second) && v in first && v in second
    ensures var built := Stored(Some([v]), Whole(summary(first)), {summary(first)});
            var failed := built.(statistics := Whole(summary(second)));
            && RunLeads(summary, Run(second, Rebuild, None, false, Saved), built, failed) && Consistent(built)
            && RunLeads(summary, Run(second, Resume, Some(0), true, Reached), failed, failed) && !Consistent(failed)
  {
    var failed := Stored(Some([v]), Whole(summary(second)), {summary(first)});
    assert summary(first) in failed.encodings;
    StartInserted([v], Missing(second, Members([v])));
  }

  /** A resume over the same corpus whose write of the statistics is cut short: every later resume is
      refused, and the rows stay without their statistics until a rebuild. */
  lemma TornStatisticsLast(summary: seq<string> -> string, rows: seq<string>, v: string, later: Run, after: Stored)
    ensures var built := Stored(Some([v]), Whole(summary(rows)), {summary(rows)});
            var torn := built.(statistics := Torn);
            && RunLeads(summary, Run(rows, Resume, None, false, Writing), built, torn) && Consistent(built)
            && (RunLeads(summary, later, torn, after) && !later.mode.Rebuild? ==> after == torn && !Consistent(after))
  {
    hide Missing, Quota;
    var torn := Stored(Some([v]), Torn, {summary(rows)});
    assert summary(rows) in torn.encodings;
  }

  // ---------------------------------------------------------------------------
  // What is indexed
  // ---------------------------------------------------------------------------

  ghost predicate NoRepeats(s: seq<string>) {
    forall i, j | 0 <= i < j < |s| :: s[i] != s[j]
  }

  lemma {:induction false} MissingMembers(rows: seq<string>, existing: set<string>)
    requires NoRepeats(rows)
    ensures NoRepeats(Missing(rows, existing))
    ensures forall v :: v in Missing(rows, existing) <==> v in rows && v !in existing
  {
    if rows != [] {
      var before, last := rows[..|rows| - 1], rows[|rows| - 1];
      MissingMembers(before, existing);
      assert rows == before + [last];
      assert last !in before;
    }
  }

  /** However a run ends, no VID is indexed twice and every new one is a VID of its graph. */
  lemma RunKeepsSound(rows: seq<string>, mode: Mode, maxRows: Option<int>, ok: bool,
                      before: Option<seq<string>>, after: Option<seq<string>>)
    requires NoRepeats(rows) && NoRepeats(Rows(before)) && Leaves(rows, mode, maxRows, ok, before, after)
    ensures NoRepeats(Rows(after))
    ensures forall v | v in Rows(after) :: v in Rows(before) || v in rows
  {
    hide Missing;
    var start := Start(mode, before);
    MissingMembers(rows, Members(start));
    if after.Some? && after != before {
      var n: nat :| InsertedFirst(start, Missing(rows, Members(start)), n, after);
      var added := Missing(rows, Members(start))[..n];
      assert forall v | v in added :: v in Missing(rows, Members(start));
      AppendNew(start, added);
    }
  }

  lemma AppendNew(a: seq<string>, b: seq<string>)
    requires NoRepeats(a) && NoRepeats(b) && forall v | v in b :: v !in a
    ensures NoRepeats(a + b)
  {
    forall i, j | 0 <= i < j < |a + b|
      ensures (a + b)[i] != (a + b)[j]
    {
      if i < |a| <= j {
        assert (a + b)[j] == b[j - |a|] && b[j - |a|] in b && a[i] in a;
      }
    }
  }

  ghost predicate DistinctGraphs(runs: seq<Run>) {
    forall i | 0 <= i < |runs| :: NoRepeats(runs[i].rows)
  }

  /** Over any sequence of interrupted, limited, resumed and rebuilt runs, even if the graph changes between
      them, no VID is ever indexed twice, and every indexed VID was in the graph of some run. */
  lemma {:induction false} NeverTwice(summary: seq<string> -> string, runs: seq<Run>, states: seq<Stored>, i: nat)
    requires DistinctGraphs(runs) && History(summary, runs, states) && i < |states|
    ensures NoRepeats(Rows(states[i].collection))
    ensures forall v | v in Rows(states[i].collection) :: exists j :: 0 <= j < i && v in runs[j].rows
  {
    hide Saves, Leaves;
    if i == 0 {
      assert Rows(states[0].collection) == [];
    } else {
      NeverTwice(summary, runs, states, i - 1);
      var run := runs[i - 1];
      assert RunLeads(summary, run, states[i - 1], states[i]);
      RunKeepsSound(run.rows, run.mode, run.maxRows, run.ok, states[i - 1].collection, states[i].collection);
      forall v | v in Rows(states[i].collection)
        ensures exists j :: 0 <= j < i && v in runs[j].rows
      {
        if v in run.rows {
          assert v in runs[i - 1].rows;
        } else {
          var j :| 0 <= j < i - 1 && v in runs[j].rows;
        }
      }
    }
  }

  /** A returning run without limit leaves exactly the VIDs of its graph, each once: the final count rules
      out that VIDs of an earlier graph are left over. */
  lemma UnlimitedRunCompletes(summary: seq<string> -> string, runs: seq<Run>, states: seq<Stored>, i: nat)
    requires DistinctGraphs(runs) && History(summary, runs, states) && i < |runs|
    requires runs[i].ok && runs[i].maxRows.None?
    ensures states[i + 1].collection.Some? && NoRepeats(Rows(states[i + 1].collection))
    ensures Members(Rows(states[i + 1].collection)) == Members(runs[i].rows)
  {
    hide Missing, Saves, NoRepeats, Members;
    NeverTwice(summary, runs, states, i + 1);
    assert RunLeads(summary, runs[i], states[i], states[i + 1]);
    AllIndexed(runs[i].rows, runs[i].mode, states[i].collection, states[i + 1].collection);
    SameMembers(runs[i].rows, Rows(states[i + 1].collection));
  }

  lemma AllIndexed(rows: seq<string>, mode: Mode, before: Option<seq<string>>, after: Option<seq<string>>)
    requires NoRepeats(rows) && Leaves(rows, mode, None, true, before, after)
    ensures after.Some? && |after.value| == |rows|
    ensures forall v | v in rows :: v in after.value
  {
    hide Missing, NoRepeats;
    var start := Start(mode, before);
    var missing := Missing(rows, Members(start));
    MissingMembers(rows, Members(start));
    var n: nat :| InsertedFirst(start, missing, n, after) && n == Quota(|missing|, None);
    assert missing[..n] == missing;
    forall v | v in rows
      ensures v in after.value
    {
      assert v in start || v in missing;
    }
  }

  lemma {:induction false} MembersSize(s: seq<string>)
    requires NoRepeats(s)
    ensures |Members(s)| == |s|
  {
    if s != [] {
      var before, last := s[..|s| - 1], s[|s| - 1];
      MembersSize(before);
      assert s == before + [last];
      assert last !in before;
      assert Members(s) == Members(before) + {last};
    }
  }

  lemma SubsetOfSize(a: set<string>, b: set<string>)
    requires a <= b && |a| == |b|
    ensures a == b
  {
    assert b == a + (b - a);
  }

  lemma SameMembers(a: seq<string>, b: seq<string>)
    requires NoRepeats(a) && NoRepeats(b) && |a| == |b| && forall v | v in a :: v in b
    ensures Members(a) == Members(b)
  {
    hide NoRepeats;
    MembersSize(a);
    MembersSize(b);
    SubsetOfSize(Members(a), Members(b));
  }

  /** And nothing can go wrong with the final count: it holds for every sound start. */
  lemma {:induction false} CountsMatch(rows: seq<string>, start: seq<string>)
    requires NoRepeats(rows) && NoRepeats(start) && forall v | v in start :: v in rows
    ensures |start| + |Missing(rows, Members(start))| == |rows|
    decreases |rows|
  {
    assert start != [] ==> start[0] in start;
    if rows != [] {
      var before, last := rows[..|rows| - 1], rows[|rows| - 1];
      assert rows == before + [last];
      if k :| 0 <= k < |start| && start[k] == last {
        var rest := start[..k] + start[k + 1..];
        WithoutOne(start, k);
        assert forall v | v in rest :: v in Members(rest) && v in Members(start);
        CountsMatch(before, rest);
        assert Members(start) == Members(rest) + {last};
        MissingIgnores(before, Members(rest), last);
      } else {
        CountsMatch(before, start);
      }
    }
  }

  lemma WithoutOne(s: seq<string>, k: nat)
    requires NoRepeats(s) && k < |s|
    ensures var rest := s[..k] + s[k + 1..];
            NoRepeats(rest) && Members(s) == Members(rest) + {s[k]} && s[k] !in rest
  {
    var rest := s[..k] + s[k + 1..];
    assert s == s[..k] + [s[k]] + s[k + 1..];
    forall i | 0 <= i < |rest|
      ensures rest[i] == s[if i < k then i else i + 1]
    {
    }
  }

  lemma {:induction false} MissingIgnores(rows: seq<string>, existing: set<string>, v: string)
    requires v !in rows
    ensures Missing(rows, existing + {v}) == Missing(rows, existing)
  {
    if rows != [] {
      assert rows == rows[..|rows| - 1] + [rows[|rows| - 1]];
      MissingIgnores(rows[..|rows| - 1], existing, v);
    }
  }
}
