/** Relation records on their way to the graph, and their deduplication. */
module EdgeRecords {
  import opened Options

  /** A property value; floats are counted in millionths, the precision they are printed with. */
  datatype Value = Bool(b: bool) | Int(n: int) | Float(micro: int) | Str(s: string)

  type Properties = seq<(string, Value)>

  datatype EdgeKey = EdgeKey(edgeType: string, source: string, target: string, rank: int)

  datatype EdgeRecord = EdgeRecord(edgeType: string, source: string, target: string, rank: int, properties: Properties)
  {
    /** The edge a written record occupies. */
    function Cell(): EdgeKey { EdgeKey(edgeType, source, target, rank) }

    function LogicalRank(): int { if edgeType == "CITES" || edgeType == "OUTPUT_OF" then 0 else rank }

    function Key(): EdgeKey { EdgeKey(edgeType, source, target, LogicalRank()) }

    function Normal(): EdgeRecord { this.(rank := LogicalRank()) }

    function Confidence(): int { ConfidenceOf(properties) }
  }

  /** The last value named `confidence`, in millionths; 0 when there is none. */
  function ConfidenceOf(properties: Properties): int {
    if properties == [] then 0
    else
      var (name, value) := properties[|properties| - 1];
      if name != "confidence" then ConfidenceOf(properties[..|properties| - 1])
      else match value
        case Float(micro) => micro
        case Int(n) => 1_000_000 * n
        case Bool(b) => if b then 1_000_000 else 0
        case Str(_) => 0
  }

  // ---------------------------------------------------------------------------
  // What deduplication keeps
  // ---------------------------------------------------------------------------

  /** Item `i` is the last property named confidence. */
  ghost predicate LastConfidence(properties: Properties, i: int) {
    && 0 <= i < |properties| && properties[i].0 == "confidence"
    && forall j | i < j < |properties| :: properties[j].0 != "confidence"
  }

  /** A record's confidence in millionths: that of its last property of this name, whatever number it is, and
      zero if it has none or a text. */
  lemma {:induction false} ConfidenceIs(properties: Properties, i: int)
    ensures (forall j | 0 <= j < |properties| :: properties[j].0 != "confidence") ==> ConfidenceOf(properties) == 0
    ensures LastConfidence(properties, i) ==>
              && (forall micro :: properties[i].1 == Float(micro) ==> ConfidenceOf(properties) == micro)
              && (forall n :: properties[i].1 == Int(n) ==> ConfidenceOf(properties) == n * 1_000_000)
              && (properties[i].1 == Bool(true) ==> ConfidenceOf(properties) == 1_000_000)
              && (properties[i].1 == Bool(false) || properties[i].1.Str? ==> ConfidenceOf(properties) == 0)
  {
    if properties != [] {
      ConfidenceIs(properties[..|properties| - 1], i);
    }
  }

  /** Logical keys in the order they first occur. */
  function Keys(rows: seq<EdgeRecord>): seq<EdgeKey> {
    if rows == [] then []
    else
      var before, key := Keys(rows[..|rows| - 1]), rows[|rows| - 1].Key();
      if key in before then before else before + [key]
  }

  /** The record kept for a key: a later one replaces it only with a greater confidence. */
  function Best(rows: seq<EdgeRecord>, k: EdgeKey): Option<EdgeRecord> {
    if rows == [] then None
    else
      var row := rows[|rows| - 1];
      Better(Best(rows[..|rows| - 1], k), if row.Key() == k then Some(row.Normal()) else None)
  }

  function Better(a: Option<EdgeRecord>, b: Option<EdgeRecord>): Option<EdgeRecord> {
    if a.None? then b
    else if b.None? then a
    else if b.value.Confidence() > a.value.Confidence() then b else a
  }

  function Dedup(rows: seq<EdgeRecord>): seq<EdgeRecord> {
    KeysHaveBest(rows);
    seq(|Keys(rows)|, i requires 0 <= i < |Keys(rows)| => Best(rows, Keys(rows)[i]).value)
  }

  lemma {:induction false} KeysHaveBest(rows: seq<EdgeRecord>)
    ensures forall k :: k in Keys(rows) <==> Best(rows, k).Some?
    ensures forall k | k in Keys(rows) :: Best(rows, k).value.Key() == k && Best(rows, k).value.Cell() == k
  {
    if rows != [] {
      KeysHaveBest(rows[..|rows| - 1]);
    }
  }

  /** Every key of the input is kept, once. */
  lemma {:induction false} KeysAreTheKeys(rows: seq<EdgeRecord>)
    ensures forall i | 0 <= i < |rows| :: rows[i].Key() in Keys(rows)
    ensures forall k | k in Keys(rows) :: exists i :: 0 <= i < |rows| && rows[i].Key() == k
    ensures forall i, j | 0 <= i < j < |Keys(rows)| :: Keys(rows)[i] != Keys(rows)[j]
    ensures |Keys(rows)| <= |rows|
  {
    if rows != [] {
      KeysAreTheKeys(rows[..|rows| - 1]);
    }
  }

  /** First-occurrence order: more input never reorders the keys already seen. */
  lemma {:induction false} KeysGrow(rows: seq<EdgeRecord>, n: nat)
    requires n <= |rows|
    ensures Keys(rows[..n]) <= Keys(rows)
  {
    if n < |rows| {
      var last := |rows| - 1;
      assert rows[..last][..n] == rows[..n];
      KeysGrow(rows[..last], n);
    } else {
      assert rows[..n] == rows;
    }
  }

  /** The kept record is the earliest one of maximum confidence, with its logical rank. */
  lemma {:induction false} BestIsEarliestMaximum(rows: seq<EdgeRecord>, k: EdgeKey) returns (i: nat)
    requires k in Keys(rows)
    ensures i < |rows| && rows[i].Key() == k && Best(rows, k) == Some(rows[i].Normal())
    ensures forall j | 0 <= j < |rows| && rows[j].Key() == k :: rows[j].Confidence() <= rows[i].Confidence()
    ensures forall j | 0 <= j < i && rows[j].Key() == k :: rows[j].Confidence() < rows[i].Confidence()
  {
    var last := |rows| - 1;
    var before := rows[..last];
    if k !in Keys(before) {
      KeysHaveBest(before);
      KeysAreTheKeys(before);
      i := last;
    } else {
      i := BestIsEarliestMaximum(before, k);
      if rows[last].Key() == k && rows[last].Confidence() > rows[i].Confidence() {
        i := last;
      }
    }
  }

  // ---------------------------------------------------------------------------
  // The keys of a list of records
  // ---------------------------------------------------------------------------

  /** Logical keys that occur. */
  ghost function KeySet(edges: seq<EdgeRecord>): set<EdgeKey> {
    set e | e in edges :: e.Key()
  }

  lemma KeySetConcat(a: seq<EdgeRecord>, b: seq<EdgeRecord>)
    ensures KeySet(a + b) == KeySet(a) + KeySet(b)
  {
  }

  lemma KeySetOfNone()
    ensures KeySet([]) == {}
  {
  }

  lemma KeySetOfOne(e: EdgeRecord)
    ensures KeySet([e]) == {e.Key()}
  {
    assert e in [e];
  }

  /** The kept records occupy exactly the logical keys of the input, each once. */
  lemma KeptCells(rows: seq<EdgeRecord>, k: EdgeKey)
    ensures var kept := Dedup(rows);
            && ((exists i :: 0 <= i < |kept| && kept[i].Cell() == k) <==> k in KeySet(rows))
            && forall i, j | 0 <= i < |kept| && 0 <= j < |kept| && kept[i].Cell() == k == kept[j].Cell() :: i == j
  {
    hide Best, Keys;
    var kept := Dedup(rows);
    KeysHaveBest(rows);
    KeysAreTheKeys(rows);
    assert forall i | 0 <= i < |kept| :: kept[i].Cell() == Keys(rows)[i];
    if k in KeySet(rows) {
      var e :| e in rows && e.Key() == k;
      assert k in Keys(rows);
      var i :| 0 <= i < |Keys(rows)| && Keys(rows)[i] == k;
      assert kept[i].Cell() == k;
    }
    if i :| 0 <= i < |kept| && kept[i].Cell() == k {
      assert Keys(rows)[i] in Keys(rows);
      var j :| 0 <= j < |rows| && rows[j].Key() == k;
      assert rows[j] in rows;
    }
  }

  // ---------------------------------------------------------------------------
  // Deduplication absorbs itself
  // ---------------------------------------------------------------------------

  lemma {:induction false} BestConcat(a: seq<EdgeRecord>, b: seq<EdgeRecord>, k: EdgeKey)
    ensures Best(a + b, k) == Better(Best(a, k), Best(b, k))
  {
    if b == [] {
      assert a + b == a;
    } else {
      BestConcat(a, b[..|b| - 1], k);
      assert (a + b)[..|a + b| - 1] == a + b[..|b| - 1];
    }
  }

  /** Keys of `more` that are not yet in `seen`. */
  function Fresh(seen: seq<EdgeKey>, more: seq<EdgeKey>): seq<EdgeKey> {
    if more == [] then []
    else
      var before, key := Fresh(seen, more[..|more| - 1]), more[|more| - 1];
      if key in seen then before else before + [key]
  }

  lemma {:induction false} FreshMembers(seen: seq<EdgeKey>, more: seq<EdgeKey>)
    ensures forall k :: k in Fresh(seen, more) <==> k in more && k !in seen
  {
    if more != [] {
      FreshMembers(seen, more[..|more| - 1]);
      assert more == more[..|more| - 1] + [more[|more| - 1]];
    }
  }

  lemma {:induction false} KeysConcat(a: seq<EdgeRecord>, b: seq<EdgeRecord>)
    ensures Keys(a + b) == Keys(a) + Fresh(Keys(a), Keys(b))
  {
    if b == [] {
      assert a + b == a;
    } else {
      var last := |b| - 1;
      KeysConcat(a, b[..last]);
      assert (a + b)[..|a + b| - 1] == a + b[..last] && (a + b)[|a + b| - 1] == b[last];
      FreshMembers(Keys(a), Keys(b[..last]));
      var key := b[last].Key();
      if key !in Keys(b[..last]) {
        assert Keys(b)[..|Keys(b)| - 1] == Keys(b[..last]);
      }
    }
  }

  /** Records that all have different logical keys are their own deduplication, up to rank. */
  lemma {:induction false} DistinctKeys(rows: seq<EdgeRecord>)
    requires forall i, j | 0 <= i < j < |rows| :: rows[i].Key() != rows[j].Key()
    ensures Keys(rows) == seq(|rows|, i requires 0 <= i < |rows| => rows[i].Key())
  {
    hide EdgeRecord.Key;
    if rows != [] {
      DistinctKeys(rows[..|rows| - 1]);
    }
  }

  lemma {:induction false} DistinctBest(rows: seq<EdgeRecord>, i: nat)
    requires i < |rows| && forall i, j | 0 <= i < j < |rows| :: rows[i].Key() != rows[j].Key()
    ensures Best(rows, rows[i].Key()) == Some(rows[i].Normal())
  {
    hide EdgeRecord.Key, EdgeRecord.Normal, EdgeRecord.Confidence;
    var before, last := rows[..|rows| - 1], rows[|rows| - 1];
    if i < |before| {
      DistinctBest(before, i);
    } else {
      NoneBest(before, last.Key());
    }
  }

  lemma {:induction false} NoneBest(rows: seq<EdgeRecord>, k: EdgeKey)
    requires forall i | 0 <= i < |rows| :: rows[i].Key() != k
    ensures Best(rows, k) == None
  {
    hide EdgeRecord.Key, EdgeRecord.Normal, EdgeRecord.Confidence;
    if rows != [] {
      NoneBest(rows[..|rows| - 1], k);
    }
  }

  lemma DedupKeepsKeys(rows: seq<EdgeRecord>)
    ensures Keys(Dedup(rows)) == Keys(rows)
    ensures forall k :: Best(Dedup(rows), k) == Best(rows, k)
  {
    var kept := Dedup(rows);
    KeysHaveBest(rows);
    KeysAreTheKeys(rows);
    assert forall i | 0 <= i < |kept| :: kept[i].Key() == Keys(rows)[i] && kept[i].Cell() == Keys(rows)[i];
    DistinctKeys(kept);
    KeysHaveBest(kept);
    forall k
      ensures Best(kept, k) == Best(rows, k)
    {
      if k in Keys(rows) {
        var i :| 0 <= i < |kept| && Keys(rows)[i] == k;
        DistinctBest(kept, i);
        assert kept[i].Normal() == kept[i];
      }
    }
  }

  /** The two inputs cannot be told apart by deduplication. */
  ghost predicate Same(a: seq<EdgeRecord>, b: seq<EdgeRecord>) {
    Keys(a) == Keys(b) && forall k :: Best(a, k) == Best(b, k)
  }

  lemma SameDedup(a: seq<EdgeRecord>, b: seq<EdgeRecord>)
    requires Same(a, b)
    ensures Dedup(a) == Dedup(b)
  {
  }

  lemma SameConcat(a: seq<EdgeRecord>, a': seq<EdgeRecord>, b: seq<EdgeRecord>, b': seq<EdgeRecord>)
    requires Same(a, a') && Same(b, b')
    ensures Same(a + b, a' + b')
  {
    hide Keys, Best, Better, Fresh;
    KeysConcat(a, b);
    KeysConcat(a', b');
    forall k
      ensures Best(a + b, k) == Best(a' + b', k)
    {
      BestConcat(a, b, k);
      BestConcat(a', b', k);
    }
  }

  /** Deduplicating either half first changes nothing. */
  lemma DedupAbsorbs(a: seq<EdgeRecord>, b: seq<EdgeRecord>)
    ensures Dedup(Dedup(a) + b) == Dedup(a + b)
    ensures Dedup(a + Dedup(b)) == Dedup(a + b)
  {
    hide Keys, Best, Dedup;
    DedupKeepsKeys(a);
    DedupKeepsKeys(b);
    SameConcat(Dedup(a), a, b, b);
    SameConcat(a, a, Dedup(b), b);
    SameDedup(Dedup(a) + b, a + b);
    SameDedup(a + Dedup(b), a + b);
  }

  lemma DedupIdempotent(rows: seq<EdgeRecord>)
    ensures Dedup(Dedup(rows)) == Dedup(rows)
  {
    DedupKeepsKeys(rows);
    SameDedup(Dedup(rows), rows);
  }

  lemma NextRecord(rows: seq<EdgeRecord>, i: nat)
    requires i < |rows|
    ensures var key := rows[i].Key();
            && Keys(rows[..i + 1]) == Keys(rows[..i]) + (if key in Keys(rows[..i]) then [] else [key])
            && (forall k | k != key :: Best(rows[..i + 1], k) == Best(rows[..i], k))
            && Best(rows[..i + 1], key) == Better(Best(rows[..i], key), Some(rows[i].Normal()))
  {
    assert rows[..i + 1][..i] == rows[..i];
  }

  lemma NoRecords()
    ensures Keys([]) == [] && forall k :: Best([], k) == None
  {
  }

  /** Keeps one record per logical key; `removed` counts the others. */
  method DeduplicateEdges(rows: seq<EdgeRecord>) returns (kept: seq<EdgeRecord>, removed: nat)
    ensures kept == Dedup(rows)
    ensures |kept| + removed == |rows|
  {
    hide Keys, Best;
    var selected: map<EdgeKey, EdgeRecord>, order: seq<EdgeKey> := map[], [];
    NoRecords();
    assert rows[..0] == [];
    for i := 0 to |rows|
      invariant order == Keys(rows[..i]) && selected.Keys == set k | k in order
      invariant forall k | k in order :: Best(rows[..i], k) == Some(selected[k])
    {
      NextRecord(rows, i);
      KeysHaveBest(rows[..i]);
      var row := rows[i];
      var key := row.Key();
      if key !in selected {
        selected, order := selected[key := row.Normal()], order + [key];
      } else if row.Confidence() > selected[key].Confidence() {
        selected := selected[key := row.Normal()];
      }
    }
    assert rows[..|rows|] == rows;
    KeysAreTheKeys(rows);
    kept := seq(|order|, i requires 0 <= i < |order| => selected[order[i]]);
    removed := |rows| - |order|;
  }
}
