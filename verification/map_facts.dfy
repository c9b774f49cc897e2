/** Laws of map union, which is how an upsert acts on a property graph. */
module MapFacts {

  lemma UnionAssociative<K, V>(a: map<K, V>, b: map<K, V>, c: map<K, V>)
    ensures (a + b) + c == a + (b + c)
  {
  }

  lemma UnionEmpty<K, V>(a: map<K, V>)
    ensures a + map[] == a && map[] + a == a
  {
  }

  /** A later write hides an earlier one that touched only its keys. */
  lemma UnionAbsorbs<K, V>(a: map<K, V>, part: map<K, V>, b: map<K, V>)
    requires part.Keys <= b.Keys
    ensures (a + part) + b == a + b
  {
  }

  lemma UnionPut<K, V>(a: map<K, V>, b: map<K, V>, k: K, v: V)
    ensures (a + b)[k := v] == a + b[k := v]
  {
  }

  lemma UnionSingleton<K, V>(a: map<K, V>, k: K, v: V)
    ensures a[k := v] == a + map[k := v]
  {
  }

  lemma PutNew<K, V>(m: map<K, V>, k: K, v: V)
    requires k !in m
    ensures |m[k := v]| == |m| + 1
  {
  }

  lemma UnionDisjoint<K, V>(a: map<K, V>, b: map<K, V>)
    requires a.Keys !! b.Keys
    ensures a + b == b + a
  {
  }

  /** Cells of the rows in order, a later row overwriting an earlier one. */
  function LastWins<R, K, V>(rows: seq<R>, cells: R -> map<K, V>): map<K, V> {
    if rows == [] then map[]
    else LastWins(rows[..|rows| - 1], cells) + cells(rows[|rows| - 1])
  }

  /** Cells of the rows in order, an earlier row shadowing a later one. */
  function FirstWins<R, K, V>(rows: seq<R>, cells: R -> map<K, V>): map<K, V> {
    if rows == [] then map[]
    else cells(rows[|rows| - 1]) + FirstWins(rows[..|rows| - 1], cells)
  }

  lemma LastRow<R>(a: seq<R>, before: seq<R>, last: R)
    ensures var rows := a + (before + [last]); rows[..|rows| - 1] == a + before && rows[|rows| - 1] == last
  {
  }

  lemma {:induction false} LastWinsConcat<R, K, V>(a: seq<R>, b: seq<R>, cells: R -> map<K, V>)
    ensures LastWins(a + b, cells) == LastWins(a, cells) + LastWins(b, cells)
  {
    if b == [] {
      assert a + b == a;
    } else {
      var before, last := b[..|b| - 1], b[|b| - 1];
      LastWinsConcat(a, before, cells);
      LastRow(a, before, last);
      assert b == before + [last];
      UnionAssociative(LastWins(a, cells), LastWins(before, cells), cells(last));
    }
  }

  lemma {:induction false} FirstWinsConcat<R, K, V>(a: seq<R>, b: seq<R>, cells: R -> map<K, V>)
    ensures FirstWins(a + b, cells) == FirstWins(b, cells) + FirstWins(a, cells)
  {
    if b == [] {
      assert a + b == a;
    } else {
      var before, last := b[..|b| - 1], b[|b| - 1];
      FirstWinsConcat(a, before, cells);
      LastRow(a, before, last);
      assert b == before + [last];
      UnionAssociative(cells(last), FirstWins(before, cells), FirstWins(a, cells));
    }
  }

  lemma {:induction false} LastWinsHas<R, K, V>(rows: seq<R>, cells: R -> map<K, V>, i: nat, k: K)
    requires i < |rows| && k in cells(rows[i])
    ensures k in LastWins(rows, cells)
  {
    if i < |rows| - 1 {
      LastWinsHas(rows[..|rows| - 1], cells, i, k);
    }
  }

  lemma {:induction false} LastWinsFrom<R, K, V>(rows: seq<R>, cells: R -> map<K, V>, k: K) returns (i: nat)
    requires k in LastWins(rows, cells)
    ensures i < |rows| && k in cells(rows[i]) && LastWins(rows, cells)[k] == cells(rows[i])[k]
  {
    i := |rows| - 1;
    if k !in cells(rows[i]) {
      i := LastWinsFrom(rows[..i], cells, k);
    }
  }

  lemma {:induction false} FirstWinsHas<R, K, V>(rows: seq<R>, cells: R -> map<K, V>, i: nat, k: K)
    requires i < |rows| && k in cells(rows[i])
    ensures k in FirstWins(rows, cells)
  {
    if i < |rows| - 1 {
      FirstWinsHas(rows[..|rows| - 1], cells, i, k);
    }
  }

  lemma {:induction false} FirstWinsFrom<R, K, V>(rows: seq<R>, cells: R -> map<K, V>, k: K) returns (i: nat)
    requires k in FirstWins(rows, cells)
    ensures i < |rows| && k in cells(rows[i]) && FirstWins(rows, cells)[k] == cells(rows[i])[k]
  {
    i := |rows| - 1;
    if k in FirstWins(rows[..i], cells) {
      i := FirstWinsFrom(rows[..i], cells, k);
    }
  }
}
