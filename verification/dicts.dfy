/** Python dictionaries built by assignment, as the list of their values in key order. */
module Dicts {

  function Position<T>(items: seq<T>, key: T -> string, k: string): (i: nat)
    ensures i <= |items|
    ensures i < |items| ==> key(items[i]) == k
    ensures forall j | 0 <= j < i :: key(items[j]) != k
  {
    if items == [] || key(items[0]) == k then 0 else 1 + Position(items[1..], key, k)
  }

  /** Assigning to a dictionary: a new value at the key's place, or a new key at the end. */
  function Put<T>(values: seq<T>, key: T -> string, x: T): seq<T> {
    var i := Position(values, key, key(x));
    if i < |values| then values[i := x] else values + [x]
  }

  /** The values of a dictionary to which the items have been assigned in order. */
  function Dict<T>(items: seq<T>, key: T -> string): seq<T> {
    if items == [] then [] else Put(Dict(items[..|items| - 1], key), key, items[|items| - 1])
  }

  ghost predicate DistinctKeys<T>(items: seq<T>, key: T -> string) {
    forall i, j | 0 <= i < j < |items| :: key(items[i]) != key(items[j])
  }

  ghost predicate HasKey<T>(items: seq<T>, key: T -> string, k: string) {
    exists x :: x in items && key(x) == k
  }

  ghost function KeySetOf<T>(items: seq<T>, key: T -> string): set<string> { set x | x in items :: key(x) }

  /** Item `i` is the last one with its key. */
  ghost predicate LastOfKey<T>(items: seq<T>, key: T -> string, i: int) {
    0 <= i < |items| && forall j | i < j < |items| :: key(items[j]) != key(items[i])
  }

  ghost predicate IsLast<T>(items: seq<T>, key: T -> string, x: T) {
    exists i :: LastOfKey(items, key, i) && items[i] == x
  }

  lemma LastNext<T>(before: seq<T>, key: T -> string, last: T, x: T)
    ensures IsLast(before + [last], key, x) <==> x == last || (IsLast(before, key, x) && key(x) != key(last))
  {
    var items := before + [last];
    assert items[|before|] == last && LastOfKey(items, key, |before|);
    if i :| LastOfKey(before, key, i) && before[i] == x && key(x) != key(last) {
      assert forall j | i < j < |before| :: items[j] == before[j];
      assert LastOfKey(items, key, i) && items[i] == x;
    }
    if i :| LastOfKey(items, key, i) && items[i] == x && i < |before| {
      assert forall j | i < j < |before| :: items[j] == before[j];
      assert key(items[|before|]) != key(items[i]);
      assert LastOfKey(before, key, i) && before[i] == x;
    }
  }

  lemma PutIff<T>(values: seq<T>, key: T -> string, last: T, x: T)
    requires DistinctKeys(values, key)
    ensures x in Put(values, key, last) <==> x == last || (x in values && key(x) != key(last))
    ensures DistinctKeys(Put(values, key, last), key)
  {
    var i, now := Position(values, key, key(last)), Put(values, key, last);
    assert now[i] == last;
    if x in values && key(x) != key(last) {
      var j :| 0 <= j < |values| && values[j] == x;
      assert now[j] == x;
    }
    if x in now && x != last {
      var j :| 0 <= j < |now| && now[j] == x;
      assert j != i && values[j] == x;
    }
  }

  /** The values are the last items of their keys, each key once. */
  lemma {:induction false} DictIff<T>(items: seq<T>, key: T -> string, x: T)
    ensures x in Dict(items, key) <==> IsLast(items, key, x)
    ensures DistinctKeys(Dict(items, key), key)
  {
    hide IsLast, Put, DistinctKeys;
    if items == [] {
      NoneLast(key, x);
    } else {
      var before, last := items[..|items| - 1], items[|items| - 1];
      assert items == before + [last];
      DictIff(before, key, x);
      PutIff(Dict(before, key), key, last, x);
      LastNext(before, key, last, x);
    }
  }

  lemma NoneLast<T>(key: T -> string, x: T)
    ensures !IsLast([], key, x) && DistinctKeys([], key)
  {
  }

  /** More items reorder no key. */
  lemma DictGrows<T>(items: seq<T>, key: T -> string, more: T)
    ensures var a, b := Dict(items, key), Dict(items + [more], key);
            && |a| <= |b| <= |a| + 1 && (forall i | 0 <= i < |a| :: key(b[i]) == key(a[i]))
            && (|b| > |a| <==> !HasKey(items, key, key(more)))
  {
    hide Dict;
    assert (items + [more])[..|items|] == items;
    DictNext(items, key, more);
    KeyKept(items, key, key(more));
    var a := Dict(items, key);
    var i := Position(a, key, key(more));
    if i < |a| {
      assert a[i] in a;
    }
  }

  lemma DictNext<T>(items: seq<T>, key: T -> string, more: T)
    ensures Dict(items + [more], key) == Put(Dict(items, key), key, more)
  {
    assert (items + [more])[..|items|] == items;
  }

  /** A last item for every key. */
  lemma LastExists<T>(items: seq<T>, key: T -> string, x: T) returns (i: nat)
    requires x in items
    ensures i < |items| && LastOfKey(items, key, i) && key(items[i]) == key(x)
  {
    i :| 0 <= i < |items| && items[i] == x;
    while exists j :: i < j < |items| && key(items[j]) == key(x)
      invariant i < |items| && key(items[i]) == key(x)
      decreases |items| - i
    {
      var j :| i < j < |items| && key(items[j]) == key(x);
      i := j;
    }
  }

  lemma KeyKept<T>(items: seq<T>, key: T -> string, k: string)
    ensures HasKey(Dict(items, key), key, k) <==> HasKey(items, key, k)
  {
    hide Dict;
    if x :| x in items && key(x) == k {
      var i := LastExists(items, key, x);
      DictIff(items, key, items[i]);
    }
    if x :| x in Dict(items, key) && key(x) == k {
      DictIff(items, key, x);
    }
  }

  /** Every value was assigned, and every key is kept. */
  lemma DictMembers<T>(items: seq<T>, key: T -> string)
    ensures forall x | x in Dict(items, key) :: x in items
    ensures forall k :: HasKey(items, key, k) <==> HasKey(Dict(items, key), key, k)
    ensures DistinctKeys(Dict(items, key), key)
  {
    hide Dict, HasKey, DistinctKeys;
    forall x | x in Dict(items, key)
      ensures x in items
    {
      DictIff(items, key, x);
    }
    forall k
      ensures HasKey(items, key, k) <==> HasKey(Dict(items, key), key, k)
    {
      KeyKept(items, key, k);
    }
    DictsDiffer(items, key);
  }

  lemma {:induction false} DictsDiffer<T>(items: seq<T>, key: T -> string)
    ensures DistinctKeys(Dict(items, key), key)
  {
    if items != [] {
      DictsDiffer(items[..|items| - 1], key);
    }
  }

  /** There are as many values as keys. */
  lemma {:induction false} DictSize<T>(items: seq<T>, key: T -> string)
    ensures |Dict(items, key)| == |KeySetOf(items, key)| <= |items|
  {
    hide HasKey;
    if items != [] {
      var before, last := items[..|items| - 1], items[|items| - 1];
      assert items == before + [last];
      DictSize(before, key);
      DictGrows(before, key, last);
      KeysNext(before, key, last);
    }
  }

  lemma KeysNext<T>(before: seq<T>, key: T -> string, last: T)
    ensures |KeySetOf(before + [last], key)| == |KeySetOf(before, key)| + if HasKey(before, key, key(last)) then 0 else 1
  {
    assert KeySetOf(before + [last], key) == KeySetOf(before, key) + {key(last)};
    if HasKey(before, key, key(last)) {
      assert KeySetOf(before, key) + {key(last)} == KeySetOf(before, key);
    }
  }

  lemma {:induction false} DictOfDistinct<T>(items: seq<T>, key: T -> string)
    requires DistinctKeys(items, key)
    ensures Dict(items, key) == items
  {
    if items != [] {
      var before, last := items[..|items| - 1], items[|items| - 1];
      assert items == before + [last];
      DictOfDistinct(before, key);
    }
  }
}
