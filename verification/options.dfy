/** Optional results, and mapping over sequences. */
module Options {

  datatype Option<+T> = None | Some(value: T)
  {
    predicate IsFailure() { None? }

    function PropagateFailure<U>(): Option<U>
      requires None?
    {
      None
    }

    function Extract(): T
      requires Some?
    {
      value
    }
  }

  /** The results of `f` over the items, in order. */
  function FlatMap<A, B>(items: seq<A>, f: A -> seq<B>): seq<B> {
    if items == [] then [] else FlatMap(items[..|items| - 1], f) + f(items[|items| - 1])
  }

  lemma {:induction false} FlatMapSource<A, B>(items: seq<A>, f: A -> seq<B>, y: B) returns (x: A)
    requires y in FlatMap(items, f)
    ensures x in items && y in f(x)
  {
    x := items[|items| - 1];
    if y !in f(x) {
      x := FlatMapSource(items[..|items| - 1], f, y);
    }
  }

  lemma {:induction false} FlatMapHas<A, B>(items: seq<A>, f: A -> seq<B>, x: A, y: B)
    requires x in items && y in f(x)
    ensures y in FlatMap(items, f)
  {
    if x != items[|items| - 1] {
      assert items == items[..|items| - 1] + [items[|items| - 1]];
      FlatMapHas(items[..|items| - 1], f, x, y);
    }
  }

  /** In the items' order. */
  lemma {:induction false} FlatMapConcat<A, B>(a: seq<A>, b: seq<A>, f: A -> seq<B>)
    ensures FlatMap(a + b, f) == FlatMap(a, f) + FlatMap(b, f) && (|b| == 1 ==> FlatMap(b, f) == f(b[0]))
  {
    if b == [] {
      assert a + b == a;
    } else {
      var before, last := b[..|b| - 1], b[|b| - 1];
      assert (a + b)[..|a + b| - 1] == a + before && (a + b)[|a + b| - 1] == last;
      FlatMapConcat(a, before, f);
    }
  }

  lemma FlatMapIff<A, B>(items: seq<A>, f: A -> seq<B>, b: B)
    ensures b in FlatMap(items, f) <==> exists a :: a in items && b in f(a)
  {
    hide FlatMap;
    if b in FlatMap(items, f) {
      var a := FlatMapSource(items, f, b);
    }
    if a :| a in items && b in f(a) {
      FlatMapHas(items, f, a, b);
    }
  }
}
