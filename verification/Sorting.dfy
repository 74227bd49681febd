/** Stable sorting by a total order, as the tools' `sorted` does it. */
module Sorting {

  ghost predicate IsOrder<T(!new)>(leq: (T, T) -> bool) {
    && (forall a, b :: leq(a, b) || leq(b, a))
    && (forall a, b, c :: leq(a, b) && leq(b, c) ==> leq(a, c))
  }

  ghost predicate IsSorted<T>(items: seq<T>, leq: (T, T) -> bool) {
    forall i, j | 0 <= i < j < |items| :: leq(items[i], items[j])
  }

  function Insert<T>(x: T, items: seq<T>, leq: (T, T) -> bool): seq<T> {
    if items == [] then [x]
    else if leq(x, items[0]) then [x] + items
    else [items[0]] + Insert(x, items[1..], leq)
  }

  function Sort<T>(items: seq<T>, leq: (T, T) -> bool): seq<T> {
    if items == [] then [] else Insert(items[0], Sort(items[1..], leq), leq)
  }

  lemma {:induction false} InsertPermutes<T>(x: T, items: seq<T>, leq: (T, T) -> bool)
    ensures multiset(Insert(x, items, leq)) == multiset{x} + multiset(items)
  {
    if items == [] {
    } else {
      assert items == [items[0]] + items[1..];
      if !leq(x, items[0]) {
        InsertPermutes(x, items[1..], leq);
      }
    }
  }

  /** Sorting keeps every item as often as it occurs. */
  lemma {:induction false} SortPermutes<T>(items: seq<T>, leq: (T, T) -> bool)
    ensures multiset(Sort(items, leq)) == multiset(items)
  {
    if items == [] {
    } else {
      assert items == [items[0]] + items[1..];
      SortPermutes(items[1..], leq);
      InsertPermutes(items[0], Sort(items[1..], leq), leq);
    }
  }

  lemma SameItems<T>(items: seq<T>, leq: (T, T) -> bool, x: T)
    ensures |Sort(items, leq)| == |items|
    ensures x in Sort(items, leq) <==> x in items
  {
    SortPermutes(items, leq);
    assert |multiset(Sort(items, leq))| == |multiset(items)|;
    assert x in multiset(Sort(items, leq)) <==> x in multiset(items);
  }

  lemma {:induction false} InsertSorts<T(!new)>(x: T, items: seq<T>, leq: (T, T) -> bool)
    requires IsOrder(leq) && IsSorted(items, leq)
    ensures IsSorted(Insert(x, items, leq), leq)
  {
    if items != [] && !leq(x, items[0]) {
      var rest := Insert(x, items[1..], leq);
      InsertSorts(x, items[1..], leq);
      InsertPermutes(x, items[1..], leq);
      forall k | 0 <= k < |rest| ensures leq(items[0], rest[k]) {
        assert rest[k] in multiset(rest);
        if rest[k] != x {
          assert rest[k] in items[1..];
        }
      }
    }
  }

  lemma {:induction false} SortSorts<T(!new)>(items: seq<T>, leq: (T, T) -> bool)
    requires IsOrder(leq)
    ensures IsSorted(Sort(items, leq), leq)
  {
    if items == [] {
    } else {
      SortSorts(items[1..], leq);
      InsertSorts(items[0], Sort(items[1..], leq), leq);
    }
  }
}
