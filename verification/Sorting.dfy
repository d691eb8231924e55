/** The standard library's stable sort, as insertion from the right: the specification `sort_by_key` promises. */
module Sorting {
  /** Before the first element that may not come earlier, so that equal elements keep their order. */
  function Insert<T>(x: T, sorted: seq<T>, le: (T, T) -> bool): seq<T>
  {
    if sorted == [] || le(x, sorted[0]) then [x] + sorted else [sorted[0]] + Insert(x, sorted[1..], le)
  }

  function Sort<T>(items: seq<T>, le: (T, T) -> bool): seq<T>
  {
    if items == [] then [] else Insert(items[0], Sort(items[1..], le), le)
  }

  predicate Sorted<T>(items: seq<T>, le: (T, T) -> bool)
  {
    forall i, j :: 0 <= i < j < |items| ==> le(items[i], items[j])
  }

  ghost predicate TotalPreorder<T(!new)>(le: (T, T) -> bool)
  {
    && (forall x, y :: le(x, y) || le(y, x))
    && (forall x, y, z :: le(x, y) && le(y, z) ==> le(x, z))
  }

  lemma {:induction false} InsertKeeps<T>(x: T, sorted: seq<T>, le: (T, T) -> bool)
    ensures multiset(Insert(x, sorted, le)) == multiset{x} + multiset(sorted)
  {
    if sorted != [] && !le(x, sorted[0]) {
      InsertKeeps(x, sorted[1..], le);
      assert sorted == [sorted[0]] + sorted[1..];
    }
  }

  lemma {:induction false} SortKeeps<T>(items: seq<T>, le: (T, T) -> bool)
    ensures multiset(Sort(items, le)) == multiset(items)
  {
    if items != [] {
      SortKeeps(items[1..], le);
      InsertKeeps(items[0], Sort(items[1..], le), le);
      assert items == [items[0]] + items[1..];
    }
  }

  lemma Same<T>(a: seq<T>, b: seq<T>, x: T)
    requires multiset(a) == multiset(b)
    ensures x in a <==> x in b
  {
    assert x in a <==> x in multiset(a);
    assert x in b <==> x in multiset(b);
  }

  lemma {:induction false} InsertSorts<T(!new)>(x: T, sorted: seq<T>, le: (T, T) -> bool)
    requires TotalPreorder(le) && Sorted(sorted, le)
    ensures Sorted(Insert(x, sorted, le), le)
  {
    if sorted != [] && !le(x, sorted[0]) {
      var rest := sorted[1..];
      InsertSorts(x, rest, le);
      var tail := Insert(x, rest, le);
      forall j | 0 <= j < |tail| ensures le(sorted[0], tail[j]) {
        InsertKeeps(x, rest, le);
        assert tail[j] in multiset(tail);
        assert tail[j] == x || tail[j] in rest;
      }
    }
  }

  /** The result is in order. */
  lemma {:induction false} SortSorts<T(!new)>(items: seq<T>, le: (T, T) -> bool)
    requires TotalPreorder(le)
    ensures Sorted(Sort(items, le), le)
  {
    if items != [] {
      SortSorts(items[1..], le);
      InsertSorts(items[0], Sort(items[1..], le), le);
    }
  }

  /** Both orders at once: first `le`, and among equals the order `first` that the input was in. */
  function Refined<T>(le: (T, T) -> bool, first: (T, T) -> bool): (T, T) -> bool
  {
    (x, y) => le(x, y) && (le(y, x) ==> first(x, y))
  }

  lemma {:induction false} InsertStable<T(!new)>(x: T, sorted: seq<T>, le: (T, T) -> bool, first: (T, T) -> bool)
    requires TotalPreorder(le) && Sorted(sorted, Refined(le, first))
    requires forall y :: y in sorted ==> first(x, y)
    ensures Sorted(Insert(x, sorted, le), Refined(le, first))
  {
    if sorted == [] {
    } else if le(x, sorted[0]) {
      forall j | 0 <= j < |sorted| ensures Refined(le, first)(x, sorted[j]) {
        if j > 0 {
          assert Refined(le, first)(sorted[0], sorted[j]);
        }
        assert sorted[j] in sorted;
      }
    } else {
      var rest := sorted[1..];
      assert forall y :: y in rest ==> y in sorted;
      InsertStable(x, rest, le, first);
      var tail := Insert(x, rest, le);
      forall j | 0 <= j < |tail| ensures Refined(le, first)(sorted[0], tail[j]) {
        InsertKeeps(x, rest, le);
        assert tail[j] in multiset(tail);
        if tail[j] in rest {
          var k :| 0 <= k < |rest| && rest[k] == tail[j];
          assert sorted[k + 1] == tail[j];
        }
      }
    }
  }

  /** Stability: elements the order does not tell apart stay in the input's order. */
  lemma {:induction false} SortIsStable<T(!new)>(items: seq<T>, le: (T, T) -> bool, first: (T, T) -> bool)
    requires TotalPreorder(le) && Sorted(items, first)
    ensures Sorted(Sort(items, le), Refined(le, first))
  {
    if items != [] {
      var rest := items[1..];
      SortIsStable(rest, le, first);
      SortKeeps(rest, le);
      forall y | y in Sort(rest, le) ensures first(items[0], y) {
        Same(Sort(rest, le), rest, y);
        var k :| 0 <= k < |rest| && rest[k] == y;
        assert items[k + 1] == y;
      }
      InsertStable(items[0], Sort(rest, le), le, first);
    }
  }
}
