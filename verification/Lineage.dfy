/**
 Which lineage edges are kept (`retained_lineage`, crates/atlas-engine/src/lineage.rs): an edge stays while its
 start exists or another edge that stays ends there. The loop finds the largest such set; only above a fixed size
 are edges of older runs dropped.
 */
module Lineage {
  import opened Wrappers
  import opened Sorting

  datatype Edge = Edge(id: nat, from: nat, to: nat, run: Option<int>)

  const MAX_LINEAGE_EDGES := 10_000

  /** A BTreeMap's values: one edge for each id, in the order of the ids. */
  predicate ById(edges: seq<Edge>)
  {
    forall i, j :: 0 <= i < j < |edges| ==> edges[i].id < edges[j].id
  }

  /** Inserting into the map: an edge with the same id is replaced. */
  function Put(edges: seq<Edge>, e: Edge): seq<Edge>
  {
    if edges == [] || e.id < edges[0].id then [e] + edges
    else if edges[0].id == e.id then [e] + edges[1..]
    else [edges[0]] + Put(edges[1..], e)
  }

  lemma {:induction false} PutMember(edges: seq<Edge>, e: Edge, x: Edge)
    requires ById(edges)
    ensures x in Put(edges, e) <==> x == e || (x in edges && x.id != e.id)
  {
    if edges != [] {
      var rest := edges[1..];
      assert x in edges <==> x == edges[0] || x in rest;
      assert forall i :: 0 <= i < |rest| ==> rest[i] == edges[i + 1];
      assert x in rest ==> edges[0].id < x.id;
      if edges[0].id < e.id {
        PutMember(rest, e, x);
      }
    }
  }

  lemma {:induction false} PutOrdered(edges: seq<Edge>, e: Edge)
    requires ById(edges)
    ensures ById(Put(edges, e))
  {
    if edges != [] && edges[0].id < e.id {
      var rest := edges[1..];
      assert forall i :: 0 <= i < |rest| ==> rest[i] == edges[i + 1];
      PutOrdered(rest, e);
      forall j | 0 <= j < |Put(rest, e)| ensures edges[0].id < Put(rest, e)[j].id {
        PutMember(rest, e, Put(rest, e)[j]);
      }
    }
  }

  /** The edges of a list, the later of two with one id. */
  function Merged(edges: seq<Edge>): seq<Edge>
  {
    if edges == [] then [] else Put(Merged(edges[..|edges| - 1]), edges[|edges| - 1])
  }

  /** The last edge with its id in the list. */
  predicate IsLatest(edges: seq<Edge>, e: Edge)
  {
    exists i :: 0 <= i < |edges| && edges[i] == e && forall j :: i < j < |edges| ==> edges[j].id != e.id
  }

  lemma {:induction false} MergedKeepsLatest(edges: seq<Edge>, e: Edge)
    ensures ById(Merged(edges)) && (e in Merged(edges) <==> IsLatest(edges, e))
  {
    if edges != [] {
      var init, last := edges[..|edges| - 1], edges[|edges| - 1];
      MergedKeepsLatest(init, e);
      PutOrdered(Merged(init), last);
      PutMember(Merged(init), last, e);
      if e == last {
        assert edges[|edges| - 1] == e;
      }
      if IsLatest(init, e) && e.id != last.id {
        var i :| 0 <= i < |init| && init[i] == e && forall j :: i < j < |init| ==> init[j].id != e.id;
        assert edges[i] == e && forall j :: i < j < |edges| ==> edges[j].id != e.id;
      }
      if IsLatest(edges, e) && e != last {
        var i :| 0 <= i < |edges| && edges[i] == e && forall j :: i < j < |edges| ==> edges[j].id != e.id;
        assert edges[|edges| - 1].id != e.id;
        assert init[i] == e && forall j :: i < j < |init| ==> init[j].id != e.id;
      }
    }
  }

  // ----- retention

  /** The edge starts at something that exists, or where one of the edges ends. */
  predicate Grounded(edges: seq<Edge>, alive: nat -> bool, e: Edge)
  {
    alive(e.from) || exists i :: 0 <= i < |edges| && edges[i].to == e.from
  }

  /** Each edge of the set is grounded in it. */
  predicate SelfSupporting(edges: seq<Edge>, alive: nat -> bool)
  {
    forall e :: e in edges ==> Grounded(edges, alive, e)
  }

  predicate Within(some: seq<Edge>, all: seq<Edge>) { forall e :: e in some ==> e in all }

  lemma GroundedWider(some: seq<Edge>, all: seq<Edge>, alive: nat -> bool, e: Edge)
    requires Within(some, all) && Grounded(some, alive, e)
    ensures Grounded(all, alive, e)
  {
    if !alive(e.from) {
      var i :| 0 <= i < |some| && some[i].to == e.from;
      assert some[i] in all;
      var j :| 0 <= j < |all| && all[j] == some[i];
      assert all[j].to == e.from;
    }
  }

  /** `retain`: the edges grounded in the present ones, in their order. */
  method Retain(edges: seq<Edge>, alive: nat -> bool) returns (kept: seq<Edge>)
    requires ById(edges)
    ensures ById(kept) && |kept| <= |edges| && (|kept| == |edges| ==> kept == edges)
    ensures forall e :: e in kept <==> e in edges && Grounded(edges, alive, e)
  {
    kept := [];
    for i := 0 to |edges|
      invariant |kept| <= i && (|kept| == i ==> kept == edges[..i])
      invariant ById(kept) && forall e :: e in kept <==> e in edges[..i] && Grounded(edges, alive, e)
    {
      assert edges[..i + 1] == edges[..i] + [edges[i]];
      if alive(edges[i].from) || exists k :: 0 <= k < |edges| && edges[k].to == edges[i].from {
        forall k | 0 <= k < |kept| ensures kept[k].id < edges[i].id {
          assert kept[k] in edges[..i];
        }
        kept := kept + [edges[i]];
      }
    }
    assert edges[..|edges|] == edges;
  }

  /** A self-supporting set within the edges is within what one round keeps. */
  lemma RoundKeeps(set': seq<Edge>, edges: seq<Edge>, kept: seq<Edge>, alive: nat -> bool)
    requires SelfSupporting(set', alive) && Within(set', edges)
    requires forall e :: e in kept <==> e in edges && Grounded(edges, alive, e)
    ensures Within(set', kept)
  {
    forall e | e in set' ensures e in kept {
      GroundedWider(set', edges, alive, e);
    }
  }

  /** The loop: it ends, with the largest self-supporting set of the edges. */
  method Settle(edges: seq<Edge>, alive: nat -> bool) returns (settled: seq<Edge>)
    requires ById(edges)
    ensures ById(settled) && Within(settled, edges) && SelfSupporting(settled, alive)
    ensures forall set' :: Within(set', edges) && SelfSupporting(set', alive) ==> Within(set', settled)
  {
    settled := edges;
    while true
      invariant ById(settled) && Within(settled, edges)
      invariant forall set' :: Within(set', edges) && SelfSupporting(set', alive) ==> Within(set', settled)
      decreases |settled|
    {
      var kept := Retain(settled, alive);
      forall set' | Within(set', edges) && SelfSupporting(set', alive) ensures Within(set', kept) {
        RoundKeeps(set', settled, kept, alive);
      }
      if |kept| == |settled| {
        return;
      }
      settled := kept;
    }
  }

  // ----- the cap

  function Run(e: Edge): int { if e.run.Some? then e.run.value else 0 }

  function LatestFirst(): (Edge, Edge) -> bool { (a: Edge, b: Edge) => Run(a) >= Run(b) }

  function IdOrder(): (Edge, Edge) -> bool { (a: Edge, b: Edge) => a.id <= b.id }

  /** Latest runs first; within a run, smaller ids first. */
  predicate Preferred(a: Edge, b: Edge) { Run(a) > Run(b) || (Run(a) == Run(b) && a.id <= b.id) }

  lemma OrdersAreOrders()
    ensures TotalPreorder(LatestFirst()) && TotalPreorder(IdOrder())
  {
  }

  /** What the cap leaves: no edge dropped was preferable to one kept, and the ids are in order again. */
  ghost predicate Capped(edges: seq<Edge>, kept: seq<Edge>)
  {
    && |kept| == MAX_LINEAGE_EDGES && ById(kept) && Within(kept, edges)
    && forall dropped, e :: dropped in edges && dropped !in kept && e in kept ==> Preferred(e, dropped)
  }

  lemma DistinctIds(edges: seq<Edge>)
    requires ById(edges)
    ensures forall e :: e in multiset(edges) ==> multiset(edges)[e] == 1
    decreases |edges|
  {
    if edges != [] {
      var init, last := edges[..|edges| - 1], edges[|edges| - 1];
      DistinctIds(init);
      assert edges == init + [last];
      assert last !in init;
    }
  }

  /** Sorted by id and without repetition, ids are strictly in order. */
  lemma StrictlyOrdered(items: seq<Edge>, all: seq<Edge>)
    requires Sorted(items, IdOrder()) && ById(all)
    requires multiset(items) <= multiset(all)
    ensures ById(items)
  {
    DistinctIds(all);
    forall i, j | 0 <= i < j < |items| ensures items[i].id < items[j].id {
      assert IdOrder()(items[i], items[j]);
      if items[i].id == items[j].id {
        assert items[i] in multiset(items) && items[j] in multiset(items);
        SameId(all, items[i], items[j]);
        TwiceIn(items, i, j);
      }
    }
  }

  lemma SameId(all: seq<Edge>, a: Edge, b: Edge)
    requires ById(all) && a in multiset(all) && b in multiset(all) && a.id == b.id
    ensures a == b
  {
    assert a in all && b in all;
    var i :| 0 <= i < |all| && all[i] == a;
    var j :| 0 <= j < |all| && all[j] == b;
  }

  lemma TwiceIn<T>(items: seq<T>, i: nat, j: nat)
    requires i < j < |items| && items[i] == items[j]
    ensures multiset(items)[items[i]] >= 2
  {
    var a, b, c := items[..i], items[i + 1..j], items[j + 1..];
    assert items == a + [items[i]] + b + [items[j]] + c;
  }

  method Cap(edges: seq<Edge>) returns (kept: seq<Edge>)
    requires ById(edges) && |edges| > MAX_LINEAGE_EDGES
    ensures Capped(edges, kept)
  {
    var byRun := Sort(edges, LatestFirst());
    OrdersAreOrders();
    SortKeeps(edges, LatestFirst());
    SortIsStable(edges, LatestFirst(), IdOrder());
    SortedLength(byRun, edges);
    var first := byRun[..MAX_LINEAGE_EDGES];
    kept := Sort(first, IdOrder());
    SortKeeps(first, IdOrder());
    SortSorts(first, IdOrder());
    SortedLength(kept, first);
    CutIsCapped(edges, byRun, first, kept);
  }

  lemma SortedLength<T>(a: seq<T>, b: seq<T>)
    requires multiset(a) == multiset(b)
    ensures |a| == |b|
  {
    assert |a| == |multiset(a)| && |b| == |multiset(b)|;
  }

  lemma BeyondPrefix<T>(items: seq<T>, n: nat, x: T, j: nat)
    requires n <= |items| && j < |items| && items[j] == x && x !in items[..n]
    ensures j >= n
  {
  }

  lemma CutIsCapped(edges: seq<Edge>, byRun: seq<Edge>, first: seq<Edge>, kept: seq<Edge>)
    requires ById(edges) && multiset(byRun) == multiset(edges) && Sorted(byRun, Refined(LatestFirst(), IdOrder()))
    requires |byRun| > MAX_LINEAGE_EDGES && first == byRun[..MAX_LINEAGE_EDGES]
    requires |kept| == MAX_LINEAGE_EDGES && multiset(kept) == multiset(first) && Sorted(kept, IdOrder())
    ensures Capped(edges, kept)
  {
    assert byRun == first + byRun[MAX_LINEAGE_EDGES..];
    StrictlyOrdered(kept, edges);
    forall e | e in kept ensures e in edges {
      Same(kept, first, e);
      Same(byRun, edges, e);
    }
    forall dropped, e | dropped in edges && dropped !in kept && e in kept ensures Preferred(e, dropped) {
      Same(kept, first, e);
      Same(kept, first, dropped);
      Same(byRun, edges, dropped);
      var i :| 0 <= i < |first| && first[i] == e;
      var j :| 0 <= j < |byRun| && byRun[j] == dropped;
      BeyondPrefix(byRun, |first|, dropped, j);
      assert byRun[i] == e && Refined(LatestFirst(), IdOrder())(byRun[i], byRun[j]);
    }
  }

  /**
   `retained_lineage`. The edges of both lists are merged, the fresh one of two with one id winning; the largest
   self-supporting set of them is kept, unless it is above the cap.
   */
  method RetainedLineage(previous: seq<Edge>, fresh': seq<Edge>, alive: nat -> bool)
    returns (edges: seq<Edge>, ghost settled: seq<Edge>)
    ensures Within(settled, Merged(previous + fresh')) && SelfSupporting(settled, alive)
    ensures forall set' :: Within(set', Merged(previous + fresh')) && SelfSupporting(set', alive) ==>
              Within(set', settled)
    ensures ById(edges) && |edges| <= MAX_LINEAGE_EDGES
    ensures if |settled| <= MAX_LINEAGE_EDGES then edges == settled else Capped(settled, edges)
  {
    var all := previous + fresh';
    var merged: seq<Edge> := [];
    for i := 0 to |all|
      invariant merged == Merged(all[..i])
    {
      assert all[..i + 1][..i] == all[..i];
      merged := Put(merged, all[i]);
    }
    assert all[..|all|] == all;
    MergedOrdered(all);
    edges := Settle(merged, alive);
    settled := edges;
    if |edges| > MAX_LINEAGE_EDGES {
      edges := Cap(edges);
    }
  }

  lemma {:induction false} MergedOrdered(edges: seq<Edge>)
    ensures ById(Merged(edges))
  {
    if edges != [] {
      MergedOrdered(edges[..|edges| - 1]);
      PutOrdered(Merged(edges[..|edges| - 1]), edges[|edges| - 1]);
    }
  }
}
