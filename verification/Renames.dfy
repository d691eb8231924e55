/**
 Which scored candidates become renames (crates/atlas-engine/src/lineage.rs): a pair is taken when its score beats
 every other score of its old side and every other score of its new side. The scored list itself comes from body
 hashes and a similarity index, which are not part of this model; scores are exact numbers.
 */
module Renames {
  import opened Wrappers
  import opened Sorting

  datatype Scored = Scored(old': nat, new': nat, score: real, rule: string)

  datatype Side = Side(id: nat, key: string)

  datatype RenamePair = RenamePair(new': nat, old': nat, oldKey: string, confidence: real, rule: string)

  /** Entry `i` strictly beats every other entry. */
  predicate Beats(scores: seq<real>, i: nat)
  {
    i < |scores| && forall k :: 0 <= k < |scores| && k != i ==> scores[k] < scores[i]
  }

  /** `unique_best`: the greatest score, if only one entry has it. */
  method UniqueBest(scores: seq<real>) returns (r: Option<nat>)
    ensures r.Some? ==> Beats(scores, r.value)
    ensures r.None? ==> forall i :: 0 <= i < |scores| ==> !Beats(scores, i)
  {
    if scores == [] {
      return None;
    }
    var best := scores[0];
    ghost var at := 0;
    for i := 1 to |scores|
      invariant 0 <= at < i && scores[at] == best
      invariant forall k :: 0 <= k < i ==> scores[k] <= best
    {
      if scores[i] > best {
        best := scores[i];
        at := i;
      }
    }
    var first: Option<nat> := None;
    for i := 0 to |scores|
      invariant first.None? ==> forall k :: 0 <= k < i ==> scores[k] != best
      invariant first.Some? ==> first.value < i && scores[first.value] == best
      invariant first.Some? ==> forall k :: 0 <= k < i && k != first.value ==> scores[k] != best
    {
      if scores[i] == best {
        if first.Some? {
          assert forall k :: 0 <= k < |scores| ==> !Beats(scores, k) by {
            assert scores[i] == scores[first.value] == best;
            assert scores[at] == best;
          }
          return None;
        }
        first := Some(i);
      }
    }
    r := first;
  }

  /** The entries of one side, by their places in the scored list. */
  function Places(scored: seq<Scored>, wanted: Scored -> bool): seq<nat>
  {
    if scored == [] then []
    else Places(scored[..|scored| - 1], wanted) + if wanted(scored[|scored| - 1]) then [|scored| - 1] else []
  }

  lemma {:induction false} PlacesAre(scored: seq<Scored>, wanted: Scored -> bool)
    ensures forall k :: k in Places(scored, wanted) <==> 0 <= k < |scored| && wanted(scored[k])
    ensures forall a, b :: 0 <= a < b < |Places(scored, wanted)| ==>
              Places(scored, wanted)[a] < Places(scored, wanted)[b]
  {
    if scored != [] {
      var init := scored[..|scored| - 1];
      PlacesAre(init, wanted);
      var earlier := Places(init, wanted);
      forall a | 0 <= a < |earlier| ensures earlier[a] < |scored| - 1 {
        assert earlier[a] in earlier;
      }
    }
  }

  predicate ForOld(scored: seq<Scored>, k: int, i: nat) { 0 <= k < |scored| && scored[k].old' == i }

  predicate ForNew(scored: seq<Scored>, k: int, j: nat) { 0 <= k < |scored| && scored[k].new' == j }

  /** Among the entries of its old side, entry `k` strictly beats every other. */
  ghost predicate BestForOld(scored: seq<Scored>, k: int)
  {
    0 <= k < |scored| && forall e :: ForOld(scored, e, scored[k].old') && e != k ==> scored[e].score < scored[k].score
  }

  ghost predicate BestForNew(scored: seq<Scored>, k: int)
  {
    0 <= k < |scored| && forall e :: ForNew(scored, e, scored[k].new') && e != k ==> scored[e].score < scored[k].score
  }

  ghost predicate MutualBest(scored: seq<Scored>, k: int) { BestForOld(scored, k) && BestForNew(scored, k) }

  /** No two mutual bests share a side: the chosen pairs are a matching. */
  lemma MutualBestsAreAMatching(scored: seq<Scored>, k: nat, e: nat)
    requires MutualBest(scored, k) && MutualBest(scored, e) && k != e
    ensures scored[k].old' != scored[e].old' && scored[k].new' != scored[e].new'
  {
    if scored[k].old' == scored[e].old' {
      assert ForOld(scored, e, scored[k].old') && ForOld(scored, k, scored[e].old');
      assert false;
    }
    if scored[k].new' == scored[e].new' {
      assert ForNew(scored, e, scored[k].new') && ForNew(scored, k, scored[e].new');
      assert false;
    }
  }

  /** The unique best of a filtered list, as a place in the scored list. */
  method BestPlace(scored: seq<Scored>, ghost wanted: Scored -> bool, places: seq<nat>) returns (r: Option<nat>)
    requires places == Places(scored, wanted)
    ensures r.Some? ==> r.value < |scored| && wanted(scored[r.value])
    ensures r.Some? ==> forall e :: 0 <= e < |scored| && wanted(scored[e]) && e != r.value ==>
              scored[e].score < scored[r.value].score
    ensures r.None? ==> forall k :: 0 <= k < |scored| && wanted(scored[k]) ==>
              exists e :: 0 <= e < |scored| && wanted(scored[e]) && e != k && scored[e].score >= scored[k].score
  {
    PlacesAre(scored, wanted);
    var scores := seq(|places|, i requires 0 <= i < |places| => (assert places[i] in places; scored[places[i]].score));
    var best := UniqueBest(scores);
    if best.None? {
      forall k | 0 <= k < |scored| && wanted(scored[k])
        ensures exists e :: 0 <= e < |scored| && wanted(scored[e]) && e != k && scored[e].score >= scored[k].score
      {
        assert k in places;
        var i :| 0 <= i < |places| && places[i] == k;
        assert !Beats(scores, i);
        var other :| 0 <= other < |scores| && other != i && scores[other] >= scores[i];
        assert places[other] in places && places[other] != k;
      }
      return None;
    }
    assert places[best.value] in places;
    forall e | 0 <= e < |scored| && wanted(scored[e]) && e != places[best.value]
      ensures scored[e].score < scored[places[best.value]].score
    {
      assert e in places;
      var i :| 0 <= i < |places| && places[i] == e;
      assert scores[i] < scores[best.value];
    }
    r := Some(places[best.value]);
  }

  /** The turn of the loop for one old side: the entry to take, if any. */
  method Choose(scored: seq<Scored>, oldIndex: nat) returns (r: Option<nat>)
    ensures r.Some? ==> MutualBest(scored, r.value) && scored[r.value].old' == oldIndex
    ensures r.None? ==> forall k :: 0 <= k < |scored| && MutualBest(scored, k) ==> scored[k].old' != oldIndex
  {
    var forOld := (s: Scored) => s.old' == oldIndex;
    var choice := BestPlace(scored, forOld, Places(scored, forOld));
    if choice.None? {
      return None;
    }
    var chosen := choice.value;
    assert BestForOld(scored, chosen);
    var newIndex := scored[chosen].new';
    var forNew := (s: Scored) => s.new' == newIndex;
    var reverse := BestPlace(scored, forNew, Places(scored, forNew));
    OnlyChosen(scored, chosen);
    if reverse.None? || scored[reverse.value].old' != oldIndex {
      NotBoth(scored, chosen, reverse);
      return None;
    }
    SameEntry(scored, chosen, reverse.value);
    r := Some(chosen);
  }

  lemma OnlyChosen(scored: seq<Scored>, chosen: nat)
    requires BestForOld(scored, chosen)
    ensures forall k :: MutualBest(scored, k) && scored[k].old' == scored[chosen].old' ==> k == chosen
  {
    forall k | MutualBest(scored, k) && scored[k].old' == scored[chosen].old' ensures k == chosen {
      if k != chosen {
        assert ForOld(scored, k, scored[chosen].old') && ForOld(scored, chosen, scored[k].old');
        assert false;
      }
    }
  }

  lemma NotBoth(scored: seq<Scored>, chosen: nat, reverse: Option<nat>)
    requires chosen < |scored|
    requires reverse.None? ==>
               exists e :: ForNew(scored, e, scored[chosen].new') && e != chosen
                 && scored[e].score >= scored[chosen].score
    requires reverse.Some? ==>
               && ForNew(scored, reverse.value, scored[chosen].new') && BestForNew(scored, reverse.value)
               && scored[reverse.value].old' != scored[chosen].old'
    ensures !MutualBest(scored, chosen)
  {
    if reverse.Some? && BestForNew(scored, chosen) {
      assert ForNew(scored, chosen, scored[reverse.value].new');
    }
  }

  /** Two entries of one pair are one entry, when each is best on a side. */
  lemma SameEntry(scored: seq<Scored>, chosen: nat, reverse: nat)
    requires BestForOld(scored, chosen) && BestForNew(scored, reverse)
    requires scored[reverse].new' == scored[chosen].new' && scored[reverse].old' == scored[chosen].old'
    ensures MutualBest(scored, chosen)
  {
    if chosen != reverse {
      assert ForOld(scored, reverse, scored[chosen].old') && ForNew(scored, chosen, scored[reverse].new');
      assert false;
    }
  }

  function PairOf(scored: seq<Scored>, disappeared: seq<Side>, appeared: seq<Side>, k: nat): RenamePair
    requires k < |scored| && scored[k].old' < |disappeared| && scored[k].new' < |appeared|
  {
    RenamePair(appeared[scored[k].new'].id, disappeared[scored[k].old'].id, disappeared[scored[k].old'].key,
               scored[k].score, scored[k].rule)
  }

  function ByNewThenOld(): (RenamePair, RenamePair) -> bool
  {
    (a: RenamePair, b: RenamePair) => a.new' < b.new' || (a.new' == b.new' && a.old' <= b.old')
  }

  /** Each old side's mutual best, in the order of the old sides. */
  ghost predicate Chosen(scored: seq<Scored>, places: seq<nat>, upTo: nat)
  {
    && (forall i :: 0 <= i < |places| ==> MutualBest(scored, places[i]) && scored[places[i]].old' < upTo)
    && (forall i, j :: 0 <= i < j < |places| ==> scored[places[i]].old' < scored[places[j]].old')
    && (forall k :: 0 <= k < |scored| && MutualBest(scored, k) && scored[k].old' < upTo ==> k in places)
  }

  /** `unique_best_pairs`: exactly the mutual bests, each once, in the order of their ids. */
  method UniqueBestPairs(scored: seq<Scored>, disappeared: seq<Side>, appeared: seq<Side>)
    returns (pairs: seq<RenamePair>, ghost places: seq<nat>)
    requires forall k :: 0 <= k < |scored| ==> scored[k].old' < |disappeared| && scored[k].new' < |appeared|
    ensures Chosen(scored, places, |disappeared|)
    ensures multiset(pairs) == multiset(seq(|places|,
                                            i requires 0 <= i < |places| => PairOf(scored, disappeared, appeared,
                                                  places[i])))
    ensures Sorted(pairs, ByNewThenOld())
  {
    var found: seq<RenamePair> := [];
    places := [];
    for oldIndex := 0 to |disappeared|
      invariant Chosen(scored, places, oldIndex)
      invariant found == seq(|places|, i requires 0 <= i < |places| => PairOf(scored, disappeared, appeared, places[i]))
    {
      var choice := Choose(scored, oldIndex);
      if choice.Some? {
        found := found + [PairOf(scored, disappeared, appeared, choice.value)];
        places := places + [choice.value];
        OthersElsewhere(scored, choice.value);
      }
    }
    OrderIsAnOrder();
    SortKeeps(found, ByNewThenOld());
    SortSorts(found, ByNewThenOld());
    pairs := Sort(found, ByNewThenOld());
  }

  lemma OthersElsewhere(scored: seq<Scored>, chosen: nat)
    requires MutualBest(scored, chosen)
    ensures forall k :: MutualBest(scored, k) && scored[k].old' == scored[chosen].old' ==> k == chosen
  {
    OnlyChosen(scored, chosen);
  }

  lemma OrderIsAnOrder()
    ensures TotalPreorder(ByNewThenOld())
  {
  }
}
