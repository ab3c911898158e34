/** The display order of a column: every unresolved card above every resolved
    one, each group in the order the cards arrived (the resolved-to-bottom rule
    exercised by the facilitator journey). Vote sorting is not part of this model. */
module ColumnOrder {
  import opened Types
  import opened Seqs

  /** The cards of a column as displayed: the unresolved ones, then the resolved
      ones, each group in arrival order. */
  function DisplayOrder(cards: seq<Card>): (r: seq<Card>)
    ensures |r| == |cards|
  {
    PartitionIsStable(cards);
    Filter(cards, IsResolved, false) + Filter(cards, IsResolved, true)
  }

  /** The display order is a stable partition of the column: the same cards, every
      unresolved card above every resolved one, and the arrival order kept within
      each group. */
  lemma DisplayOrderIsStablePartition(cards: seq<Card>)
    ensures var r := DisplayOrder(cards);
      // the column keeps its cards: a permutation
      && multiset(r) == multiset(cards)
      // every unresolved card precedes every resolved one
      && (forall i, j :: 0 <= i < j < |r| && IsResolved(r[i]) ==> IsResolved(r[j]))
      // within each group the arrival order is kept
      && Filter(r, IsResolved, false) == Filter(cards, IsResolved, false)
      && Filter(r, IsResolved, true) == Filter(cards, IsResolved, true)
  {
    PartitionIsStable(cards);
  }

  /** The two groups of a column, concatenated, filter back to themselves. */
  lemma {:induction false} PartitionIsStable(cards: seq<Card>)
    ensures var active, resolved := Filter(cards, IsResolved, false), Filter(cards, IsResolved, true);
      && |active + resolved| == |cards|
      && multiset(active + resolved) == multiset(cards)
      && Filter(active + resolved, IsResolved, false) == active
      && Filter(active + resolved, IsResolved, true) == resolved
  {
    var active, resolved := Filter(cards, IsResolved, false), Filter(cards, IsResolved, true);
    FilterSplits(cards, IsResolved);
    FilterConcat(active, resolved, IsResolved, false);
    FilterConcat(active, resolved, IsResolved, true);
    FilterKeepsAll(active, IsResolved, false);
    FilterKeepsAll(resolved, IsResolved, true);
    FilterKeepsNone(active, IsResolved, true);
    FilterKeepsNone(resolved, IsResolved, false);
  }

  /** A column with no resolved card is displayed exactly as it arrived. */
  lemma {:induction false} AllActiveKeepsOrder(cards: seq<Card>)
    requires forall i :: 0 <= i < |cards| ==> !IsResolved(cards[i])
    ensures DisplayOrder(cards) == cards
  {
    FilterKeepsAll(cards, IsResolved, false);
    FilterKeepsNone(cards, IsResolved, true);
  }

  /** Marking one card of an all-active column resolved keeps the column's size,
      moves that card to the bottom and leaves the others in their order. */
  lemma {:induction false} ResolvedCardMovesToBottom(cards: seq<Card>, k: nat)
    requires k < |cards|
    requires forall i :: 0 <= i < |cards| ==> !IsResolved(cards[i])
    ensures var marked := cards[k := WithResolved(cards[k], true)];
      DisplayOrder(marked) == cards[..k] + cards[k + 1..] + [marked[k]]
  {
    var m := WithResolved(cards[k], true);
    var marked := cards[k := m];
    var before, after := cards[..k], cards[k + 1..];
    assert marked == (before + [m]) + after;
    FilterOneAmongOthers(before, m, after, IsResolved);
  }

  /** The bottom card of a non-empty column is resolved exactly when some card is. */
  lemma {:induction false} LastResolvedIff(cards: seq<Card>)
    requires |cards| > 0
    ensures IsResolved(DisplayOrder(cards)[|cards| - 1]) <==>
            exists i :: 0 <= i < |cards| && IsResolved(cards[i])
  {
    var r := DisplayOrder(cards);
    DisplayOrderIsStablePartition(cards);
    if exists i :: 0 <= i < |cards| && IsResolved(cards[i]) {
      var i :| 0 <= i < |cards| && IsResolved(cards[i]);
      assert cards[i] in multiset(r);
      var j :| 0 <= j < |r| && r[j] == cards[i];
      assert IsResolved(r[j]);
    } else {
      assert r[|r| - 1] in multiset(cards);
    }
  }

  /** Three cards arrive in order; resolving the first sends it below the other two. */
  lemma ResolvingFirstOfThree(t1: Thought, t2: Thought, t3: Thought)
    requires !t1.discussed && !t2.discussed && !t3.discussed
    ensures DisplayOrder([ThoughtCard(t1.(discussed := true)), ThoughtCard(t2), ThoughtCard(t3)])
         == [ThoughtCard(t2), ThoughtCard(t3), ThoughtCard(t1.(discussed := true))]
  {
    ResolvedCardMovesToBottom([ThoughtCard(t1), ThoughtCard(t2), ThoughtCard(t3)], 0);
  }
}
