/**
 * The flattened weighted table that replaces a BucketList: every item is stored
 * together with the running total of the probabilities up to and including it,
 * and the table remembers the final total as MaxWeight.
 *
 * This module holds the data model and the specification functions that the
 * builder (TableBuilder) and the lookup (TableLookup) are proved against, with
 * the lemmas that say what a flattened table means: the totals are prefix sums,
 * they increase when the probabilities are positive, and the flattening loses
 * nothing (Unflatten recovers the (item, probability) pairs exactly).
 */
module CumulativeTable {

  /** One element of the Items array: (CumulativeWeight, Value). */
  datatype Entry<V> = Entry(cumulativeWeight: int, value: V)

  /** The (MaxWeight, Items) tuple stored per key. */
  datatype Table<V> = Table(maxWeight: int, items: seq<Entry<V>>)

  /** Sum of the probabilities of a sequence of (item, probability) pairs. */
  function TotalWeight<V>(pairs: seq<(V, int)>): (total: int)
  {
    if |pairs| == 0 then 0 else TotalWeight(pairs[..|pairs| - 1]) + pairs[|pairs| - 1].1
  }

  /** The i-th entry carries the sum of the first i + 1 probabilities and the i-th item. */
  function Cumulate<V>(pairs: seq<(V, int)>): (items: seq<Entry<V>>)
    ensures |items| == |pairs|
  {
    seq(|pairs|, i requires 0 <= i < |pairs| => Entry(TotalWeight(pairs[..i + 1]), pairs[i].0))
  }

  /** The table that flattening a bucket list should produce. */
  function Flatten<V>(pairs: seq<(V, int)>): (t: Table<V>)
  {
    Table(TotalWeight(pairs), Cumulate(pairs))
  }

  /** The cumulative weight stored before index i (zero in front of the first entry). */
  function Prev<V>(items: seq<Entry<V>>, i: nat): (before: int)
    requires i <= |items|
  {
    if i == 0 then 0 else items[i - 1].cumulativeWeight
  }

  /** The weight of entry i: its cumulative weight minus the one before it. */
  function Weight<V>(items: seq<Entry<V>>, i: nat): (w: int)
    requires i < |items|
  {
    items[i].cumulativeWeight - Prev(items, i)
  }

  /** Reads the (item, probability) pairs back out of a table. */
  function Unflatten<V>(t: Table<V>): (pairs: seq<(V, int)>)
    ensures |pairs| == |t.items|
  {
    seq(|t.items|, i requires 0 <= i < |t.items| => (t.items[i].value, Weight(t.items, i)))
  }

  /** MaxWeight is the last cumulative weight, or zero for an empty table. */
  predicate Consistent<V>(t: Table<V>)
  {
    t.maxWeight == Prev(t.items, |t.items|)
  }

  predicate Positive<V>(pairs: seq<(V, int)>)
  {
    forall i :: 0 <= i < |pairs| ==> pairs[i].1 > 0
  }

  predicate NonNegative<V>(pairs: seq<(V, int)>)
  {
    forall i :: 0 <= i < |pairs| ==> pairs[i].1 >= 0
  }

  /** Cumulative weights never decrease along the table. */
  predicate Sorted<V>(items: seq<Entry<V>>)
  {
    forall i, j :: 0 <= i < j < |items| ==> items[i].cumulativeWeight <= items[j].cumulativeWeight
  }

  predicate StrictlyIncreasing<V>(items: seq<Entry<V>>)
  {
    forall i, j :: 0 <= i < j < |items| ==> items[i].cumulativeWeight < items[j].cumulativeWeight
  }

  /** Adding one pair adds its probability to the total. */
  lemma TotalWeightStep<V>(pairs: seq<(V, int)>, i: nat)
    requires i < |pairs|
    ensures TotalWeight(pairs[..i + 1]) == TotalWeight(pairs[..i]) + pairs[i].1
  {
    assert pairs[..i + 1][..i] == pairs[..i];
  }

  /** The total weight is the last cumulative weight: flattening yields a consistent table. */
  lemma FlattenConsistent<V>(pairs: seq<(V, int)>)
    ensures Consistent(Flatten(pairs))
    ensures |pairs| > 0 ==> Flatten(pairs).maxWeight == Flatten(pairs).items[|pairs| - 1].cumulativeWeight
  {
    assert pairs[..|pairs|] == pairs;
  }

  /** Each stored weight is exactly the probability it came from. */
  lemma FlattenWeight<V>(pairs: seq<(V, int)>, i: nat)
    requires i < |pairs|
    ensures Weight(Flatten(pairs).items, i) == pairs[i].1
  {
    TotalWeightStep(pairs, i);
    if i > 0 {
      assert pairs[..i - 1 + 1] == pairs[..i];
    }
  }

  /** Flattening loses nothing: the pairs can be read back in their original order. */
  lemma UnflattenFlatten<V>(pairs: seq<(V, int)>)
    ensures Unflatten(Flatten(pairs)) == pairs
  {
    forall i | 0 <= i < |pairs|
      ensures Unflatten(Flatten(pairs))[i] == pairs[i]
    {
      FlattenWeight(pairs, i);
    }
  }

  /** The prefix sums of the read-back pairs are the stored cumulative weights. */
  lemma {:induction false} UnflattenPrefixTotal<V>(t: Table<V>, i: nat)
    requires i <= |t.items|
    ensures TotalWeight(Unflatten(t)[..i]) == Prev(t.items, i)
  {
    if i > 0 {
      UnflattenPrefixTotal(t, i - 1);
      TotalWeightStep(Unflatten(t), i - 1);
    }
  }

  /** Every consistent table is the flattening of the pairs it stores. */
  lemma FlattenUnflatten<V>(t: Table<V>)
    requires Consistent(t)
    ensures Flatten(Unflatten(t)) == t
  {
    var pairs := Unflatten(t);
    UnflattenPrefixTotal(t, |t.items|);
    assert pairs[..|pairs|] == pairs;
    forall i | 0 <= i < |t.items|
      ensures Cumulate(pairs)[i] == t.items[i]
    {
      UnflattenPrefixTotal(t, i + 1);
    }
  }

  /** With positive probabilities the prefix sums grow strictly. */
  lemma {:induction false} PrefixTotalIncreases<V>(pairs: seq<(V, int)>, i: nat, j: nat)
    requires Positive(pairs)
    requires i < j <= |pairs|
    ensures TotalWeight(pairs[..i]) < TotalWeight(pairs[..j])
    decreases j - i
  {
    TotalWeightStep(pairs, j - 1);
    if i < j - 1 {
      PrefixTotalIncreases(pairs, i, j - 1);
    }
  }

  /** With non-negative probabilities the prefix sums never shrink. */
  lemma {:induction false} PrefixTotalGrows<V>(pairs: seq<(V, int)>, i: nat, j: nat)
    requires NonNegative(pairs)
    requires i <= j <= |pairs|
    ensures TotalWeight(pairs[..i]) <= TotalWeight(pairs[..j])
    decreases j - i
  {
    if i < j {
      TotalWeightStep(pairs, j - 1);
      PrefixTotalGrows(pairs, i, j - 1);
    }
  }

  /** Positive probabilities make the cumulative weights strictly increasing and positive. */
  lemma FlattenStrictlyIncreasing<V>(pairs: seq<(V, int)>)
    requires Positive(pairs)
    ensures StrictlyIncreasing(Flatten(pairs).items)
    ensures |pairs| > 0 ==> Flatten(pairs).items[0].cumulativeWeight > 0
  {
    var items := Flatten(pairs).items;
    forall i, j | 0 <= i < j < |items|
      ensures items[i].cumulativeWeight < items[j].cumulativeWeight
    {
      PrefixTotalIncreases(pairs, i + 1, j + 1);
    }
    if |pairs| > 0 {
      PrefixTotalIncreases(pairs, 0, 1);
    }
  }

  /** Non-negative probabilities make the cumulative weights sorted and non-negative. */
  lemma FlattenSorted<V>(pairs: seq<(V, int)>)
    requires NonNegative(pairs)
    ensures Sorted(Flatten(pairs).items)
    ensures |pairs| > 0 ==> Flatten(pairs).items[0].cumulativeWeight >= 0
  {
    var items := Flatten(pairs).items;
    forall i, j | 0 <= i < j < |items|
      ensures items[i].cumulativeWeight <= items[j].cumulativeWeight
    {
      PrefixTotalGrows(pairs, i + 1, j + 1);
    }
    if |pairs| > 0 {
      PrefixTotalGrows(pairs, 0, 1);
    }
  }
}
