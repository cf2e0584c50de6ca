/**
 * Weighted random selection over a flattened table: a draw in [0, MaxWeight)
 * is mapped, by binary search, to the first entry whose cumulative weight
 * exceeds it. The random source is not modelled; the draw is a parameter.
 */
module TableLookup {
  import opened CumulativeTable

  /** The first index whose cumulative weight exceeds target, or |items| if there is none. */
  function FirstAbove<V>(items: seq<Entry<V>>, target: int): (i: nat)
    ensures i <= |items|
    ensures forall j :: 0 <= j < i ==> items[j].cumulativeWeight <= target
    ensures i < |items| ==> items[i].cumulativeWeight > target
  {
    if |items| == 0 then 0
    else if items[0].cumulativeWeight > target then 0
    else 1 + FirstAbove(items[1..], target)
  }

  /**
   * Binary search for the entry selected by a draw. `draw` stands for the value
   * that r.Next(MaxWeight) returns, which lies in [0, MaxWeight).
   */
  method GetRandom<V>(data: Table<V>, draw: int) returns (v: V)
    requires |data.items| > 0
    requires Sorted(data.items) && Consistent(data)
    requires 0 <= draw < data.maxWeight
    ensures FirstAbove(data.items, draw) < |data.items|
    ensures v == data.items[FirstAbove(data.items, draw)].value
  {
    var target := draw;
    var left, right := 0, |data.items| - 1;
    while left < right
      invariant 0 <= left <= right < |data.items|
      invariant forall j :: 0 <= j < left ==> data.items[j].cumulativeWeight <= target
      invariant data.items[right].cumulativeWeight > target
      decreases right - left
    {
      var mid := left + (right - left) / 2;
      if data.items[mid].cumulativeWeight <= target {
        left := mid + 1;
      } else {
        right := mid;
      }
    }
    FirstAboveUnique(data.items, target, left);
    v := data.items[left].value;
  }

  /** An index below which nothing exceeds target and which itself exceeds it is FirstAbove. */
  lemma FirstAboveUnique<V>(items: seq<Entry<V>>, target: int, i: nat)
    requires i < |items|
    requires forall j :: 0 <= j < i ==> items[j].cumulativeWeight <= target
    requires items[i].cumulativeWeight > target
    ensures FirstAbove(items, target) == i
  {
  }

  /** Entry i is selected exactly by the draws in [Prev(i), cumulative weight of i). */
  lemma SelectedInterval<V>(items: seq<Entry<V>>, i: nat, target: int)
    requires Sorted(items)
    requires i < |items|
    requires 0 <= target
    ensures FirstAbove(items, target) == i <==> Prev(items, i) <= target < items[i].cumulativeWeight
  {
  }

  /** The draws in [0, MaxWeight) that select entry i. */
  function Selecting<V>(t: Table<V>, i: nat): (draws: set<int>)
  {
    set x | 0 <= x < t.maxWeight && FirstAbove(t.items, x) == i
  }

  /** The integers in [lo, hi). */
  function Range(lo: int, hi: int): (r: set<int>)
    ensures forall x :: x in r <==> lo <= x < hi
    decreases hi - lo
  {
    if lo >= hi then {} else Range(lo, hi - 1) + {hi - 1}
  }

  lemma {:induction false} RangeSize(lo: int, hi: int)
    requires lo <= hi
    ensures |Range(lo, hi)| == hi - lo
    decreases hi - lo
  {
    if lo < hi {
      RangeSize(lo, hi - 1);
      assert Range(lo, hi) == Range(lo, hi - 1) + {hi - 1};
    }
  }

  /**
   * Exactly Weight(i) of the MaxWeight possible draws select entry i, so with a
   * uniform draw entry i is chosen with probability Weight(i) / MaxWeight.
   */
  lemma SelectingCount<V>(t: Table<V>, i: nat)
    requires Sorted(t.items) && Consistent(t)
    requires i < |t.items|
    requires t.items[0].cumulativeWeight >= 0
    ensures |Selecting(t, i)| == Weight(t.items, i)
  {
    var items := t.items;
    var n := |items|;
    assert Prev(items, i) <= items[i].cumulativeWeight <= items[n - 1].cumulativeWeight;
    assert 0 <= Prev(items, i);
    forall x | x in Selecting(t, i)
      ensures x in Range(Prev(items, i), items[i].cumulativeWeight)
    {
      SelectedInterval(items, i, x);
    }
    forall x | x in Range(Prev(items, i), items[i].cumulativeWeight)
      ensures x in Selecting(t, i)
    {
      SelectedInterval(items, i, x);
    }
    assert Selecting(t, i) == Range(Prev(items, i), items[i].cumulativeWeight);
    RangeSize(Prev(items, i), items[i].cumulativeWeight);
  }

  /**
   * For a table built from non-negative probabilities, the number of draws
   * that select item i is that item's own probability.
   */
  lemma FlattenSelectingCount<V>(pairs: seq<(V, int)>, i: nat)
    requires NonNegative(pairs)
    requires i < |pairs|
    ensures |Selecting(Flatten(pairs), i)| == pairs[i].1
  {
    FlattenSorted(pairs);
    FlattenConsistent(pairs);
    FlattenWeight(pairs, i);
    SelectingCount(Flatten(pairs), i);
  }

  /**
   * A table built from a non-empty list of positive probabilities meets the
   * precondition of GetRandom, and every draw r.Next(MaxWeight) can return selects
   * an item in its place in the input.
   */
  lemma FlattenSearchable<V>(pairs: seq<(V, int)>, draw: int)
    requires Positive(pairs) && |pairs| > 0
    requires 0 <= draw < TotalWeight(pairs)
    ensures Sorted(Flatten(pairs).items) && Consistent(Flatten(pairs))
    ensures Flatten(pairs).maxWeight > 0
    ensures FirstAbove(Flatten(pairs).items, draw) < |pairs|
    ensures Flatten(pairs).items[FirstAbove(Flatten(pairs).items, draw)].value == pairs[FirstAbove(Flatten(pairs).items, draw)].0
  {
    FlattenStrictlyIncreasing(pairs);
    FlattenConsistent(pairs);
  }
}
