/**
 * The start-up conversion that turns every bucket list of the descriptor table
 * into its flattened (MaxWeight, Items) form, one table per key.
 */
module TableBuilder {
  import opened CumulativeTable

  /**
   * The per-key body of the conversion: walk the (item, probability) pairs in
   * order, keep a running total and append (total, item) for each pair.
   */
  method FlattenBucketList<V>(bucket: seq<(V, int)>) returns (table: Table<V>)
    ensures table == Flatten(bucket)
    ensures |table.items| == |bucket|
    ensures forall i :: 0 <= i < |bucket| ==>
              table.items[i].cumulativeWeight == TotalWeight(bucket[..i + 1]) && table.items[i].value == bucket[i].0
    ensures table.maxWeight == TotalWeight(bucket)
    ensures |bucket| > 0 ==> table.maxWeight == table.items[|bucket| - 1].cumulativeWeight
    ensures Positive(bucket) ==> StrictlyIncreasing(table.items)
  {
    var list: seq<Entry<V>> := [];
    var cumulative := 0;
    for i := 0 to |bucket|
      invariant cumulative == TotalWeight(bucket[..i])
      invariant |list| == i
      invariant forall j :: 0 <= j < i ==> list[j] == Entry(TotalWeight(bucket[..j + 1]), bucket[j].0)
    {
      var (item, probability) := bucket[i];
      TotalWeightStep(bucket, i);
      cumulative := cumulative + probability;
      list := list + [Entry(cumulative, item)];
    }
    assert bucket[..|bucket|] == bucket;
    table := Table(cumulative, list);
    FlattenConsistent(bucket);
    if Positive(bucket) {
      FlattenStrictlyIncreasing(bucket);
    }
  }

  /**
   * The conversion of the whole dictionary: every key of the source dictionary
   * gets the flattened form of its bucket list, and no other key is added.
   */
  method InitializeDescBodyParts<V>(tempDict: map<string, seq<(V, int)>>) returns (result: map<string, Table<V>>)
    ensures result.Keys == tempDict.Keys
    ensures forall k :: k in tempDict ==> result[k] == Flatten(tempDict[k])
  {
    result := map[];
    var remaining := tempDict.Keys;
    while remaining != {}
      invariant remaining <= tempDict.Keys
      invariant result.Keys == tempDict.Keys - remaining
      invariant forall k :: k in result ==> result[k] == Flatten(tempDict[k])
      decreases remaining
    {
      var key :| key in remaining;
      var table := FlattenBucketList(tempDict[key]);
      result := result[key := table];
      remaining := remaining - {key};
    }
  }
}
