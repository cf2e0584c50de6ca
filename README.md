# Flattened weighted descriptor table

This project models the weighted random sampler that the `DescBodyPart`
table, a string-keyed dictionary of weighted `DescBodyPart` values, uses once
it stops using `BucketList`. The weighted items are
flattened into a binary-search array. The code is C#. The one-off
conversion script `scripts/convert_descbodypart.py` splices it into
`DescBodyPart.cs`. It has two parts:

- **Table builder** (`InitializeDescBodyParts`). For every key of the
  dictionary of bucket lists, it walks the `(item, probability)` pairs in
  order. It keeps a running `cumulative` total and appends
  `(cumulative, item)` to a list. It then stores
  `(MaxWeight = cumulative, Items = list)` under the same key.
- **Lookup** (`GetRandom`). It draws `target = r.Next(MaxWeight)`. A binary
  search on `left`/`right` then finds the first entry whose
  `CumulativeWeight` exceeds `target`, and the search returns that entry's
  value.

Modules:

- `CumulativeTable` (`cumulative_table.dfy`): the `Entry` and `Table`
  datatypes. It also holds the specification functions and lemmas:
  - `TotalWeight`, `Cumulate` and `Flatten` say what the builder must
    produce.
  - `Unflatten` is its inverse.
  - The lemmas say that flattening loses nothing, keeps `MaxWeight`
    consistent, and gives increasing weights.
- `TableBuilder` (`table_builder.dfy`): the builder's two loops as
  methods, proved against `Flatten`.
- `TableLookup` (`table_lookup.dfy`): the binary search as a method,
  proved against the linear specification `FirstAbove`. It also holds
  lemmas on the draws that select each entry: the interval they form and
  how many there are.

The random source, file I/O and the text rewriting of the script are
parameters or left out (see below).

## Model

| member | source | states |
|---|---|---|
| `TableBuilder.FlattenBucketList` | scripts/convert_descbodypart.py:30-37 | There is one entry per input pair, in input order. Entry i holds the i-th item and the sum of the first i+1 probabilities. MaxWeight is the total of all probabilities and, for a non-empty list, the last cumulative weight. Positive probabilities make the cumulative weights strictly increasing. |
| `TableBuilder.InitializeDescBodyParts` | scripts/convert_descbodypart.py:27-39 | The result has exactly the keys of the input dictionary and no others. Each key maps to the flattened form of its own bucket list. |
| `TableLookup.GetRandom` | scripts/convert_descbodypart.py:45-59 | Preconditions: the table is non-empty, sorted and consistent, and the draw is in [0, MaxWeight). The binary search stays within bounds and terminates, because right-left decreases. It returns the value of the first entry whose cumulative weight exceeds the draw. |
| `TableLookup.FirstAbove` | scripts/convert_descbodypart.py:50-57 | Returns the least index whose cumulative weight exceeds the target. Every earlier index is at or below the target. Returns the table length when no index exceeds it. |
| `TableLookup.FirstAboveUnique` | scripts/convert_descbodypart.py:50-57 | Suppose an index exceeds the target and everything before it is at or below it. Then that index is the one the search selects. This is the loop's exit condition. |
| `TableLookup.SelectedInterval` | scripts/convert_descbodypart.py:50-59 | On a sorted table, entry i is selected exactly by the draws t with cum[i-1] <= t < cum[i] (cum[-1] = 0). Both directions are proved. |
| `TableLookup.SelectingCount` | scripts/convert_descbodypart.py:47-59 | On a sorted, consistent table with non-negative cumulative weights, exactly cum[i] - cum[i-1] of the MaxWeight possible draws select entry i. This is its weight. |
| `TableLookup.FlattenSelectingCount` | scripts/convert_descbodypart.py:30-59 | Build a table from non-negative probabilities. Then the number of draws in [0, MaxWeight) that select item i equals item i's own probability. So a uniform draw picks it with probability weight/MaxWeight. |
| `TableLookup.FlattenSearchable` | scripts/convert_descbodypart.py:30-59 | Build a table from a non-empty list of positive probabilities. It meets every precondition of GetRandom. MaxWeight is positive, so r.Next(MaxWeight) draws from a non-empty range. Every draw selects an entry holding the input item at that index. |
| `TableLookup.RangeSize` | scripts/convert_descbodypart.py:47 | Counting helper of SelectingCount: the integer range [lo, hi), the shape of r.Next's range, has hi - lo elements. |
| `CumulativeTable.TotalWeightStep` | scripts/convert_descbodypart.py:34 | Helper of FlattenBucketList's loop: going from prefix i to prefix i+1 adds the i-th probability, the step `cumulative += probability` takes. |
| `CumulativeTable.FlattenConsistent` | scripts/convert_descbodypart.py:31-37 | MaxWeight of a built table is its last cumulative weight, or 0 for an empty bucket list. |
| `CumulativeTable.FlattenWeight` | scripts/convert_descbodypart.py:34-35 | Entry i's cumulative weight minus entry i-1's equals the i-th probability. |
| `CumulativeTable.UnflattenFlatten` | scripts/convert_descbodypart.py:30-37 | Reading the pairs back out of a built table gives the input sequence exactly, so flattening loses nothing. |
| `CumulativeTable.UnflattenPrefixTotal` | scripts/convert_descbodypart.py:30-37 | The prefix sums of the pairs read back out of a table are its stored cumulative weights. |
| `CumulativeTable.FlattenUnflatten` | scripts/convert_descbodypart.py:30-37 | Every consistent table is the flattening of the pairs it stores. With UnflattenFlatten, flattening is a bijection onto consistent tables. |
| `CumulativeTable.PrefixTotalIncreases` | scripts/convert_descbodypart.py:32-35 | With positive probabilities, a longer prefix has a strictly larger total. |
| `CumulativeTable.PrefixTotalGrows` | scripts/convert_descbodypart.py:32-35 | With non-negative probabilities, a longer prefix never has a smaller total. |
| `CumulativeTable.FlattenStrictlyIncreasing` | scripts/convert_descbodypart.py:32-35 | Positive probabilities give strictly increasing cumulative weights with a positive first weight. |
| `CumulativeTable.FlattenSorted` | scripts/convert_descbodypart.py:32-35 | Non-negative probabilities give non-decreasing cumulative weights with a non-negative first weight. |

## Left out

- Reading and writing `DescBodyPart.cs` and the final status message of the script (lines 9-10, 65-68): these are file I/O.
- The literal `str.replace` and the regular-expression substitution that splice the C# code into `DescBodyPart.cs` (lines 12-23, 62). They are a one-off text rewrite of a file that is not part of this model.
- `BucketList` is not part of this model. Enumerating a bucket list is taken as a sequence of `(item, probability)` pairs in enumeration order.
- `DescBodyPart.cs` is not part of this model. The stored value type is a type parameter `V`, and the dictionary keys are strings.
- `Random.Next`: the draw is the parameter `draw`, and the model assumes only its range [0, MaxWeight). The model says nothing about the generator's distribution. The probability claim is stated as a count of the draws that select each item.
- The `Items` array is built once by `ToArray` and never changed. It is modelled as an immutable sequence inside the `Table` value.
- `Dictionary` enumeration order: the conversion loop takes the keys in any order. This is safe because each key is written once and the result does not depend on the order.
- `TableBuilder.FlattenBucketList`: does not model 32-bit overflow of `cumulative`. It assumes the total weight of every bucket list fits in an `int`.
- `TableLookup.GetRandom`: its precondition accepts exactly the non-empty tables whose cumulative weights are sorted, whose MaxWeight is the last cumulative weight, and whose draw satisfies `0 <= draw < MaxWeight`. That covers every table built from non-negative probabilities with a positive total. It also covers some tables with a negative or zero entry, for example `[(a,0),(b,1)]` or `[(a,-1),(b,3)]`. The model assumes the table data lies in this set. The source data itself is not part of this model, so this is an assumption, not a checked fact. The tables it leaves out behave as follows in the source:
  - total zero, whether all weights are zero or mixed signs sum to 0: `r.Next(0)` yields 0 and the search runs with target 0. With all weights zero it returns the last item. With mixed signs the result depends on the entries: for `[(a,1),(b,-1)]` the Items are `[(1,a),(0,b)]`, mid is 0, `1 <= 0` fails, right becomes 0, and it returns `a`;
  - some negative probability with a positive total and unsorted cumulative weights: the search need not return the first entry above the draw. For `[(a,1),(b,-1),(c,5)]` and draw 0 it returns `c`, not `a`;
  - a negative total: `MaxWeight` is negative and `r.Next(MaxWeight)` throws ArgumentOutOfRangeException before any search. This error path is not modelled.
- `TableLookup.GetRandom`: requires a non-empty table. With an empty `Items`, `right` starts at -1, the loop is skipped and `Items[0]` is out of range, so the source fails there.
- `ReadOnlyDictionary` wrapping (line 39) is not modelled separately. The returned map is an immutable value.
